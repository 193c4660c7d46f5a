/** Reading a canonical text gives back its target, so normalizing twice changes nothing. */
module NormalizationLaws {
  import opened Wrappers
  import opened AsciiText
  import opened AddressBlocks
  import opened Targets
  import opened Normalization

  // ---- addresses --------------------------------------------------------------------

  lemma OctetOf(n: nat)
    requires n < 256
    ensures Octet(Decimal(n)) && Value(Decimal(n)) == n && '.' !in Decimal(n)
  {
    ValueOfDecimal(n);
    if n >= 100 {
      assert Decimal(n) == Decimal(n / 10) + [Digit(n % 10)];
      assert Decimal(n / 10) == Decimal(n / 100) + [Digit(n / 10 % 10)];
    }
  }

  lemma OctetsRead(address: nat)
    ensures var parts := Octets(address);
            && (forall p <- parts :: Octet(p) && '.' !in p)
            && Value(parts[0]) == address / 0x100_0000 % 256 && Value(parts[1]) == address / 0x1_0000 % 256
            && Value(parts[2]) == address / 0x100 % 256 && Value(parts[3]) == address % 256
  {
    OctetOf(address / 0x100_0000 % 256);
    OctetOf(address / 0x1_0000 % 256);
    OctetOf(address / 0x100 % 256);
    OctetOf(address % 256);
  }

  lemma OctetsAddUp(n: nat)
    requires n < V4_SPACE
    ensures (((n / 0x100_0000 % 256) * 256 + n / 0x1_0000 % 256) * 256 + n / 0x100 % 256) * 256 + n % 256 == n
  {
  }

  lemma V4ReadsBack(address: nat)
    requires address < V4_SPACE
    ensures ParseV4(RenderV4(address)) == Some(address)
  {
    OctetsRead(address);
    SplitOfJoin(Octets(address), '.');
    OctetsAddUp(address);
  }

  /** The text of an address is the only text that reads as it. */
  lemma V4HasOneText(s: string)
    requires ParseV4(s).Some?
    ensures ParseV4(s).value < V4_SPACE && RenderV4(ParseV4(s).value) == s
  {
    var parts := SplitAt(s, '.');
    assert parts[0] in parts && parts[1] in parts && parts[2] in parts && parts[3] in parts;
    OctetsGiveBack(parts, ParseV4(s).value);
    JoinOfSplit(s, '.');
  }

  lemma OctetsGiveBack(parts: seq<string>, address: nat)
    requires |parts| == 4 && Octet(parts[0]) && Octet(parts[1]) && Octet(parts[2]) && Octet(parts[3])
    requires address
          == ((Value(parts[0]) * 256 + Value(parts[1])) * 256 + Value(parts[2])) * 256 + Value(parts[3])
    ensures address < V4_SPACE && Octets(address) == parts
  {
    FourOctets(Value(parts[0]), Value(parts[1]), Value(parts[2]), Value(parts[3]));
    DecimalOfValue(parts[0]);
    DecimalOfValue(parts[1]);
    DecimalOfValue(parts[2]);
    DecimalOfValue(parts[3]);
  }

  lemma FourOctets(a: nat, b: nat, c: nat, d: nat)
    requires a < 256 && b < 256 && c < 256 && d < 256
    ensures var n := ((a * 256 + b) * 256 + c) * 256 + d;
            n < V4_SPACE && n / 0x100_0000 % 256 == a && n / 0x1_0000 % 256 == b && n / 0x100 % 256 == c && n % 256 == d
  {
  }

  // ---- characters -------------------------------------------------------------------

  predicate Only(s: string, ok: char -> bool) {
    forall i | 0 <= i < |s| :: ok(s[i])
  }

  lemma {:induction false} JoinChars(parts: seq<string>, c: char, ok: char -> bool)
    requires parts != [] && ok(c) && forall i | 0 <= i < |parts| :: Only(parts[i], ok)
    ensures Only(Join(parts, c), ok)
  {
    if |parts| > 1 {
      JoinChars(parts[1..], c, ok);
    }
  }

  lemma JoinStarts(parts: seq<string>, c: char)
    requires parts != [] && parts[0] != ""
    ensures Join(parts, c) != "" && Join(parts, c)[0] == parts[0][0]
  {
  }

  predicate V4Char(c: char) { IsDigit(c) || c == '.' }

  predicate NameChar(c: char) { LabelEnd(c) || c == '-' || c == '.' }

  lemma V4Chars(address: nat)
    ensures RenderV4(address) != "" && IsDigit(RenderV4(address)[0])
    ensures Only(RenderV4(address), V4Char)
  {
    var parts := Octets(address);
    forall i | 0 <= i < |parts| ensures parts[i] != "" && IsDigit(parts[i][0]) && Only(parts[i], V4Char) {
      assert AllDigits(parts[i]);
      assert forall k | 0 <= k < |parts[i]| :: parts[i][k] in parts[i];
    }
    JoinChars(parts, '.', V4Char);
    JoinStarts(parts, '.');
  }

  lemma NameChars(name: string)
    requires CanonicalName(name)
    ensures name != "" && LabelEnd(name[0]) && Only(name, NameChar)
  {
    var labels := SplitAt(name, '.');
    forall i | 0 <= i < |labels| ensures Label(labels[i]) && Only(labels[i], NameChar) {
      assert labels[i] in labels;
      assert forall k | 0 <= k < |labels[i]| :: labels[i][k] in labels[i];
    }
    JoinOfSplit(name, '.');
    JoinChars(labels, '.', NameChar);
    JoinStarts(labels, '.');
  }

  lemma HostChars(host: Host)
    requires CanonicalHost(host)
    ensures var s := HostText(host); s != "" && LabelEnd(s[0]) && Only(s, NameChar)
  {
    match host
    case Literal(_, address) =>
      V4Chars(address);
      assert forall i | 0 <= i < |RenderV4(address)| :: V4Char(RenderV4(address)[i]);
    case Name(name) => NameChars(name);
  }

  lemma FoldNothing(s: string)
    requires Only(s, NameChar)
    ensures FoldAll(s) == s
  {
    assert forall i | 0 <= i < |s| :: NameChar(s[i]) && Fold(s[i]) == s[i];
  }

  lemma {:induction false} FindNothing(s: string, pattern: string)
    requires pattern != "" && pattern[0] !in s
    ensures Find(s, pattern).None?
  {
    if s != "" {
      assert s[0] in s;
      FindNothing(s[1..], pattern);
    }
  }

  lemma {:induction false} FindSomething(s: string, pattern: string, i: nat)
    requires i <= |s| && StartsWith(s[i..], pattern)
    ensures Find(s, pattern).Some?
    decreases i
  {
    if i == 0 {
      assert s[0..] == s;
    } else {
      assert s[1..][i - 1..] == s[i..];
      FindSomething(s[1..], pattern, i - 1);
    }
  }

  // ---- names ------------------------------------------------------------------------

  lemma {:induction false} LastPart(s: string, c: char)
    requires s != "" && s[|s| - 1] == c
    ensures var parts := SplitAt(s, c); parts[|parts| - 1] == ""
    decreases |s|
  {
    var i := IndexOf(s, {c});
    if i < |s| - 1 {
      LastPart(s[i + 1..], c);
    } else {
      assert s[i + 1..] == "" && SplitAt("", c) == [""];
    }
  }

  lemma NameReadsBack(name: string)
    requires CanonicalName(name)
    ensures NormalizeName(name) == Ok(name)
  {
    NameChars(name);
    var labels := SplitAt(name, '.');
    assert Label(labels[|labels| - 1]);
    if name[|name| - 1] == '.' {
      LastPart(name, '.');
    }
    assert WithoutTrailingDots(name) == name;
    FoldNothing(name);
  }

  /** A canonical name is never a dotted address. */
  lemma NameIsNoAddress(name: string)
    requires CanonicalName(name)
    ensures ParseV4(name).None?
  {
    var labels := SplitAt(name, '.');
    assert labels[|labels| - 1] in labels;
  }

  lemma HostReadsBack(host: Host)
    requires CanonicalHost(host)
    ensures ReadHost(HostText(host)) == Ok(host) && FoldAll(HostText(host)) == HostText(host)
  {
    HostChars(host);
    FoldNothing(HostText(host));
    match host
    case Literal(_, address) => V4ReadsBack(address);
    case Name(name) => NameReadsBack(name); NameIsNoAddress(name);
  }

  // ---- origins ----------------------------------------------------------------------

  predicate PortChar(c: char) { IsDigit(c) || c == ':' }

  lemma PortReadsBack(scheme: Scheme, port: nat)
    requires 1 <= port <= 65535
    ensures var s := PortText(scheme, port);
            && (s == "" || s[0] == ':') && Only(s, PortChar)
            && ReadPort(if s == "" then "" else s[1..])
               == Some(if port == DefaultPort(scheme) then None else Some(port))
  {
    ValueOfDecimal(port);
    var digits := Decimal(port);
    assert forall i | 0 <= i < |digits| :: digits[i] in digits;
    if port != DefaultPort(scheme) {
      assert PortText(scheme, port)[1..] == digits;
    }
  }

  predicate NetlocChar(c: char) { NameChar(c) || PortChar(c) }

  lemma NetlocChars(scheme: Scheme, host: Host, port: nat)
    requires CanonicalHost(host) && 1 <= port <= 65535
    ensures Only(HostText(host) + PortText(scheme, port), NetlocChar)
  {
    var h, p := HostText(host), PortText(scheme, port);
    HostChars(host);
    PortReadsBack(scheme, port);
    assert forall i | 0 <= i < |h| :: NameChar(h[i]);
    assert forall i | 0 <= i < |p| :: PortChar(p[i]);
    assert forall i | 0 <= i < |h + p| :: NetlocChar((h + p)[i]);
  }

  lemma PlaceIsOrigin(scheme: Scheme, h: string, p: string)
    requires Only(h, NameChar) && (p == "" || p[0] == ':')
    ensures NormalizePlace(scheme, h + p) == OriginOf(scheme, FoldAll(h), ReadPort(if p == "" then "" else p[1..]))
  {
    assert forall i | 0 <= i < |h| :: NameChar(h[i]);
    IndexOfIs(h + p, {':'}, |h|);
    assert (h + p)[..|h|] == h;
    assert p != "" ==> (h + p)[|h| + 1..] == p[1..];
  }

  lemma OriginReadsBack(scheme: Scheme, host: Host, port: nat)
    requires CanonicalHost(host) && 1 <= port <= 65535
    ensures NormalizePlace(scheme, HostText(host) + PortText(scheme, port)) == Ok(UrlTarget(scheme, host, port))
  {
    HostReadsBack(host);
    PortReadsBack(scheme, port);
    HostChars(host);
    PlaceIsOrigin(scheme, HostText(host), PortText(scheme, port));
  }

  lemma NetlocIsPlace(scheme: Scheme, netloc: string)
    requires '@' !in netloc && '[' !in netloc && ']' !in netloc
    ensures NormalizeNetloc(scheme, netloc) == NormalizePlace(scheme, netloc)
  {
    assert netloc[0..] == netloc;
  }

  lemma NetlocIsClean(netloc: string)
    requires Only(netloc, NetlocChar)
    ensures IndexOf(netloc, {'/', '?', '#'}) == |netloc| && '@' !in netloc && '[' !in netloc && ']' !in netloc
  {
    assert forall i | 0 <= i < |netloc| :: NetlocChar(netloc[i]);
    IndexOfIs(netloc, {'/', '?', '#'}, |netloc|);
  }

  lemma UrlIsNetloc(scheme: Scheme, netloc: string)
    requires IndexOf(netloc, {'/', '?', '#'}) == |netloc|
    ensures var v := SchemeText(scheme) + ("://" + netloc);
            Find(v, "://").Some? && NormalizeUrl(v) == NormalizeNetloc(scheme, netloc)
  {
    UrlSplits(scheme, netloc);
    assert netloc[..|netloc|] == netloc;
  }

  lemma UrlReadsBack(scheme: Scheme, host: Host, port: nat)
    requires CanonicalHost(host) && 1 <= port <= 65535
    ensures var v := Render(UrlTarget(scheme, host, port));
            Find(v, "://").Some? && NormalizeUrl(v) == Ok(UrlTarget(scheme, host, port))
  {
    var netloc := HostText(host) + PortText(scheme, port);
    UrlText(scheme, host, port);
    NetlocChars(scheme, host, port);
    NetlocIsClean(netloc);
    UrlIsNetloc(scheme, netloc);
    NetlocIsPlace(scheme, netloc);
    OriginReadsBack(scheme, host, port);
  }

  lemma UrlSplits(scheme: Scheme, netloc: string)
    ensures var s, v := SchemeText(scheme), SchemeText(scheme) + ("://" + netloc);
            && Find(v, "://").Some? && IndexOf(v, {':'}) == |s| && ReadScheme(v[..|s|]) == Some(scheme)
            && StartsWith(v[|s| + 1..], "//") && v[|s| + 1..][2..] == netloc
  {
    var s, v := SchemeText(scheme), SchemeText(scheme) + ("://" + netloc);
    SchemeReads(scheme);
    TextSplits(s, netloc);
  }

  lemma SchemeReads(scheme: Scheme)
    ensures var s := SchemeText(scheme); ReadScheme(s) == Some(scheme) && forall i | 0 <= i < |s| :: s[i] != ':'
  {
    var s := SchemeText(scheme);
    assert FoldAll(s) == s;
  }

  lemma TextSplits(s: string, netloc: string)
    requires forall i | 0 <= i < |s| :: s[i] != ':'
    ensures var v := s + ("://" + netloc);
            && Find(v, "://").Some? && IndexOf(v, {':'}) == |s| && v[..|s|] == s
            && StartsWith(v[|s| + 1..], "//") && v[|s| + 1..][2..] == netloc
  {
    var v := s + ("://" + netloc);
    assert v[|s|..] == "://" + netloc;
    FindSomething(v, "://", |s|);
    IndexOfIs(v, {':'}, |s|);
    assert v[|s| + 1..] == "//" + netloc;
  }

  // ---- networks ---------------------------------------------------------------------

  lemma PrefixLengthReadsBack(n: nat)
    requires n <= 32
    ensures var s := Decimal(n); AllDigits(s) && |s| <= 3 && Value(s) == n && '/' !in s
  {
    OctetOf(n);
  }

  lemma PartsAreRead(a: string, p: string, address: nat,
                     parse: string -> Option<nat>, around: (nat, nat) -> Normal)
    requires Only(a, V4Char) && parse(a) == Some(address)
    requires AllDigits(p) && |p| <= 3 && Value(p) <= 32
    ensures ReadNetwork(a + "/" + p, parse, around) == around(address, 32 - Value(p))
  {
    var v := a + "/" + p;
    assert forall i | 0 <= i < |a| :: V4Char(a[i]);
    IndexOfIs(v, {'/'}, |a|);
    assert v[..|a|] == a && v[|a| + 1..] == p;
  }

  lemma AroundGivesBack(b: Block)
    requires Canonical(NetworkTarget(b))
    ensures NetworkAround(First(b), b.hostBits) == Ok(NetworkTarget(b))
  {
    ContainsIsPrefix(b, First(b));
  }

  lemma NetworkReadsBack(b: Block)
    requires Canonical(NetworkTarget(b))
    ensures NormalizeNetwork(Render(NetworkTarget(b))) == Ok(NetworkTarget(b))
  {
    var a, p := RenderV4(First(b)), Decimal(32 - b.hostBits);
    V4Chars(First(b));
    V4ReadsBack(First(b));
    PrefixLengthReadsBack(32 - b.hostBits);
    PartsAreRead(a, p, First(b), ParseV4, NetworkAround);
    AroundGivesBack(b);
  }

  // ---- main results -----------------------------------------------------------------

  predicate TargetChar(c: char) { NetlocChar(c) || c == '/' }

  lemma RenderChars(t: Target)
    requires Canonical(t)
    ensures var v := Render(t); v != "" && LabelEnd(v[0]) && Only(v, TargetChar)
  {
    match t
    case AddressTarget(_, address) =>
      V4Chars(address);
      V4IsTarget(RenderV4(address));
    case NetworkTarget(b) => NetworkChars(b);
    case HostnameTarget(name) =>
      NameChars(name);
      assert forall i | 0 <= i < |name| :: NameChar(name[i]);
    case UrlTarget(scheme, host, port) => UrlChars(scheme, host, port);
  }

  lemma NetworkChars(b: Block)
    ensures var v := Render(NetworkTarget(b)); v != "" && LabelEnd(v[0]) && Only(v, TargetChar)
  {
    var a, p := RenderV4(First(b)), Decimal(if b.hostBits <= 32 then 32 - b.hostBits else 0);
    V4Chars(First(b));
    V4IsTarget(a);
    assert forall i | 0 <= i < |p| :: p[i] in p;
    OnlyJoined(a, "/" + p);
  }

  lemma UrlChars(scheme: Scheme, host: Host, port: nat)
    requires CanonicalHost(host) && 1 <= port <= 65535
    ensures var v := Render(UrlTarget(scheme, host, port)); LabelEnd(v[0]) && Only(v, TargetChar)
  {
    var netloc := HostText(host) + PortText(scheme, port);
    NetlocChars(scheme, host, port);
    NetlocIsTarget(netloc);
    UrlText(scheme, host, port);
    SchemeChars(scheme);
    OnlyJoined("://", netloc);
    OnlyJoined(SchemeText(scheme), "://" + netloc);
  }

  lemma SchemeChars(scheme: Scheme)
    ensures Only(SchemeText(scheme), TargetChar) && Only("://", TargetChar) && LabelEnd(SchemeText(scheme)[0])
  {
  }

  lemma UrlText(scheme: Scheme, host: Host, port: nat)
    ensures Render(UrlTarget(scheme, host, port))
         == SchemeText(scheme) + ("://" + (HostText(host) + PortText(scheme, port)))
  {
  }

  lemma NetlocIsTarget(s: string)
    requires Only(s, NetlocChar)
    ensures Only(s, TargetChar)
  {
    assert forall i | 0 <= i < |s| :: NetlocChar(s[i]);
  }

  lemma OnlyJoined(a: string, b: string)
    requires Only(a, TargetChar) && Only(b, TargetChar)
    ensures Only(a + b, TargetChar)
  {
    assert forall i | 0 <= i < |a| :: TargetChar(a[i]);
    assert forall i | 0 <= i < |b| :: TargetChar(b[i]);
  }

  lemma V4IsTarget(s: string)
    requires Only(s, V4Char)
    ensures Only(s, TargetChar)
  {
    assert forall i | 0 <= i < |s| :: V4Char(s[i]);
  }

  /** Every canonical text is safe to pass to a command, which is why checking it never fails. */
  lemma RenderIsSafe(t: Target)
    requires Canonical(t)
    ensures SafeToken(Render(t))
  {
    RenderChars(t);
    var v := Render(t);
    assert forall i | 0 <= i < |v| :: TargetChar(v[i]);
  }

  lemma RenderIsShort(t: Target)
    requires Canonical(t)
    ensures |Render(t)| <= MAX_TARGET_LENGTH
  {
    match t
    case AddressTarget(_, address) => V4IsShort(address);
    case NetworkTarget(b) =>
      V4IsShort(First(b));
      OctetOf(32 - b.hostBits);
    case _ =>
  }

  lemma V4IsShort(address: nat)
    ensures |RenderV4(address)| <= 15
  {
    var parts := Octets(address);
    OctetsRead(address);
    forall i | 0 <= i < |parts| ensures |parts[i]| <= 3 {
      assert parts[i] in parts;
    }
    JoinLength(parts, '.');
  }

  lemma {:induction false} JoinLength(parts: seq<string>, c: char)
    requires parts != [] && forall i | 0 <= i < |parts| :: |parts[i]| <= 3
    ensures |Join(parts, c)| < 4 * |parts|
  {
    if |parts| > 1 {
      JoinLength(parts[1..], c);
    }
  }

  lemma StripNothing(s: string)
    requires Only(s, TargetChar)
    ensures Strip(s) == s && Ascii(s) && forall c <- s :: !Forbidden(c)
  {
    assert forall i | 0 <= i < |s| :: TargetChar(s[i]);
  }

  lemma CleanText(s: string)
    requires s != "" && Only(s, TargetChar) && |s| <= MAX_TARGET_LENGTH
    ensures Normalize(s) == ReadText(s)
  {
    StripNothing(s);
  }

  lemma CanonicalIsRead(t: Target)
    requires Canonical(t)
    ensures ReadText(Render(t)) == Ok(t)
  {
    var v := Render(t);
    match t
    case AddressTarget(_, address) =>
      V4Chars(address);
      assert forall i | 0 <= i < |v| :: V4Char(v[i]);
      FindNothing(v, "://");
      V4ReadsBack(address);
    case NetworkTarget(b) =>
      NetworkHasNoColon(b);
      FindNothing(v, "://");
      NetworkReadsBack(b);
    case HostnameTarget(name) =>
      NameChars(name);
      assert forall i | 0 <= i < |v| :: NameChar(v[i]);
      FindNothing(v, "://");
      NameIsNoAddress(name);
      NameReadsBack(name);
    case UrlTarget(scheme, host, port) =>
      UrlReadsBack(scheme, host, port);
  }

  lemma NetworkHasNoColon(b: Block)
    requires Canonical(NetworkTarget(b))
    ensures ':' !in Render(NetworkTarget(b)) && '/' in Render(NetworkTarget(b))
  {
    var a, p := RenderV4(First(b)), Decimal(32 - b.hostBits);
    V4Chars(First(b));
    assert forall i | 0 <= i < |a| :: V4Char(a[i]);
    assert forall i | 0 <= i < |p| :: p[i] in p;
    assert (a + "/" + p)[|a|] == '/';
  }

  /** The canonical text of a target reads as that target. */
  lemma CanonicalReadsBack(t: Target)
    requires Canonical(t)
    ensures Normalize(Render(t)) == Ok(t)
  {
    RenderChars(t);
    RenderIsShort(t);
    CleanText(Render(t));
    CanonicalIsRead(t);
  }

  // ---- what reading ends in ---------------------------------------------------------

  lemma HostIsCanonical(name: string)
    requires ReadHost(name).Ok?
    ensures var host := ReadHost(name).value; CanonicalHost(host) && |HostText(host)| <= |name|
  {
    if ParseV4(name).Some? {
      V4HasOneText(name);
    }
  }

  lemma PortIsShort(scheme: Scheme, s: string)
    requires ReadPort(s).Some? && ReadPort(s).value.Some?
    ensures |PortText(scheme, ReadPort(s).value.value)| <= 1 + |s|
  {
    DecimalIsShortest(s);
  }

  lemma PlaceIsCanonical(scheme: Scheme, place: string)
    requires NormalizePlace(scheme, place).Ok?
    ensures var t := NormalizePlace(scheme, place).value;
            && t.UrlTarget? && t.scheme == scheme && CanonicalHost(t.host) && 1 <= t.port <= 65535
            && |HostText(t.host)| + |PortText(scheme, t.port)| <= |place|
  {
    var cut := IndexOf(place, {':'});
    var port := if cut < |place| then place[cut + 1..] else "";
    HostIsCanonical(FoldAll(place[..cut]));
    if ReadPort(port).value.Some? {
      PortIsShort(scheme, port);
    }
  }

  lemma UrlIsCanonical(text: string)
    requires |text| <= MAX_TARGET_LENGTH && NormalizeUrl(text).Ok?
    ensures Canonical(NormalizeUrl(text).value)
  {
    var colon := IndexOf(text, {':'});
    var scheme := ReadScheme(text[..colon]).value;
    var rest := text[colon + 1..];
    var netloc := rest[2..][..IndexOf(rest[2..], {'/', '?', '#'})];
    assert |SchemeText(scheme)| == |FoldAll(text[..colon])| == colon;
    PlaceIsCanonical(scheme, netloc[UserInfoEnd(netloc)..]);
  }

  /** Reading a network reads an address and a length, whatever is then made of them. */
  lemma NetworkIsRead(text: string, parse: string -> Option<nat>, around: (nat, nat) -> Normal)
    returns (part: string, address: nat, hostBits: nat)
    requires ReadNetwork(text, parse, around).Ok?
    ensures ReadNetwork(text, parse, around) == around(address, hostBits)
    ensures parse(part) == Some(address) && hostBits <= 32
  {
    var slash := IndexOf(text, {'/'});
    part := text[..slash];
    address, hostBits := parse(part).value, 32 - Value(text[slash + 1..]);
  }

  lemma AroundIsCanonical(address: nat, hostBits: nat, n: Normal)
    requires address < V4_SPACE && hostBits <= 32 && n == NetworkAround(address, hostBits) && n.Ok?
    ensures Canonical(n.value)
  {
    ContainsIsPrefix(Block(V4, Shift(address, hostBits), hostBits), address);
  }

  lemma NetworkIsCanonical(text: string)
    requires NormalizeNetwork(text).Ok?
    ensures Canonical(NormalizeNetwork(text).value)
  {
    var part, address, hostBits := NetworkIsRead(text, ParseV4, NetworkAround);
    V4HasOneText(part);
    AroundIsCanonical(address, hostBits, NormalizeNetwork(text));
  }

  /** Reading ends only in canonical targets. */
  lemma NormalizedIsCanonical(raw: string)
    requires Normalize(raw).Ok?
    ensures Canonical(Normalize(raw).value)
  {
    var text := Strip(raw);
    if Find(text, "://").Some? {
      UrlIsCanonical(text);
    } else if '/' in text {
      NetworkIsCanonical(text);
    } else if ParseV4(text).Some? {
      V4HasOneText(text);
    }
  }

  /** Normalizing what normalizing gave changes nothing, and different targets have different texts. */
  lemma NormalizationIsIdempotent(raw: string, other: string)
    requires Normalize(raw).Ok?
    ensures Normalize(Render(Normalize(raw).value)) == Normalize(raw)
    ensures SafeToken(Render(Normalize(raw).value))
    ensures Normalize(other).Ok? ==>
              (Render(Normalize(other).value) == Render(Normalize(raw).value) <==> Normalize(other) == Normalize(raw))
  {
    NormalizedIsCanonical(raw);
    CanonicalReadsBack(Normalize(raw).value);
    RenderIsSafe(Normalize(raw).value);
    if Normalize(other).Ok? {
      NormalizedIsCanonical(other);
      CanonicalReadsBack(Normalize(other).value);
    }
  }

  /** A text read as a name is never read as an address, in any of its spellings of parts. */
  lemma NamesAreNotAddresses(raw: string)
    requires Normalize(raw).Ok? && NameOf(Normalize(raw).value).Some?
    ensures var name := NameOf(Normalize(raw).value).value;
            && ParseV4(name).None? && ':' !in name
            && exists l <- SplitAt(name, '.') :: !AddressComponent(l)
    ensures Network(Normalize(raw).value).None?
  {
    NormalizedIsCanonical(raw);
    var name := NameOf(Normalize(raw).value).value;
    NameIsNoAddress(name);
    NameChars(name);
    assert forall i | 0 <= i < |name| :: NameChar(name[i]);
  }
}
