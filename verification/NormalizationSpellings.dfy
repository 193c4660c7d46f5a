/** Spellings that make no difference: letter case anywhere, and whatever follows an origin. */
module NormalizationSpellings {
  import opened Wrappers
  import opened AsciiText
  import opened Targets
  import opened Normalization
  import opened NormalizationLaws

  // ---- folding ----------------------------------------------------------------------

  predicate Caseless(stops: set<char>) {
    forall c <- stops :: !('a' <= c <= 'z') && !('A' <= c <= 'Z')
  }

  lemma IndexOfFold(s: string, stops: set<char>)
    requires Caseless(stops)
    ensures IndexOf(FoldAll(s), stops) == IndexOf(s, stops)
  {
    IndexOfIs(FoldAll(s), stops, IndexOf(s, stops));
  }

  lemma MemberFold(s: string, c: char)
    requires Caseless({c})
    ensures c in FoldAll(s) <==> c in s
  {
    assert c in {c};
    if c in FoldAll(s) {
      var i :| 0 <= i < |s| && FoldAll(s)[i] == c;
      assert s[i] == c;
    }
    if c in s {
      var i :| 0 <= i < |s| && s[i] == c;
      assert FoldAll(s)[i] == c;
    }
  }

  lemma {:induction false} FindFold(s: string)
    ensures Find(FoldAll(s), "://").Some? <==> Find(s, "://").Some?
  {
    StartsFold(s);
    if s != "" {
      FindFold(s[1..]);
      FoldSlice(s, 1, |s|);
      assert FoldAll(s)[1..|s|] == FoldAll(s)[1..] && s[1..|s|] == s[1..];
    }
  }

  lemma StartsFold(s: string)
    ensures StartsWith(FoldAll(s), "://") <==> StartsWith(s, "://")
    ensures StartsWith(FoldAll(s), "//") <==> StartsWith(s, "//")
  {
  }

  lemma UnfoldedOnly(s: string)
    requires Only(FoldAll(s), V4Char)
    ensures FoldAll(s) == s
  {
    assert forall i | 0 <= i < |s| :: V4Char(FoldAll(s)[i]) && FoldAll(s)[i] == Fold(s[i]) == s[i];
  }

  lemma FoldedOnly(s: string)
    requires Only(s, V4Char)
    ensures FoldAll(s) == s
  {
    assert forall i | 0 <= i < |s| :: V4Char(s[i]) && Fold(s[i]) == s[i];
  }

  lemma AddressFold(s: string)
    ensures ParseV4(FoldAll(s)) == ParseV4(s)
  {
    if ParseV4(FoldAll(s)).Some? {
      V4HasOneText(FoldAll(s));
      V4Chars(ParseV4(FoldAll(s)).value);
      UnfoldedOnly(s);
    } else if ParseV4(s).Some? {
      V4HasOneText(s);
      V4Chars(ParseV4(s).value);
      FoldedOnly(s);
    }
  }

  lemma DigitsFold(s: string)
    ensures AllDigits(FoldAll(s)) <==> AllDigits(s)
    ensures AllDigits(s) ==> FoldAll(s) == s
  {
    if AllDigits(s) {
      assert forall i | 0 <= i < |s| :: s[i] in s && V4Char(s[i]);
      FoldedOnly(s);
    }
    if AllDigits(FoldAll(s)) {
      assert forall i | 0 <= i < |s| :: FoldAll(s)[i] in FoldAll(s) && V4Char(FoldAll(s)[i]);
      UnfoldedOnly(s);
    }
  }

  lemma {:induction false} DotsFold(s: string)
    ensures WithoutTrailingDots(FoldAll(s)) == FoldAll(WithoutTrailingDots(s))
    decreases |s|
  {
    if s != "" && s[|s| - 1] == '.' {
      DotsFold(s[..|s| - 1]);
      FoldSlice(s, 0, |s| - 1);
      assert FoldAll(s)[0..|s| - 1] == FoldAll(s)[..|s| - 1] && s[0..|s| - 1] == s[..|s| - 1];
    }
  }

  lemma NameFold(s: string)
    ensures NormalizeName(FoldAll(s)) == NormalizeName(s)
  {
    DotsFold(s);
    FoldTwice(WithoutTrailingDots(s));
  }

  lemma {:induction false} UserInfoFold(s: string)
    ensures UserInfoEnd(FoldAll(s)) == UserInfoEnd(s)
    decreases |s|
  {
    if s != "" && s[|s| - 1] != '@' {
      UserInfoFold(s[..|s| - 1]);
      FoldFront(s);
    }
  }

  lemma FoldFront(s: string)
    requires s != ""
    ensures FoldAll(s)[..|s| - 1] == FoldAll(s[..|s| - 1]) && FoldAll(s)[|s| - 1] == Fold(s[|s| - 1])
  {
  }

  lemma PortFold(s: string)
    ensures ReadPort(FoldAll(s)) == ReadPort(s)
  {
    DigitsFold(s);
  }

  /** A text cut at a character that is no letter: both halves fold alone. */
  lemma CutFold(s: string, stops: set<char>)
    requires Caseless(stops)
    ensures var cut := IndexOf(s, stops);
            && IndexOf(FoldAll(s), stops) == cut && FoldAll(s)[..cut] == FoldAll(s[..cut])
            && (cut < |s| ==> FoldAll(s)[cut + 1..] == FoldAll(s[cut + 1..]))
  {
    var cut := IndexOf(s, stops);
    IndexOfFold(s, stops);
    FoldSlice(s, 0, cut);
    assert FoldAll(s)[0..cut] == FoldAll(s)[..cut] && s[0..cut] == s[..cut];
    if cut < |s| {
      FoldSlice(s, cut + 1, |s|);
      assert FoldAll(s)[cut + 1..|s|] == FoldAll(s)[cut + 1..] && s[cut + 1..|s|] == s[cut + 1..];
    }
  }

  /** What decides how a place is read: its host, folded, and its port as read. */
  lemma PlaceIs(scheme: Scheme, place: string, cut: nat, host: string, port: Option<Option<nat>>)
    requires cut == IndexOf(place, {':'}) && host == FoldAll(place[..cut])
    requires port == ReadPort(if cut < |place| then place[cut + 1..] else "")
    ensures NormalizePlace(scheme, place) == OriginOf(scheme, host, port)
  {
  }

  lemma PlaceFold(scheme: Scheme, place: string)
    ensures NormalizePlace(scheme, FoldAll(place)) == NormalizePlace(scheme, place)
  {
    var cut := IndexOf(place, {':'});
    var port := ReadPort(if cut < |place| then place[cut + 1..] else "");
    var host := FoldAll(place[..cut]);
    CutFold(place, {':'});
    FoldTwice(place[..cut]);
    if cut < |place| {
      PortFold(place[cut + 1..]);
    }
    PlaceIs(scheme, place, cut, host, port);
    PlaceIs(scheme, FoldAll(place), cut, host, port);
  }

  lemma ShortFold(s: string)
    ensures FoldAll(s) in {"", ":"} <==> s in {"", ":"}
  {
    if FoldAll(s) == ":" {
      assert FoldAll(s)[0] == ':';
      assert s == [s[0]];
    }
    if s == ":" {
      assert FoldAll(s) == ":";
    }
  }

  lemma NetlocFold(scheme: Scheme, netloc: string)
    ensures NormalizeNetloc(scheme, FoldAll(netloc)) == NormalizeNetloc(scheme, netloc)
  {
    var start := UserInfoEnd(netloc);
    UserInfoFold(netloc);
    MemberFold(netloc, '[');
    MemberFold(netloc, ']');
    FoldSlice(netloc, start, |netloc|);
    assert FoldAll(netloc)[start..|netloc|] == FoldAll(netloc)[start..] && netloc[start..|netloc|] == netloc[start..];
    PlaceFold(scheme, netloc[start..]);
    if start > 0 {
      FoldSlice(netloc, 0, start - 1);
      assert FoldAll(netloc)[0..start - 1] == FoldAll(netloc)[..start - 1];
      assert netloc[0..start - 1] == netloc[..start - 1];
      ShortFold(netloc[..start - 1]);
    }
  }

  lemma SchemeFold(s: string)
    ensures ReadScheme(FoldAll(s)) == ReadScheme(s)
  {
    FoldTwice(s);
  }

  lemma UrlFold(text: string)
    ensures NormalizeUrl(FoldAll(text)) == NormalizeUrl(text)
  {
    var colon := IndexOf(text, {':'});
    CutFold(text, {':'});
    SchemeFold(text[..colon]);
    if colon < |text| {
      var rest := text[colon + 1..];
      StartsFold(rest);
      if StartsWith(rest, "//") && ReadScheme(text[..colon]).Some? {
        AuthorityFold(ReadScheme(text[..colon]).value, rest);
      }
    }
  }

  lemma AuthorityFold(scheme: Scheme, rest: string)
    requires |rest| >= 2
    ensures var netloc := rest[2..][..IndexOf(rest[2..], {'/', '?', '#'})];
            var folded := FoldAll(rest)[2..][..IndexOf(FoldAll(rest)[2..], {'/', '?', '#'})];
            NormalizeNetloc(scheme, folded) == NormalizeNetloc(scheme, netloc)
  {
    FoldSlice(rest, 2, |rest|);
    assert FoldAll(rest)[2..|rest|] == FoldAll(rest)[2..] && rest[2..|rest|] == rest[2..];
    CutFold(rest[2..], {'/', '?', '#'});
    NetlocFold(scheme, rest[2..][..IndexOf(rest[2..], {'/', '?', '#'})]);
  }

  lemma PrefixFold(address: Option<nat>, colon: bool, prefix: string, around: (nat, nat) -> Normal)
    ensures NetworkFrom(address, colon, FoldAll(prefix), around) == NetworkFrom(address, colon, prefix, around)
  {
    DigitsFold(prefix);
  }

  lemma NetworkFold(text: string, parse: string -> Option<nat>, around: (nat, nat) -> Normal)
    requires var part := text[..IndexOf(text, {'/'})]; parse(FoldAll(part)) == parse(part)
    ensures ReadNetwork(FoldAll(text), parse, around) == ReadNetwork(text, parse, around)
  {
    var slash := IndexOf(text, {'/'});
    CutFold(text, {'/'});
    MemberFold(text[..slash], ':');
    if slash < |text| {
      PrefixFold(parse(text[..slash]), ':' in text[..slash], text[slash + 1..], around);
    }
  }

  lemma TextFold(text: string)
    ensures ReadText(FoldAll(text)) == ReadText(text)
  {
    FindFold(text);
    MemberFold(text, '/');
    MemberFold(text, ':');
    UrlFold(text);
    AddressFold(text);
    AddressFold(text[..IndexOf(text, {'/'})]);
    NetworkFold(text, ParseV4, NetworkAround);
    NameFold(text);
  }

  lemma CleanFold(s: string)
    ensures Ascii(FoldAll(s)) <==> Ascii(s)
    ensures Ascii(s) ==> ((exists c <- FoldAll(s) :: Forbidden(c)) <==> exists c <- s :: Forbidden(c))
  {
    forall i | 0 <= i < |s| ensures (FoldAll(s)[i] < 128 as char <==> s[i] < 128 as char)
                                    && (Forbidden(FoldAll(s)[i]) <==> Forbidden(s[i])) {
    }
    if Ascii(s) {
      forall c | c in FoldAll(s) ensures c < 128 as char {
        var i :| 0 <= i < |s| && FoldAll(s)[i] == c;
        assert s[i] in s;
      }
    }
    if Ascii(FoldAll(s)) {
      forall c | c in s ensures c < 128 as char {
        var i :| 0 <= i < |s| && s[i] == c;
        assert FoldAll(s)[i] in FoldAll(s);
      }
    }
    ForbiddenFold(s);
  }

  lemma ForbiddenFold(s: string)
    ensures (exists c <- FoldAll(s) :: Forbidden(c)) <==> exists c <- s :: Forbidden(c)
  {
    if c :| c in FoldAll(s) && Forbidden(c) {
      var i :| 0 <= i < |s| && FoldAll(s)[i] == c;
      assert s[i] in s && Forbidden(s[i]);
    }
    if c :| c in s && Forbidden(c) {
      var i :| 0 <= i < |s| && s[i] == c;
      assert FoldAll(s)[i] in FoldAll(s) && Forbidden(FoldAll(s)[i]);
    }
  }

  /** The case of letters never matters to what a text is read as. */
  lemma CaseNeverMatters(raw: string)
    ensures Normalize(FoldAll(raw)) == Normalize(raw)
  {
    StripFold(raw);
    CleanFold(Strip(raw));
    TextFold(Strip(raw));
  }

  // ---- after the origin -------------------------------------------------------------

  lemma UrlDropsTail(scheme: Scheme, netloc: string, tail: string)
    requires Only(netloc, NetlocChar) && (tail == "" || tail[0] in {'/', '?', '#'})
    ensures NormalizeUrl(SchemeText(scheme) + ("://" + (netloc + tail))) == NormalizeNetloc(scheme, netloc)
  {
    UrlSplits(scheme, netloc + tail);
    TailIsCut(netloc, tail);
    UrlIs(SchemeText(scheme) + ("://" + (netloc + tail)), scheme, netloc + tail, netloc);
  }

  lemma UrlIs(text: string, scheme: Scheme, authority: string, netloc: string)
    requires IndexOf(text, {':'}) < |text| && ReadScheme(text[..IndexOf(text, {':'})]) == Some(scheme)
    requires StartsWith(text[IndexOf(text, {':'}) + 1..], "//")
    requires text[IndexOf(text, {':'}) + 1..][2..] == authority
    requires netloc == authority[..IndexOf(authority, {'/', '?', '#'})]
    ensures NormalizeUrl(text) == NormalizeNetloc(scheme, netloc)
  {
  }

  lemma TailIsCut(netloc: string, tail: string)
    requires Only(netloc, NetlocChar) && (tail == "" || tail[0] in {'/', '?', '#'})
    ensures (netloc + tail)[..IndexOf(netloc + tail, {'/', '?', '#'})] == netloc
  {
    assert forall i | 0 <= i < |netloc| :: NetlocChar(netloc[i]);
    IndexOfIs(netloc + tail, {'/', '?', '#'}, |netloc|);
  }

  lemma OriginWithTailReads(scheme: Scheme, host: Host, port: nat, tail: string)
    requires CanonicalHost(host) && 1 <= port <= 65535 && (tail == "" || tail[0] in {'/', '?', '#'})
    ensures ReadText(Render(UrlTarget(scheme, host, port)) + tail) == Ok(UrlTarget(scheme, host, port))
  {
    var netloc := HostText(host) + PortText(scheme, port);
    UrlText(scheme, host, port);
    TextWithTail(SchemeText(scheme), netloc, tail);
    NetlocChars(scheme, host, port);
    NetlocWithTailReads(scheme, netloc, tail);
    NetlocIsClean(netloc);
    NetlocIsPlace(scheme, netloc);
    OriginReadsBack(scheme, host, port);
  }

  lemma TextWithTail(s: string, netloc: string, tail: string)
    ensures s + ("://" + netloc) + tail == s + ("://" + (netloc + tail))
  {
  }

  lemma NetlocWithTailReads(scheme: Scheme, netloc: string, tail: string)
    requires Only(netloc, NetlocChar) && (tail == "" || tail[0] in {'/', '?', '#'})
    ensures ReadText(SchemeText(scheme) + ("://" + (netloc + tail))) == NormalizeNetloc(scheme, netloc)
  {
    UrlDropsTail(scheme, netloc, tail);
    UrlSplits(scheme, netloc + tail);
  }

  lemma CleanReads(text: string)
    requires text != "" && Strip(text) == text && Ascii(text) && |text| <= MAX_TARGET_LENGTH
    requires forall c <- text :: !Forbidden(c)
    ensures Normalize(text) == ReadText(text)
  {
  }

  /** A path, query or fragment behind an origin changes nothing, as far as the text may be read. */
  lemma OriginDropsRest(t: Target, tail: string)
    requires Canonical(t) && t.UrlTarget? && (tail == "" || tail[0] in {'/', '?', '#'})
    requires Ascii(tail) && |Render(t) + tail| <= MAX_TARGET_LENGTH && forall c <- tail :: !Forbidden(c)
    ensures Normalize(Render(t) + tail) == Ok(t)
  {
    OriginWithTailReads(t.scheme, t.host, t.port, tail);
    RenderChars(t);
    TailIsClean(Render(t), tail);
    CleanReads(Render(t) + tail);
  }

  lemma TailIsClean(v: string, tail: string)
    requires v != "" && Only(v, TargetChar) && Ascii(tail) && forall c <- tail :: !Forbidden(c)
    ensures Strip(v + tail) == v + tail && Ascii(v + tail) && forall c <- v + tail :: !Forbidden(c)
  {
    var text := v + tail;
    assert forall i | 0 <= i < |v| :: TargetChar(v[i]);
    forall i | 0 <= i < |text| ensures text[i] < 128 as char && !Forbidden(text[i]) {
      if i >= |v| {
        assert text[i] == tail[i - |v|] && tail[i - |v|] in tail;
      }
    }
    assert !IsSpace(text[0]) && !IsSpace(text[|text| - 1]);
  }
}
