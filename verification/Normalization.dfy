/**
 * Reading a target: addresses, networks, names and HTTP origins (section 6.2 of RFC 6454,
 * section 2.1 of RFC 1123), and the canonical text of each.
 *
 * Only ASCII texts and IPv4 are read; a text that could only be IPv6 is `Unmodelled`.
 */
module Normalization {
  import opened Wrappers
  import opened AsciiText
  import opened AddressBlocks
  import opened Targets

  datatype TargetError =
    | EmptyText | TooLong | ForbiddenCharacter
    | BadUrl | BadNetwork | BadAddress | BadHostname
    | Unmodelled

  type Normal = Result<Target, TargetError>

  const MAX_TARGET_LENGTH := 255
  const MAX_HOSTNAME_LENGTH := 253

  // ---- addresses --------------------------------------------------------------------

  const V4_SPACE: nat := 0x1_0000_0000

  /** One to three digits without a leading zero, at most 255. */
  predicate Octet(s: string) { Numeral(s) && |s| <= 3 && Value(s) <= 255 }

  function ParseV4(s: string): Option<nat> {
    var parts := SplitAt(s, '.');
    if |parts| == 4 && forall p <- parts :: Octet(p) then
      Some(((Value(parts[0]) * 256 + Value(parts[1])) * 256 + Value(parts[2])) * 256 + Value(parts[3]))
    else None
  }

  function Octets(address: nat): (parts: seq<string>) {
    [Decimal(address / 0x100_0000 % 256), Decimal(address / 0x1_0000 % 256),
     Decimal(address / 0x100 % 256), Decimal(address % 256)]
  }

  function RenderV4(address: nat): string { Join(Octets(address), '.') }

  predicate Multicast(address: nat) { address / 0x1000_0000 == 14 }

  predicate Usable(address: nat) { address != 0 && !Multicast(address) }

  // ---- names ------------------------------------------------------------------------

  predicate LabelEnd(c: char) { 'a' <= c <= 'z' || IsDigit(c) }

  predicate Label(s: string) {
    && 1 <= |s| <= 63 && LabelEnd(s[0]) && LabelEnd(s[|s| - 1])
    && forall c <- s :: LabelEnd(c) || c == '-'
  }

  /** A number as the C resolver reads one inside an address. */
  predicate AddressComponent(s: string) {
    || AllDigits(s)
    || (|s| > 2 && StartsWith(s, "0x") && forall c <- s[2..] :: IsDigit(c) || 'a' <= c <= 'f')
  }

  predicate CanonicalName(name: string) {
    var labels := SplitAt(name, '.');
    && |name| <= MAX_HOSTNAME_LENGTH && (forall l <- labels :: Label(l))
    && !AllDigits(labels[|labels| - 1])
    && exists l <- labels :: !AddressComponent(l)
  }

  function WithoutTrailingDots(s: string): (r: string)
    ensures |r| <= |s|
  {
    if s != "" && s[|s| - 1] == '.' then WithoutTrailingDots(s[..|s| - 1]) else s
  }

  function NormalizeName(text: string): Result<string, TargetError> {
    var name := FoldAll(WithoutTrailingDots(text));
    if CanonicalName(name) then Ok(name) else Err(BadHostname)
  }

  // ---- networks ---------------------------------------------------------------------

  predicate NetworkOk(b: Block) {
    First(b) != 0 && !(Multicast(First(b)) && Multicast(Last(b)))
  }

  /** The network that holds an address, its host bits cleared. */
  function NetworkAround(address: nat, hostBits: nat): Normal {
    var b := Block(V4, Shift(address, hostBits), hostBits);
    if NetworkOk(b) then Ok(NetworkTarget(b)) else Err(BadNetwork)
  }

  function NetworkFrom(address: Option<nat>, colon: bool, prefix: string, around: (nat, nat) -> Normal): Normal {
    if !AllDigits(prefix) || |prefix| > 3 then Err(BadNetwork)
    else if address.None? then Err(if colon then Unmodelled else BadNetwork)
    else if Value(prefix) > 32 then Err(BadNetwork)
    else around(address.value, 32 - Value(prefix))
  }

  /** An address text, a slash and a prefix length, read by the given parser. */
  function ReadNetwork(text: string, parse: string -> Option<nat>, around: (nat, nat) -> Normal): Normal {
    var slash := IndexOf(text, {'/'});
    NetworkFrom(parse(text[..slash]), ':' in text[..slash],
                if slash < |text| then text[slash + 1..] else "", around)
  }

  function NormalizeNetwork(text: string): Normal {
    ReadNetwork(text, ParseV4, NetworkAround)
  }

  // ---- origins ----------------------------------------------------------------------

  function SchemeText(scheme: Scheme): string { if scheme.Http? then "http" else "https" }

  function DefaultPort(scheme: Scheme): nat { if scheme.Http? then 80 else 443 }

  function ReadScheme(s: string): Option<Scheme> {
    if FoldAll(s) == "http" then Some(Http) else if FoldAll(s) == "https" then Some(Https) else None
  }

  /** An absent port, a port, or nothing if the text is not one. */
  function ReadPort(s: string): Option<Option<nat>> {
    if s == "" then Some(None)
    else if AllDigits(s) && 1 <= Value(s) <= 65535 then Some(Some(Value(s)))
    else None
  }

  function ReadHost(name: string): Result<Host, TargetError> {
    var address := ParseV4(name);
    if address.Some? then
      if Usable(address.value) then Ok(Literal(V4, address.value)) else Err(BadAddress)
    else
      var host := NormalizeName(name);
      if host.Err? then Err(host.error) else Ok(Name(host.value))
  }

  /** The position after the last `@`, or 0. */
  function UserInfoEnd(s: string): (i: nat)
    ensures i <= |s| && (i > 0 ==> s[i - 1] == '@') && (i == 0 <==> '@' !in s)
  {
    if s == "" then 0
    else if s[|s| - 1] == '@' then
      assert s[|s| - 1] in s;
      |s|
    else
      var i := UserInfoEnd(s[..|s| - 1]);
      assert s == s[..|s| - 1] + [s[|s| - 1]];
      i
  }

  function OriginOf(scheme: Scheme, host: string, port: Option<Option<nat>>): Normal {
    if port.None? || host == "" then Err(BadUrl)
    else
      var read := ReadHost(host);
      if read.Err? then Err(read.error)
      else Ok(UrlTarget(scheme, read.value, if port.value.Some? then port.value.value else DefaultPort(scheme)))
  }

  function NormalizePlace(scheme: Scheme, place: string): Normal {
    var cut := IndexOf(place, {':'});
    OriginOf(scheme, FoldAll(place[..cut]), ReadPort(if cut < |place| then place[cut + 1..] else ""))
  }

  function NormalizeNetloc(scheme: Scheme, netloc: string): Normal {
    var start := UserInfoEnd(netloc);
    if '[' in netloc || ']' in netloc then Err(Unmodelled)
    else if start > 0 && netloc[..start - 1] !in {"", ":"} then Err(BadUrl)
    else NormalizePlace(scheme, netloc[start..])
  }

  function NormalizeUrl(text: string): Normal {
    var colon := IndexOf(text, {':'});
    var scheme := ReadScheme(text[..colon]);
    var rest := if colon < |text| then text[colon + 1..] else "";
    if scheme.None? || !StartsWith(rest, "//") then Err(BadUrl)
    else
      NormalizeNetloc(scheme.value, rest[2..][..IndexOf(rest[2..], {'/', '?', '#'})])
  }

  // ---- targets ----------------------------------------------------------------------

  predicate Forbidden(c: char) { IsSpace(c) || c < ' ' || c == 127 as char }

  predicate Ascii(s: string) { forall c <- s :: c < 128 as char }

  /** What a text without white space is read as. */
  function ReadText(text: string): Normal {
    if Find(text, "://").Some? then NormalizeUrl(text)
    else if '/' in text then NormalizeNetwork(text)
    else
      var address := ParseV4(text);
      if address.Some? then
        if Usable(address.value) then Ok(AddressTarget(V4, address.value)) else Err(BadAddress)
      else if ':' in text then Err(Unmodelled)
      else
        var name := NormalizeName(text);
        if name.Err? then Err(name.error) else Ok(HostnameTarget(name.value))
  }

  function Normalize(raw: string): Normal {
    var text := Strip(raw);
    if text == "" then Err(EmptyText)
    else if !Ascii(text) then Err(Unmodelled)
    else if |text| > MAX_TARGET_LENGTH then Err(TooLong)
    else if exists c <- text :: Forbidden(c) then Err(ForbiddenCharacter)
    else ReadText(text)
  }

  function HostText(host: Host): string {
    match host
    case Literal(_, address) => RenderV4(address)
    case Name(name) => name
  }

  function PortText(scheme: Scheme, port: nat): string {
    if port == DefaultPort(scheme) then "" else ":" + Decimal(port)
  }

  /** The canonical text of a target, which is what a scope entry stores. */
  function Render(t: Target): string {
    match t
    case AddressTarget(_, address) => RenderV4(address)
    case NetworkTarget(b) => RenderV4(First(b)) + "/" + Decimal(if b.hostBits <= 32 then 32 - b.hostBits else 0)
    case HostnameTarget(name) => name
    case UrlTarget(scheme, host, port) => SchemeText(scheme) + "://" + HostText(host) + PortText(scheme, port)
  }

  predicate CanonicalHost(host: Host) {
    match host
    case Literal(version, address) => version == V4 && address < V4_SPACE && Usable(address)
    case Name(name) => CanonicalName(name)
  }

  /** The targets that reading can end in. */
  predicate Canonical(t: Target) {
    match t
    case AddressTarget(version, address) => version == V4 && address < V4_SPACE && Usable(address)
    case NetworkTarget(b) => b.version == V4 && b.hostBits <= 32 && First(b) < V4_SPACE && NetworkOk(b)
    case HostnameTarget(name) => CanonicalName(name)
    case UrlTarget(_, host, port) => CanonicalHost(host) && 1 <= port <= 65535 && |Render(t)| <= MAX_TARGET_LENGTH
  }

  predicate SafeStart(c: char) { 'a' <= c <= 'z' || 'A' <= c <= 'Z' || IsDigit(c) }

  /** A text no command line takes for an option or for shell syntax. */
  predicate SafeToken(s: string) {
    s != "" && SafeStart(s[0]) && forall c <- s :: SafeStart(c) || c in {'.', '_', ':', '/', '-'}
  }
}
