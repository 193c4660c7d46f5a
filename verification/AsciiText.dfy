/** ASCII text as the scanner and the target parser read it. */
module AsciiText {
  import opened Wrappers

  predicate IsSpace(c: char) {
    c == ' ' || '\t' <= c <= '\r' || 28 as char <= c <= 31 as char
  }

  function Fold(c: char): char {
    if 'A' <= c <= 'Z' then (c as int + 32) as char else c
  }

  function FoldAll(s: string): (r: string)
    ensures |r| == |s| && forall i | 0 <= i < |s| :: r[i] == Fold(s[i])
  {
    seq(|s|, i requires 0 <= i < |s| => Fold(s[i]))
  }

  predicate StartsWith(s: string, prefix: string) {
    |prefix| <= |s| && forall i | 0 <= i < |prefix| :: s[i] == prefix[i]
  }

  /** Where the pattern first occurs. */
  function Find(s: string, pattern: string): (at: Option<nat>)
    ensures at.Some? ==> at.value + |pattern| <= |s| && StartsWith(s[at.value..], pattern)
  {
    if StartsWith(s, pattern) then Some(0)
    else if s == "" then None
    else
      var rest := Find(s[1..], pattern);
      if rest.None? then None else Some(1 + rest.value)
  }

  /** The text without white space at either end. */
  function Strip(s: string): string {
    if s != "" && IsSpace(s[0]) then Strip(s[1..])
    else if s != "" && IsSpace(s[|s| - 1]) then Strip(s[..|s| - 1])
    else s
  }

  // ---- folding ---------------------------------------------------------------------

  lemma FoldSlice(s: string, i: nat, j: nat)
    requires i <= j <= |s|
    ensures FoldAll(s)[i..j] == FoldAll(s[i..j])
  {
  }

  lemma FoldTwice(s: string)
    ensures FoldAll(FoldAll(s)) == FoldAll(s)
  {
  }

  lemma {:induction false} StripFold(s: string)
    ensures Strip(FoldAll(s)) == FoldAll(Strip(s))
    decreases |s|
  {
    if s != "" && IsSpace(s[0]) {
      StripFold(s[1..]);
      FoldSlice(s, 1, |s|);
      assert FoldAll(s)[1..|s|] == FoldAll(s)[1..] && s[1..|s|] == s[1..];
    } else if s != "" && IsSpace(s[|s| - 1]) {
      StripFold(s[..|s| - 1]);
      FoldSlice(s, 0, |s| - 1);
      assert FoldAll(s)[0..|s| - 1] == FoldAll(s)[..|s| - 1] && s[0..|s| - 1] == s[..|s| - 1];
    }
  }

  // ---- cutting ----------------------------------------------------------------------

  /** The first position of a character of the set, or the length of the text. */
  function IndexOf(s: string, stops: set<char>): (i: nat)
    ensures i <= |s| && (forall k | 0 <= k < i :: s[k] !in stops) && (i < |s| ==> s[i] in stops)
  {
    if s == "" || s[0] in stops then 0 else 1 + IndexOf(s[1..], stops)
  }

  lemma IndexOfIs(s: string, stops: set<char>, i: nat)
    requires i <= |s| && (forall k | 0 <= k < i :: s[k] !in stops) && (i < |s| ==> s[i] in stops)
    ensures IndexOf(s, stops) == i
  {
  }

  function SplitAt(s: string, c: char): (parts: seq<string>)
    ensures parts != [] && forall p <- parts :: c !in p
    decreases |s|
  {
    var i := IndexOf(s, {c});
    if i == |s| then [s] else [s[..i]] + SplitAt(s[i + 1..], c)
  }

  function Join(parts: seq<string>, c: char): string
    requires parts != []
  {
    if |parts| == 1 then parts[0] else parts[0] + [c] + Join(parts[1..], c)
  }

  lemma {:induction false} JoinOfSplit(s: string, c: char)
    ensures Join(SplitAt(s, c), c) == s
    decreases |s|
  {
    var i := IndexOf(s, {c});
    if i < |s| {
      JoinOfSplit(s[i + 1..], c);
      JoinFirst(s[..i], SplitAt(s[i + 1..], c), c);
      CutAround(s, c, i);
    }
  }

  lemma JoinFirst(part: string, parts: seq<string>, c: char)
    requires parts != []
    ensures Join([part] + parts, c) == part + [c] + Join(parts, c)
  {
    assert ([part] + parts)[1..] == parts;
  }

  lemma CutAround(s: string, c: char, i: nat)
    requires i < |s| && s[i] == c
    ensures s[..i] + [c] + s[i + 1..] == s
  {
  }

  lemma {:induction false} SplitOfJoin(parts: seq<string>, c: char)
    requires parts != [] && forall p <- parts :: c !in p
    ensures SplitAt(Join(parts, c), c) == parts
  {
    assert parts[0] in parts;
    if |parts| == 1 {
      IndexOfIs(parts[0], {c}, |parts[0]|);
    } else {
      SplitOfJoin(parts[1..], c);
      FirstPart(parts[0], c, Join(parts[1..], c));
      assert parts == [parts[0]] + parts[1..];
    }
  }

  lemma FirstPart(part: string, c: char, rest: string)
    requires c !in part
    ensures SplitAt(part + [c] + rest, c) == [part] + SplitAt(rest, c)
  {
    var s := part + [c] + rest;
    IndexOfIs(s, {c}, |part|);
    assert s[..|part|] == part && s[|part| + 1..] == rest;
  }

  // ---- numbers ----------------------------------------------------------------------

  predicate IsDigit(c: char) { '0' <= c <= '9' }

  predicate AllDigits(s: string) {
    s != "" && forall c <- s :: IsDigit(c)
  }

  function Value(s: string): nat {
    if s == "" then 0
    else 10 * Value(s[..|s| - 1]) + (if IsDigit(s[|s| - 1]) then s[|s| - 1] as int - '0' as int else 0)
  }

  function Digit(n: nat): (c: char)
    requires n < 10
    ensures IsDigit(c) && c as int == '0' as int + n
  {
    (n + '0' as int) as char
  }

  function Decimal(n: nat): (s: string)
    ensures AllDigits(s)
  {
    if n < 10 then [Digit(n)] else Decimal(n / 10) + [Digit(n % 10)]
  }

  /** Written as numbers are: without leading zeros. */
  predicate Numeral(s: string) {
    AllDigits(s) && (|s| > 1 ==> s[0] != '0')
  }

  lemma {:induction false} ValueOfDecimal(n: nat)
    ensures Value(Decimal(n)) == n && Numeral(Decimal(n))
    ensures n > 0 ==> Decimal(n)[0] != '0'
  {
    var s := Decimal(n);
    if n >= 10 {
      ValueOfDecimal(n / 10);
      assert s[..|s| - 1] == Decimal(n / 10);
    } else {
      assert s[..0] == "" && Value("") == 0;
    }
  }

  lemma {:induction false} DecimalOfValue(s: string)
    requires Numeral(s)
    ensures Decimal(Value(s)) == s && (s[0] != '0' ==> Value(s) > 0)
  {
    var front, last := s[..|s| - 1], s[|s| - 1];
    assert last in s && s == front + [last];
    if front == "" {
      assert Value(s) == last as int - '0' as int;
    } else {
      assert forall c <- front :: c in s;
      DecimalOfValue(front);
      assert Value(s) / 10 == Value(front) && Value(s) % 10 == last as int - '0' as int;
    }
  }

  lemma {:induction false} DecimalIsShortest(s: string)
    requires AllDigits(s)
    ensures |Decimal(Value(s))| <= |s|
  {
    var front, last := s[..|s| - 1], s[|s| - 1];
    assert last in s && s == front + [last];
    if front != "" {
      assert forall c <- front :: c in s;
      DecimalIsShortest(front);
      assert Value(s) / 10 == Value(front);
    }
  }
}
