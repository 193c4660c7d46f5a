/**
 * Canonical SQL: the tokens of an ASCII fragment, and their printed form.
 *
 * Printing puts one space between tokens. The main result is that reading the printed
 * form gives the same tokens back, so two fragments have one canonical form exactly when
 * they have the same tokens.
 */
module SqlTokens {
  import opened Wrappers
  import opened AsciiText

  datatype ScanError = UnterminatedQuote | UnterminatedComment

  type Scan<T> = Result<T, ScanError>

  // ---- characters -----------------------------------------------------------------

  predicate IsWord(c: char) {
    'a' <= c <= 'z' || 'A' <= c <= 'Z' || '0' <= c <= '9' || c == '_' || c == '$'
  }

  predicate IsQuote(c: char) { c == '\'' || c == '"' || c == '`' || c == '[' }

  function Closing(opening: char): char { if opening == '[' then ']' else opening }

  // ---- units ----------------------------------------------------------------------

  /** How many characters after the opening quote the quoted text goes on; a doubled
      closing character stays inside. */
  function QuotedLength(s: string, closing: char): (n: Option<nat>)
    ensures n.Some? ==> 1 <= n.value <= |s| && s[n.value - 1] == closing
  {
    if s == "" then None
    else if s[0] != closing then
      var rest := QuotedLength(s[1..], closing);
      if rest.None? then None else Some(1 + rest.value)
    else if |s| > 1 && s[1] == closing then
      var rest := QuotedLength(s[2..], closing);
      if rest.None? then None else Some(2 + rest.value)
    else Some(1)
  }

  /** The length of a comment at the start of the text, 0 if there is none. */
  function CommentLength(s: string): (n: Scan<nat>)
    ensures n.Ok? ==> n.value <= |s|
    ensures n == Ok(0) <==> !StartsWith(s, "--") && !StartsWith(s, "/*")
  {
    if StartsWith(s, "--") then
      var newline := Find(s[2..], "\n");
      Ok(if newline.None? then |s| else 2 + newline.value + 1)
    else if StartsWith(s, "/*") then
      var end := Find(s[2..], "*/");
      if end.None? then Err(UnterminatedComment) else Ok(2 + end.value + 2)
    else Ok(0)
  }

  function WordLength(s: string): (n: nat)
    ensures n <= |s| && (forall i | 0 <= i < n :: IsWord(s[i])) && (n < |s| ==> !IsWord(s[n]))
  {
    if s == "" || !IsWord(s[0]) then 0 else 1 + WordLength(s[1..])
  }

  const OPERATORS: seq<string> := ["->>", "<=", ">=", "<>", "!=", "||", "->"]

  function OperatorLength(s: string): (n: nat)
    ensures n <= |s|
  {
    if StartsWith(s, "->>") then 3
    else if StartsWith(s, "<=") || StartsWith(s, ">=") || StartsWith(s, "<>")
            || StartsWith(s, "!=") || StartsWith(s, "||") || StartsWith(s, "->") then 2
    else 0
  }

  // ---- tokens ---------------------------------------------------------------------

  function Cons(token: string, rest: Scan<seq<string>>): Scan<seq<string>> {
    if rest.Err? then rest else Ok([token] + rest.value)
  }

  /** How a text starts: a stretch without a token, a token, or a scan error. */
  datatype Head = Gap(length: Positive) | Word(length: Positive, token: string) | Broken(error: ScanError)

  type Positive = n: nat | n > 0 witness 1

  function HeadOf(s: string): (h: Head)
    requires s != ""
    ensures !h.Broken? ==> 1 <= h.length <= |s|
  {
    var comment := CommentLength(s);
    if comment.Err? then Broken(comment.error)
    else if comment.value > 0 then Gap(comment.value)
    else if IsQuote(s[0]) then
      var quoted := QuotedLength(s[1..], Closing(s[0]));
      if quoted.None? then Broken(UnterminatedQuote)
      else Word(1 + quoted.value, s[..1 + quoted.value])
    else if IsSpace(s[0]) then Gap(1)
    else if IsWord(s[0]) then Word(WordLength(s), FoldAll(s[..WordLength(s)]))
    else if OperatorLength(s) > 0 then Word(OperatorLength(s), s[..OperatorLength(s)])
    else Word(1, s[..1])
  }

  function Tokens(s: string): Scan<seq<string>>
    decreases |s|
  {
    if s == "" then Ok([])
    else
      match HeadOf(s)
      case Gap(length) => Tokens(s[length..])
      case Word(length, token) => Cons(token, Tokens(s[length..]))
      case Broken(error) => Err(error)
  }

  /** The printed form. */
  function Print(tokens: seq<string>): string {
    if tokens == [] then ""
    else if |tokens| == 1 then tokens[0]
    else tokens[0] + " " + Print(tokens[1..])
  }

  function Canonical(s: string): Scan<string> {
    var tokens := Tokens(Strip(s));
    if tokens.Err? then Err(tokens.error) else Ok(Print(tokens.value))
  }

  // ---- what a token is ------------------------------------------------------------

  predicate QuotedToken(t: string) {
    |t| >= 2 && IsQuote(t[0]) && QuotedLength(t[1..], Closing(t[0])) == Some(|t| - 1)
  }

  predicate WordToken(t: string) {
    t != "" && forall i | 0 <= i < |t| :: IsWord(t[i]) && Fold(t[i]) == t[i]
  }

  predicate SymbolToken(t: string) {
    |t| == 1 && !IsSpace(t[0]) && !IsQuote(t[0]) && !IsWord(t[0])
  }

  predicate IsToken(t: string) {
    QuotedToken(t) || WordToken(t) || t in OPERATORS || SymbolToken(t)
  }

  predicate AllTokens(ts: seq<string>) {
    forall i | 0 <= i < |ts| :: IsToken(ts[i])
  }

  /** Quoted text is recognised by itself whatever follows, unless that doubles its end. */
  lemma {:induction false} QuotedIsLocal(body: string, tail: string, closing: char)
    requires tail == "" || tail[0] != closing
    ensures QuotedLength(body, closing).Some? ==>
              QuotedLength(body + tail, closing) == QuotedLength(body, closing)
    decreases |body|
  {
    if body == "" {
    } else if body[0] != closing {
      QuotedIsLocal(body[1..], tail, closing);
      assert (body + tail)[1..] == body[1..] + tail;
    } else if |body| > 1 && body[1] == closing {
      QuotedIsLocal(body[2..], tail, closing);
      assert (body + tail)[2..] == body[2..] + tail;
    }
  }

  /** The quoted prefix that scanning cuts off is quoted text on its own. */
  lemma {:induction false} QuotedPrefix(s: string, closing: char)
    ensures QuotedLength(s, closing).Some? ==>
              var n := QuotedLength(s, closing).value; QuotedLength(s[..n], closing) == Some(n)
    decreases |s|
  {
    if s != "" && QuotedLength(s, closing).Some? {
      var n := QuotedLength(s, closing).value;
      if s[0] != closing {
        QuotedPrefix(s[1..], closing);
        assert s[..n][1..] == s[1..][..n - 1];
      } else if |s| > 1 && s[1] == closing {
        QuotedPrefix(s[2..], closing);
        assert s[..n][2..] == s[2..][..n - 2];
      }
    }
  }

  lemma OperatorPrefix(s: string)
    ensures OperatorLength(s) > 0 ==> s[..OperatorLength(s)] in OPERATORS
  {
    if StartsWith(s, "->>") {
      assert s[..3] == OPERATORS[0];
    } else if OperatorLength(s) > 0 {
      var t := s[..2];
      assert t == "<=" || t == ">=" || t == "<>" || t == "!=" || t == "||" || t == "->";
      assert t == OPERATORS[1] || t == OPERATORS[2] || t == OPERATORS[3] || t == OPERATORS[4]
          || t == OPERATORS[5] || t == OPERATORS[6];
    }
  }

  lemma HeadIsToken(s: string)
    requires s != ""
    ensures HeadOf(s).Word? ==> IsToken(HeadOf(s).token)
  {
    if HeadOf(s).Word? {
      if IsQuote(s[0]) {
        var n := QuotedLength(s[1..], Closing(s[0])).value;
        QuotedPrefix(s[1..], Closing(s[0]));
        assert s[..1 + n][1..] == s[1..][..n];
        assert QuotedToken(s[..1 + n]);
      } else if IsWord(s[0]) {
        assert WordToken(FoldAll(s[..WordLength(s)]));
      } else if OperatorLength(s) > 0 {
        OperatorPrefix(s);
      } else {
        assert SymbolToken(s[..1]);
      }
    }
  }

  /** Scanning produces tokens only. */
  lemma {:induction false} TokensAreTokens(s: string)
    ensures Tokens(s).Ok? ==> AllTokens(Tokens(s).value)
    decreases |s|
  {
    if s != "" && !HeadOf(s).Broken? {
      HeadIsToken(s);
      TokensAreTokens(s[HeadOf(s).length..]);
    }
  }

  lemma NoCommentBefore(t: string, tail: string)
    requires IsToken(t) && (tail == "" || tail[0] == ' ')
    ensures CommentLength(t + tail) == Ok(0)
  {
    var s := t + tail;
    assert s[0] == t[0];
    assert |s| >= 2 ==> s[1] == if |t| > 1 then t[1] else ' ';
    assert !StartsWith(s, "--") && !StartsWith(s, "/*");
  }

  lemma ReadsQuoted(t: string, tail: string)
    requires QuotedToken(t) && (tail == "" || tail[0] == ' ')
    ensures Tokens(t + tail) == Cons(t, Tokens(tail))
  {
    var s := t + tail;
    NoCommentBefore(t, tail);
    QuotedIsLocal(t[1..], tail, Closing(t[0]));
    assert s[1..] == t[1..] + tail && s[..|t|] == t && s[|t|..] == tail;
  }

  lemma WordLengthIs(s: string, n: nat)
    requires n <= |s| && (forall i | 0 <= i < n :: IsWord(s[i])) && (n < |s| ==> !IsWord(s[n]))
    ensures WordLength(s) == n
  {
  }

  lemma ReadsWord(t: string, tail: string)
    requires WordToken(t) && (tail == "" || tail[0] == ' ')
    ensures Tokens(t + tail) == Cons(t, Tokens(tail))
  {
    var s := t + tail;
    NoCommentBefore(t, tail);
    WordLengthIs(t + tail, |t|);
    assert FoldAll(t) == t;
    assert s[..|t|] == t && s[|t|..] == tail && s[0] == t[0];
  }

  lemma ReadsOperator(t: string, tail: string)
    requires t in OPERATORS && (tail == "" || tail[0] == ' ')
    ensures Tokens(t + tail) == Cons(t, Tokens(tail))
  {
    var s := t + tail;
    NoCommentBefore(t, tail);
    assert s[0] == t[0] && s[1] == t[1] && (|s| > 2 ==> s[2] == if |t| > 2 then t[2] else ' ');
    OperatorIsLocal(t, tail);
    assert s[..|t|] == t && s[|t|..] == tail;
  }

  lemma OperatorIsLocal(t: string, tail: string)
    requires t in OPERATORS && (tail == "" || tail[0] == ' ')
    ensures OperatorLength(t + tail) == |t|
  {
    var s := t + tail;
    assert s[0] == t[0] && s[1] == t[1] && (|s| > 2 ==> s[2] == if |t| > 2 then t[2] else ' ');
  }

  lemma ReadsSymbol(t: string, tail: string)
    requires SymbolToken(t) && (tail == "" || tail[0] == ' ')
    ensures Tokens(t + tail) == Cons(t, Tokens(tail))
  {
    var s := t + tail;
    NoCommentBefore(t, tail);
    assert s[0] == t[0] && (|s| > 1 ==> s[1] == ' ');
    assert OperatorLength(s) == 0;
    assert s[..1] == t && s[1..] == tail;
  }

  /** A token in front of a space or the end is read back as it is. */
  lemma ReadsBack(t: string, tail: string)
    requires IsToken(t) && (tail == "" || tail[0] == ' ')
    ensures Tokens(t + tail) == Cons(t, Tokens(tail))
  {
    if QuotedToken(t) {
      ReadsQuoted(t, tail);
    } else if WordToken(t) {
      ReadsWord(t, tail);
    } else if t in OPERATORS {
      ReadsOperator(t, tail);
    } else {
      ReadsSymbol(t, tail);
    }
  }

  lemma ReadsSpaced(t: string, rest: string)
    requires IsToken(t)
    ensures Tokens(t + " " + rest) == Cons(t, Tokens(rest))
  {
    var tail := " " + rest;
    ReadsBack(t, tail);
    assert tail[0] == ' ' && tail[1..] == rest;
    assert t + " " + rest == t + tail;
  }

  lemma ReadsAlone(t: string, end: string)
    requires IsToken(t) && |end| == 0
    ensures Tokens(t) == Ok([t])
  {
    ReadsBack(t, end);
    assert t + end == t;
    NothingHasNoTokens(end);
    assert Tokens(t + end) == Cons(t, Ok([]));
    ConsOne(t);
  }

  lemma ConsOne(t: string)
    ensures Cons(t, Ok([])) == Ok([t])
  {
    assert [t] + [] == [t];
  }

  lemma NothingHasNoTokens(s: string)
    requires |s| == 0
    ensures Tokens(s) == Ok([])
  {
  }

  /** Reading the printed form of tokens gives exactly those tokens. */
  lemma {:induction false} PrintReadsBack(ts: seq<string>)
    requires AllTokens(ts)
    ensures Tokens(Print(ts)) == Ok(ts)
  {
    if |ts| == 1 {
      ReadsAlone(ts[0], "");
      assert [ts[0]] == ts;
    } else if |ts| > 1 {
      PrintReadsBack(ts[1..]);
      ReadsSpaced(ts[0], Print(ts[1..]));
      assert [ts[0]] + ts[1..] == ts;
    }
  }

  // ---- white space at the ends ----------------------------------------------------

  /** The first match in the front part is the first match of the whole. */
  lemma {:induction false} FindIsLocal(front: string, tail: string, pattern: string)
    requires pattern != ""
    ensures Find(front, pattern).Some? ==> Find(front + tail, pattern) == Find(front, pattern)
    ensures Find(front, pattern).None? && Find(front + tail, pattern).Some? ==>
              Find(front + tail, pattern).value + |pattern| > |front|
  {
    if front != "" {
      FindIsLocal(front[1..], tail, pattern);
      assert (front + tail)[1..] == front[1..] + tail;
      FrontStarts(front, tail, pattern);
    }
  }

  lemma FrontStarts(front: string, tail: string, pattern: string)
    ensures |pattern| <= |front| ==> (StartsWith(front + tail, pattern) <==> StartsWith(front, pattern))
  {
  }

  lemma FindInPrefix(s: string, pattern: string, m: nat)
    requires m <= |s| && pattern != ""
    ensures Find(s, pattern).Some? && Find(s, pattern).value + |pattern| <= m ==>
              Find(s[..m], pattern) == Find(s, pattern)
    ensures Find(s, pattern).None? || Find(s, pattern).value + |pattern| > m ==>
              Find(s[..m], pattern).None?
  {
    FindIsLocal(s[..m], s[m..], pattern);
    assert s[..m] + s[m..] == s;
  }

  lemma {:induction false} QuotedInFront(front: string, tail: string, closing: char)
    ensures var whole := QuotedLength(front + tail, closing);
            && (whole.Some? && whole.value <= |front| ==> QuotedLength(front, closing) == whole)
            && (whole.None? && |tail| == 1 && tail[0] != closing ==> QuotedLength(front, closing).None?)
    decreases |front|
  {
    if front != "" {
      if front[0] != closing {
        QuotedInFront(front[1..], tail, closing);
        assert (front + tail)[1..] == front[1..] + tail;
      } else if |front| > 1 && front[1] == closing {
        QuotedInFront(front[2..], tail, closing);
        assert (front + tail)[2..] == front[2..] + tail;
      }
    }
  }

  lemma QuotedInPrefix(s: string, closing: char, m: nat)
    requires m <= |s|
    ensures QuotedLength(s, closing).Some? && QuotedLength(s, closing).value <= m ==>
              QuotedLength(s[..m], closing) == QuotedLength(s, closing)
    ensures m == |s| - 1 && s[m] != closing && QuotedLength(s, closing).None? ==>
              QuotedLength(s[..m], closing).None?
  {
    QuotedInFront(s[..m], s[m..], closing);
    assert s[..m] + s[m..] == s;
  }

  lemma PrefixStarts(s: string, m: nat, pattern: string)
    requires |pattern| <= m <= |s|
    ensures StartsWith(s[..m], pattern) <==> StartsWith(s, pattern)
  {
  }

  lemma DropThenTake(s: string, k: nat, m: nat)
    requires k <= m <= |s|
    ensures s[..m][k..] == s[k..][..m - k]
  {
  }

  /** A comment that ends within a prefix of the text is the same comment there. */
  lemma CommentInPrefix(s: string, m: nat)
    requires 2 <= m <= |s| && CommentLength(s).Ok? && CommentLength(s).value <= m
    ensures CommentLength(s[..m]) == CommentLength(s)
  {
    PrefixStarts(s, m, "--");
    PrefixStarts(s, m, "/*");
    if StartsWith(s, "--") {
      LineInPrefix(s, m);
    } else if StartsWith(s, "/*") {
      BlockInPrefix(s, m);
    }
  }

  lemma LineInPrefix(s: string, m: nat)
    requires 2 <= m <= |s| && StartsWith(s, "--") && StartsWith(s[..m], "--")
    requires CommentLength(s).value <= m
    ensures CommentLength(s[..m]) == CommentLength(s)
  {
    FindInPrefix(s[2..], "\n", m - 2);
    DropThenTake(s, 2, m);
  }

  lemma BlockInPrefix(s: string, m: nat)
    requires 2 <= m <= |s| && StartsWith(s, "/*") && StartsWith(s[..m], "/*")
    requires !StartsWith(s, "--") && !StartsWith(s[..m], "--")
    requires CommentLength(s).Ok? && CommentLength(s).value <= m
    ensures CommentLength(s[..m]) == CommentLength(s)
  {
    FindInPrefix(s[2..], "*/", m - 2);
    DropThenTake(s, 2, m);
  }

  lemma SpaceIsSkipped(space: char, s: string)
    requires IsSpace(space)
    ensures Tokens([space] + s) == Tokens(s)
  {
    var spaced := [space] + s;
    assert spaced[0] == space && spaced[1..] == s;
    assert HeadOf(spaced) == Gap(1);
  }

  lemma WordInPrefix(s: string, m: nat)
    requires WordLength(s) <= m <= |s|
    ensures WordLength(s[..m]) == WordLength(s)
  {
    WordLengthIs(s[..m], WordLength(s));
  }

  lemma OperatorInPrefix(s: string, m: nat)
    requires m == |s| - 1 && IsSpace(s[m])
    ensures OperatorLength(s[..m]) == OperatorLength(s)
  {
  }

  lemma QuotedHeadInPrefix(s: string, m: nat)
    requires 0 < m == |s| - 1 && IsSpace(s[m]) && IsQuote(s[0])
    ensures QuotedLength(s[..m][1..], Closing(s[0])) == QuotedLength(s[1..], Closing(s[0]))
  {
    QuotedInPrefix(s[1..], Closing(s[0]), m - 1);
    assert s[..m][1..] == s[1..][..m - 1];
  }

  lemma CommentHeadInPrefix(s: string, m: nat)
    requires 0 < m == |s| - 1 && IsSpace(s[m])
    ensures if CommentLength(s) == Ok(|s|) then CommentLength(s[..m]) == Ok(m)
            else CommentLength(s[..m]) == CommentLength(s)
  {
    if m >= 2 {
      PrefixStarts(s, m, "--");
      PrefixStarts(s, m, "/*");
      if StartsWith(s, "--") {
        LineHeadInPrefix(s, m);
      } else if StartsWith(s, "/*") {
        BlockHeadInPrefix(s, m);
      }
    }
  }

  lemma LineHeadInPrefix(s: string, m: nat)
    requires 2 <= m == |s| - 1 && StartsWith(s, "--") && StartsWith(s[..m], "--")
    ensures if CommentLength(s) == Ok(|s|) then CommentLength(s[..m]) == Ok(m)
            else CommentLength(s[..m]) == CommentLength(s)
  {
    FindInPrefix(s[2..], "\n", m - 2);
    DropThenTake(s, 2, m);
  }

  lemma BlockHeadInPrefix(s: string, m: nat)
    requires 2 <= m == |s| - 1 && IsSpace(s[m]) && StartsWith(s, "/*") && StartsWith(s[..m], "/*")
    requires !StartsWith(s, "--") && !StartsWith(s[..m], "--")
    ensures CommentLength(s) != Ok(|s|) && CommentLength(s[..m]) == CommentLength(s)
  {
    BlockEndStays(s[2..], m - 2);
    DropThenTake(s, 2, m);
    BlockLength(s);
    BlockLength(s[..m]);
  }

  /** A block comment is as long as the text up to its first closing mark. */
  lemma BlockLength(s: string)
    requires StartsWith(s, "/*")
    ensures var end := Find(s[2..], "*/");
            CommentLength(s) == if end.None? then Err(UnterminatedComment) else Ok(2 + end.value + 2)
  {
    assert s[0] == '/';
  }

  lemma BlockEndStays(body: string, k: nat)
    requires k == |body| - 1 && IsSpace(body[k])
    ensures var end := Find(body, "*/");
            Find(body[..k], "*/") == end && (end.Some? ==> end.value + 2 <= k)
  {
    BlockEndsEarlier(body, k);
    FindInPrefix(body, "*/", k);
  }

  lemma BlockEndsEarlier(body: string, k: nat)
    requires k == |body| - 1 && IsSpace(body[k])
    ensures var end := Find(body, "*/"); end.Some? ==> end.value + 2 <= k
  {
    var end := Find(body, "*/");
    if end.Some? {
      assert body[end.value..][1] == body[end.value + 1] && "*/"[1] == '/';
    }
  }

  /** Cutting a trailing space off does not change how a text starts. */
  lemma HeadInPrefix(s: string, m: nat)
    requires 0 < m == |s| - 1 && IsSpace(s[m])
    ensures if HeadOf(s) == Gap(|s|) then HeadOf(s[..m]) == Gap(m) else HeadOf(s[..m]) == HeadOf(s)
    ensures HeadOf(s).Word? ==> HeadOf(s).length <= m
  {
    CommentHeadInPrefix(s, m);
    if CommentLength(s) == Ok(0) {
      if IsQuote(s[0]) {
        QuotedHeadInPrefix(s, m);
        QuotedStopsBeforeSpace(s, m);
        TakeFirst(s, m);
      } else {
        PlainHeadInPrefix(s, m);
      }
    }
  }

  lemma TakeFirst(s: string, m: nat)
    requires m <= |s|
    ensures forall n: nat | n <= m :: s[..m][..n] == s[..n]
  {
  }

  lemma PlainHeadInPrefix(s: string, m: nat)
    requires 0 < m == |s| - 1 && IsSpace(s[m]) && !IsQuote(s[0])
    requires CommentLength(s) == Ok(0) && CommentLength(s[..m]) == Ok(0)
    ensures HeadOf(s[..m]) == HeadOf(s) && HeadOf(s).length <= m
  {
    assert WordLength(s) <= m;
    WordInPrefix(s, m);
    OperatorInPrefix(s, m);
    TakeFirst(s, m);
  }

  lemma QuotedStopsBeforeSpace(s: string, m: nat)
    requires 0 < m == |s| - 1 && IsSpace(s[m]) && IsQuote(s[0])
    ensures var n := QuotedLength(s[1..], Closing(s[0])); n.Some? ==> 1 + n.value <= m
  {
    var n := QuotedLength(s[1..], Closing(s[0]));
    assert n.Some? ==> s[1..][n.value - 1] == s[n.value];
  }

  lemma {:induction false} TrailingSpace(s: string)
    requires s != "" && IsSpace(s[|s| - 1])
    ensures Tokens(s[..|s| - 1]) == Tokens(s)
    decreases |s|
  {
    var m := |s| - 1;
    if m == 0 {
      SpaceIsSkipped(s[0], "");
      assert s == [s[0]] + "";
    } else {
      var h := HeadOf(s);
      if !h.Broken? && h.length <= m {
        TrailingSpace(s[h.length..]);
      }
      SpaceBehindHead(s, m, h);
    }
  }

  lemma SpaceBehindHead(s: string, m: nat, h: Head)
    requires m >= 1 && |s| == m + 1 && IsSpace(s[m]) && h == HeadOf(s)
    requires !h.Broken? && h.length <= m ==> Tokens(s[h.length..][..m - h.length]) == Tokens(s[h.length..])
    ensures Tokens(s[..m]) == Tokens(s)
  {
    HeadInPrefix(s, m);
    if !h.Broken? && h.length <= m {
      DropThenTake(s, h.length, m);
    }
    TokensStep(s, h);
    TokensStep(s[..m], HeadOf(s[..m]));
    if h == Gap(|s|) {
      assert s[|s|..] == "" && s[..m][m..] == "";
    }
  }

  lemma TokensStep(s: string, h: Head)
    requires s != "" && h == HeadOf(s)
    ensures Tokens(s) == if h.Broken? then Err(h.error)
                         else if h.Gap? then Tokens(s[h.length..])
                         else Cons(h.token, Tokens(s[h.length..]))
  {
  }

  lemma {:induction false} StripChangesNothing(s: string)
    ensures Tokens(Strip(s)) == Tokens(s)
    decreases |s|
  {
    if s != "" && IsSpace(s[0]) {
      StripChangesNothing(s[1..]);
      SpaceIsSkipped(s[0], s[1..]);
      assert s == [s[0]] + s[1..];
    } else if s != "" && IsSpace(s[|s| - 1]) {
      StripChangesNothing(s[..|s| - 1]);
      TrailingSpace(s);
    }
  }

  // ---- main results ---------------------------------------------------------------

  /** The canonical form prints the tokens of the text, and reading it gives them back. */
  lemma CanonicalReadsBack(s: string)
    ensures Canonical(s).Ok? <==> Tokens(s).Ok?
    ensures Canonical(s).Ok? ==> Tokens(Canonical(s).value) == Tokens(s)
  {
    StripChangesNothing(s);
    if Canonical(s).Ok? {
      TokensAreTokens(s);
      PrintReadsBack(Tokens(s).value);
    }
  }

  /** A canonical text is its own canonical form. */
  lemma CanonicalIsIdempotent(s: string)
    requires Canonical(s).Ok?
    ensures Canonical(Canonical(s).value) == Canonical(s)
  {
    CanonicalReadsBack(s);
    StripChangesNothing(s);
    StripChangesNothing(Canonical(s).value);
  }

  /** Two texts have one canonical form exactly when they have the same tokens. */
  lemma CanonicalDecidesTokens(s: string, u: string)
    requires Canonical(s).Ok? && Canonical(u).Ok?
    ensures Canonical(s) == Canonical(u) <==> Tokens(s) == Tokens(u)
  {
    CanonicalReadsBack(s);
    CanonicalReadsBack(u);
    StripChangesNothing(s);
    StripChangesNothing(u);
  }
}
