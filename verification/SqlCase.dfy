/** Outside quotes, the case of letters is no part of the canonical form. */
module SqlCase {
  import opened AsciiText
  import opened SqlTokens

  predicate Unquoted(s: string) {
    forall i | 0 <= i < |s| :: !IsQuote(s[i])
  }

  lemma FoldDrop(s: string, n: nat)
    requires n <= |s|
    ensures FoldAll(s)[n..] == FoldAll(s[n..]) && FoldAll(s)[..n] == FoldAll(s[..n])
  {
  }

  /** A pattern without letters starts the folded text exactly where it starts the text. */
  predicate Signs(pattern: string) {
    forall i | 0 <= i < |pattern| :: !('a' <= pattern[i] <= 'z') && !('A' <= pattern[i] <= 'Z')
  }

  lemma StartsFold(s: string, pattern: string)
    requires Signs(pattern)
    ensures StartsWith(FoldAll(s), pattern) <==> StartsWith(s, pattern)
  {
  }

  lemma {:induction false} FindFold(s: string, pattern: string)
    requires Signs(pattern)
    ensures Find(FoldAll(s), pattern) == Find(s, pattern)
  {
    StartsFold(s, pattern);
    if s != "" {
      FindFold(s[1..], pattern);
      FoldDrop(s, 1);
    }
  }

  lemma CommentFold(s: string)
    ensures CommentLength(FoldAll(s)) == CommentLength(s)
  {
    StartsFold(s, "--");
    StartsFold(s, "/*");
    if |s| >= 2 {
      FoldDrop(s, 2);
      FindFold(s[2..], "\n");
      FindFold(s[2..], "*/");
    }
  }

  lemma WordFold(s: string)
    ensures WordLength(FoldAll(s)) == WordLength(s)
  {
    WordLengthIs(FoldAll(s), WordLength(s));
  }

  lemma OperatorFold(s: string)
    ensures OperatorLength(FoldAll(s)) == OperatorLength(s)
    ensures OperatorLength(s) > 0 ==> FoldAll(s)[..OperatorLength(s)] == s[..OperatorLength(s)]
  {
    StartsFold(s, "->>");
    StartsFold(s, "<=");
    StartsFold(s, ">=");
    StartsFold(s, "<>");
    StartsFold(s, "!=");
    StartsFold(s, "||");
    StartsFold(s, "->");
    FoldDrop(s, OperatorLength(s));
    OperatorIsSigns(s);
  }

  lemma OperatorIsSigns(s: string)
    ensures FoldAll(s[..OperatorLength(s)]) == s[..OperatorLength(s)]
  {
    var n := OperatorLength(s);
    assert forall i | 0 <= i < n :: s[i] in {'-', '>', '<', '=', '!', '|'};
  }

  lemma HeadFold(s: string)
    requires s != "" && Unquoted(s)
    ensures HeadOf(FoldAll(s)) == HeadOf(s)
  {
    CommentFold(s);
    WordFold(s);
    OperatorFold(s);
    FoldDrop(s, WordLength(s));
    FoldTwice(s[..WordLength(s)]);
    FoldDrop(s, 1);
    if !IsWord(s[0]) {
      assert FoldAll(s)[..1] == s[..1];
    }
  }

  lemma {:induction false} TokensFold(s: string)
    requires Unquoted(s)
    ensures Tokens(FoldAll(s)) == Tokens(s)
    decreases |s|
  {
    if s != "" {
      HeadFold(s);
      var h := HeadOf(s);
      if !h.Broken? {
        FoldDrop(s, h.length);
        TokensFold(s[h.length..]);
      }
    }
  }

  /** Texts without quotes that differ only in case have one canonical form. */
  lemma CaseIsDropped(s: string, t: string)
    requires Unquoted(s) && Unquoted(t) && FoldAll(s) == FoldAll(t)
    ensures Canonical(s) == Canonical(t)
  {
    StripFold(s);
    StripFold(t);
    StripIsInside(s);
    StripIsInside(t);
    TokensFold(Strip(s));
    TokensFold(Strip(t));
  }

  lemma {:induction false} StripIsInside(s: string)
    requires Unquoted(s)
    ensures Unquoted(Strip(s))
    decreases |s|
  {
    if s != "" && IsSpace(s[0]) {
      StripIsInside(s[1..]);
    } else if s != "" && IsSpace(s[|s| - 1]) {
      StripIsInside(s[..|s| - 1]);
    }
  }
}
