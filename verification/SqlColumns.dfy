/** Splitting a table declaration into its column clauses, and what that preserves. */
module SqlColumns {
  import opened Wrappers
  import opened AsciiText
  import opened SqlTokens

  datatype DdlError = ScanFailed(error: ScanError) | NoColumnList | EmptyClause | Unbalanced

  /** A comment or a quoted text, which the splitter steps over, or one plain character. */
  datatype Unit = Skip(length: Positive) | Plain | Bad(error: ScanError)

  function UnitOf(s: string): (u: Unit)
    requires s != ""
    ensures u.Skip? ==> 1 <= u.length <= |s|
  {
    var comment := CommentLength(s);
    if comment.Err? then Bad(comment.error)
    else if comment.value > 0 then Skip(comment.value)
    else if IsQuote(s[0]) then
      var quoted := QuotedLength(s[1..], Closing(s[0]));
      if quoted.None? then Bad(UnterminatedQuote) else Skip(1 + quoted.value)
    else Plain
  }

  /** Raw clauses between commas of the outer list, the last possibly unfinished, and what
      follows the closing bracket or why there is none. */
  datatype Split = Split(slices: seq<string>, rest: Result<string, DdlError>)

  /** Put a piece of text in front of the first clause. */
  function Grow(piece: string, r: Split): Split {
    if r.slices == [] then r else Split([piece + r.slices[0]] + r.slices[1..], r.rest)
  }

  function Break(r: Split): Split { Split([""] + r.slices, r.rest) }

  /** What the splitter does at the start of a text, inside this many brackets. */
  datatype Move = Stop(error: DdlError) | CloseList | NextClause | Take(length: nat, depth: nat)

  function MoveOf(s: string, depth: nat): (m: Move)
    requires s != ""
    ensures m.Take? ==> 1 <= m.length <= |s| && (depth >= 1 ==> m.depth >= 1)
    ensures m.CloseList? ==> s[..1] == ")"
    ensures m.NextClause? ==> s[..1] == ","
  {
    match UnitOf(s)
    case Bad(error) => Stop(ScanFailed(error))
    case Skip(length) => Take(length, depth)
    case Plain =>
      if s[0] == '(' then Take(1, depth + 1)
      else if s[0] == ')' then (if depth <= 1 then CloseList else Take(1, depth - 1))
      else if s[0] == ',' && depth == 1 then NextClause
      else Take(1, depth)
  }

  function SplitBody(s: string, depth: nat): (r: Split)
    ensures r.slices != []
    decreases |s|
  {
    if s == "" then Split([""], Err(Unbalanced))
    else
      match MoveOf(s, depth)
      case Stop(error) => Split([""], Err(error))
      case CloseList => Split([""], Ok(s[1..]))
      case NextClause => Break(SplitBody(s[1..], depth))
      case Take(length, inner) => Grow(s[..length], SplitBody(s[length..], inner))
  }

  function Rejoin(slices: seq<string>): string {
    if slices == [] then ""
    else if |slices| == 1 then slices[0]
    else slices[0] + "," + Rejoin(slices[1..])
  }

  predicate Rejoins(s: string, split: Split) {
    split.rest.Ok? && s == Rejoin(split.slices) + ")" + split.rest.value
  }

  lemma GrowRejoins(s: string, n: nat, split: Split)
    requires n <= |s| && split.slices != [] && Rejoins(s[n..], split)
    ensures Rejoins(s, Grow(s[..n], split))
  {
    var grown := [s[..n] + split.slices[0]] + split.slices[1..];
    assert grown[1..] == split.slices[1..];
    assert Rejoin(grown) == s[..n] + Rejoin(split.slices);
    assert s == s[..n] + s[n..];
  }

  lemma BreakRejoins(s: string, split: Split)
    requires s != "" && s[..1] == "," && split.slices != [] && Rejoins(s[1..], split)
    ensures Rejoins(s, Break(split))
  {
    var broken := [""] + split.slices;
    assert broken[1..] == split.slices;
    assert Rejoin(broken) == "," + Rejoin(split.slices);
    assert s == s[..1] + s[1..];
  }

  /** Nothing is lost: the raw clauses joined by commas are the whole column list. */
  lemma {:induction false} SlicesRejoin(s: string, depth: nat)
    requires SplitBody(s, depth).rest.Ok?
    ensures Rejoins(s, SplitBody(s, depth))
    decreases |s|
  {
    match MoveOf(s, depth)
    case CloseList =>
      assert s == s[..1] + s[1..];
    case NextClause =>
      SlicesRejoin(s[1..], depth);
      BreakRejoins(s, SplitBody(s[1..], depth));
    case Take(n, inner) =>
      SlicesRejoin(s[n..], inner);
      GrowRejoins(s, n, SplitBody(s[n..], inner));
  }

  /** The first unit does not depend on a line comment running to the end of the text. */
  predicate LineEnds(s: string, length: nat) {
    StartsWith(s, "--") ==> 0 < length <= |s| && s[length - 1] == '\n'
  }

  /** Walked by itself from this depth, the text balances, has no comma of the outer list
      and ends each of its line comments. */
  predicate Closed(s: string, depth: nat)
    decreases |s|
  {
    if s == "" then depth == 1
    else
      match MoveOf(s, depth)
      case Take(length, inner) => LineEnds(s, length) && Closed(s[length..], inner)
      case _ => false
  }

  lemma LineEndsInside(s: string, depth: nat)
    requires s != "" && MoveOf(s, depth).Take? && MoveOf(s, depth).length < |s|
    ensures LineEnds(s, MoveOf(s, depth).length)
  {
    if StartsWith(s, "--") {
      assert CommentLength(s).value == MoveOf(s, depth).length;
      var newline := Find(s[2..], "\n").value;
      assert s[2..][newline..][0] == s[2 + newline];
    }
  }

  /** A unit of a text is the same unit of every prefix that holds all of it. */
  lemma UnitInPrefix(s: string, m: nat)
    requires s != "" && 1 <= m <= |s|
    requires UnitOf(s).Skip? ==> UnitOf(s).length <= m
    requires !UnitOf(s).Bad?
    ensures UnitOf(s[..m]) == UnitOf(s)
  {
    if m >= 2 {
      CommentInPrefix(s, m);
    }
    if IsQuote(s[0]) && CommentLength(s) == Ok(0) {
      QuotedInPrefix(s[1..], Closing(s[0]), m - 1);
      DropThenTake(s, 1, m);
    }
  }

  lemma ClosedGrows(s: string, m: nat, depth: nat)
    requires s != "" && MoveOf(s, depth).Take? && MoveOf(s, depth).length <= m <= |s|
    requires var move := MoveOf(s, depth);
             move.length < |s| && Closed(s[move.length..m], move.depth)
    ensures Closed(s[..m], depth)
  {
    var move := MoveOf(s, depth);
    UnitInPrefix(s, m);
    LineEndsInside(s, depth);
    assert s[..m][0] == s[0];
    assert MoveOf(s[..m], depth) == move;
    DropThenTake(s, move.length, m);
    assert s[move.length..][..m - move.length] == s[move.length..m];
  }

  predicate AllClosed(s: string, depth: nat, slices: seq<string>) {
    && slices != []
    && |slices[0]| <= |s| && s[..|slices[0]|] == slices[0]
    && Closed(slices[0], depth)
    && forall i | 1 <= i < |slices| :: Closed(slices[i], 1)
  }

  lemma GrowClosed(s: string, depth: nat, split: Split)
    requires s != "" && MoveOf(s, depth).Take?
    requires var move := MoveOf(s, depth);
             move.length < |s| && AllClosed(s[move.length..], move.depth, split.slices)
    ensures AllClosed(s, depth, Grow(s[..MoveOf(s, depth).length], split).slices)
  {
    var n := MoveOf(s, depth).length;
    var m := n + |split.slices[0]|;
    assert s[n..][..|split.slices[0]|] == s[n..m];
    ClosedGrows(s, m, depth);
    assert s[..n] + split.slices[0] == s[..m];
  }

  /** Every raw clause is closed by itself. */
  lemma {:induction false} SlicesAreClosed(s: string, depth: nat)
    requires SplitBody(s, depth).rest.Ok? && depth >= 1
    ensures AllClosed(s, depth, SplitBody(s, depth).slices)
    decreases |s|
  {
    match MoveOf(s, depth)
    case CloseList =>
      EmptyIsClosed(s, depth);
    case NextClause =>
      SlicesAreClosed(s[1..], depth);
      BreakClosed(s, depth, SplitBody(s[1..], depth));
    case Take(n, inner) =>
      SlicesAreClosed(s[n..], inner);
      GrowClosed(s, depth, SplitBody(s[n..], inner));
  }

  lemma EmptyIsClosed(s: string, depth: nat)
    requires s != "" && (MoveOf(s, depth).CloseList? || MoveOf(s, depth).NextClause?) && depth >= 1
    ensures depth == 1 && AllClosed(s, depth, [""])
  {
    assert depth == 1 && Closed("", 1);
  }

  lemma BreakClosed(s: string, depth: nat, split: Split)
    requires s != "" && MoveOf(s, depth).NextClause? && depth >= 1 && AllClosed(s[1..], depth, split.slices)
    ensures AllClosed(s, depth, Break(split).slices)
  {
    EmptyIsClosed(s, depth);
  }

  // ---- joining and splitting again -------------------------------------------------

  lemma CommentExtends(s: string, tail: string)
    requires s != "" && tail != "" && (tail[0] == ',' || tail[0] == ')')
    requires CommentLength(s).Ok? && LineEnds(s, CommentLength(s).value)
    ensures CommentLength(s + tail) == CommentLength(s)
  {
    CommentOpens(s, tail);
    if StartsWith(s, "--") {
      LineExtends(s, tail);
    } else if StartsWith(s, "/*") {
      BlockExtends(s, tail);
    }
  }

  lemma BlockExtends(s: string, tail: string)
    requires StartsWith(s, "/*") && CommentLength(s).Ok?
    ensures CommentLength(s + tail) == CommentLength(s)
  {
    BlockLength(s);
    BlockLength(s + tail);
    FindExtends(s[2..], "*/", tail);
    assert (s + tail)[2..] == s[2..] + tail;
  }

  lemma CommentOpens(s: string, tail: string)
    requires s != "" && tail != "" && (tail[0] == ',' || tail[0] == ')')
    ensures StartsWith(s + tail, "--") <==> StartsWith(s, "--")
    ensures StartsWith(s + tail, "/*") <==> StartsWith(s, "/*")
  {
    var t := s + tail;
    assert t[0] == s[0] && t[1] == if |s| > 1 then s[1] else tail[0];
  }

  lemma FindExtends(s: string, pattern: string, tail: string)
    requires pattern != "" && Find(s, pattern).Some?
    ensures Find(s + tail, pattern) == Find(s, pattern)
  {
    FindIsLocal(s, tail, pattern);
  }

  lemma LineExtends(s: string, tail: string)
    requires StartsWith(s, "--") && LineEnds(s, CommentLength(s).value)
    ensures CommentLength(s + tail) == CommentLength(s)
  {
    assert s[1] == '-';
    NewlineFound(s[2..], CommentLength(s).value - 3);
    FindExtends(s[2..], "\n", tail);
    assert (s + tail)[2..] == s[2..] + tail;
  }

  lemma {:induction false} NewlineFound(s: string, i: nat)
    requires i < |s| && s[i] == '\n'
    ensures Find(s, "\n").Some?
  {
    if i > 0 {
      NewlineFound(s[1..], i - 1);
    }
  }

  lemma MoveExtends(s: string, tail: string, depth: nat)
    requires s != "" && tail != "" && (tail[0] == ',' || tail[0] == ')')
    requires MoveOf(s, depth).Take? && LineEnds(s, MoveOf(s, depth).length)
    ensures MoveOf(s + tail, depth) == MoveOf(s, depth)
  {
    CommentExtends(s, tail);
    if IsQuote(s[0]) {
      QuotedIsLocal(s[1..], tail, Closing(s[0]));
      assert (s + tail)[1..] == s[1..] + tail;
    }
  }

  lemma {:induction false} ClosedIsWalked(s: string, tail: string, depth: nat)
    requires Closed(s, depth) && tail != "" && (tail[0] == ',' || tail[0] == ')')
    ensures SplitBody(s + tail, depth) == Grow(s, SplitBody(tail, 1))
    decreases |s|
  {
    if s == "" {
      assert "" + tail == tail;
      GrowNothing(SplitBody(tail, 1));
    } else {
      var n, inner := MoveOf(s, depth).length, MoveOf(s, depth).depth;
      ClosedIsWalked(s[n..], tail, inner);
      ConcatSlices(s, tail, n);
      WalkStep(s, tail, depth, SplitBody(s[n..] + tail, inner));
      GrowTwice(s[..n], s[n..], SplitBody(tail, 1));
    }
  }

  lemma WalkStep(s: string, tail: string, depth: nat, later: Split)
    requires s != "" && tail != "" && (tail[0] == ',' || tail[0] == ')')
    requires MoveOf(s, depth).Take? && LineEnds(s, MoveOf(s, depth).length)
    requires later == SplitBody(s[MoveOf(s, depth).length..] + tail, MoveOf(s, depth).depth)
    ensures SplitBody(s + tail, depth) == Grow(s[..MoveOf(s, depth).length], later)
  {
    MoveExtends(s, tail, depth);
    ConcatSlices(s, tail, MoveOf(s, depth).length);
  }

  lemma ConcatSlices(s: string, tail: string, n: nat)
    requires n <= |s|
    ensures (s + tail)[n..] == s[n..] + tail && (s + tail)[..n] == s[..n] && s[..n] + s[n..] == s
  {
  }

  lemma GrowNothing(r: Split)
    ensures Grow("", r) == r
  {
    if r.slices != [] {
      var slices := r.slices;
      assert "" + slices[0] == slices[0];
      assert ["" + slices[0]] + slices[1..] == slices;
    }
  }

  lemma GrowTwice(a: string, b: string, r: Split)
    ensures Grow(a, Grow(b, r)) == Grow(a + b, r)
  {
    if r.slices != [] {
      var slices := r.slices;
      assert a + (b + slices[0]) == a + b + slices[0];
      assert ([b + slices[0]] + slices[1..])[1..] == slices[1..];
    }
  }

  /** Clauses that are each closed, joined by commas, split into just those clauses. */
  lemma {:induction false} RejoinSplits(slices: seq<string>, rest: string)
    requires slices != [] && forall i | 0 <= i < |slices| :: Closed(slices[i], 1)
    ensures SplitBody(Rejoin(slices) + (")" + rest), 1) == Split(slices, Ok(rest))
  {
    if |slices| == 1 {
      LastClause(slices[0], rest);
      assert slices == [slices[0]];
    } else {
      RejoinSplits(slices[1..], rest);
      RejoinText(slices, ")" + rest);
      NextClauseSplits(slices[0], Rejoin(slices[1..]) + (")" + rest), slices[1..], rest);
      assert slices == [slices[0]] + slices[1..];
    }
  }

  lemma RejoinText(slices: seq<string>, tail: string)
    requires |slices| > 1
    ensures Rejoin(slices) + tail == slices[0] + ("," + (Rejoin(slices[1..]) + tail))
  {
  }

  lemma LastClause(first: string, rest: string)
    requires Closed(first, 1)
    ensures SplitBody(first + (")" + rest), 1) == Split([first], Ok(rest))
  {
    var tail := ")" + rest;
    ClosedIsWalked(first, tail, 1);
    ClosesList(rest);
    assert first + "" == first && [first] + [""][1..] == [first];
  }

  lemma NextClauseSplits(first: string, inner: string, others: seq<string>, rest: string)
    requires Closed(first, 1) && SplitBody(inner, 1) == Split(others, Ok(rest))
    ensures SplitBody(first + ("," + inner), 1) == Split([first] + others, Ok(rest))
  {
    ClosedIsWalked(first, "," + inner, 1);
    CommaBreaks(inner);
    assert first + "" == first && ([""] + others)[1..] == others;
  }

  lemma ClosesList(rest: string)
    ensures SplitBody(")" + rest, 1) == Split([""], Ok(rest))
  {
    var s := ")" + rest;
    PlainCharacter(s);
    assert s[0] == ')' && s[1..] == rest;
  }

  lemma CommaBreaks(inner: string)
    ensures SplitBody("," + inner, 1) == Break(SplitBody(inner, 1))
  {
    var s := "," + inner;
    PlainCharacter(s);
    assert s[0] == ',' && s[1..] == inner;
  }

  // ---- clauses --------------------------------------------------------------------

  /** The canonical clause, without a leading constraint name if one is recognised. */
  function Clause(slice: string): Scan<string> {
    var canonical := Canonical(slice);
    if canonical.Err? || !StartsWith(canonical.value, "constraint ") then canonical
    else
      var rest := canonical.value[|"constraint "|..];
      var space := Find(rest, " ");
      if space.None? then canonical else Ok(rest[space.value + 1..])
  }

  lemma {:induction false} FirstSpace(name: string, rest: string)
    ensures Find(name + " " + rest, " ").Some?
    ensures ' ' !in name ==> Find(name + " " + rest, " ") == Some(|name|)
    ensures ' ' in name ==> Find(name + " " + rest, " ").value < |name|
    decreases |name|
  {
    var s := name + " " + rest;
    if name == "" {
      assert s[0] == ' ';
    } else {
      assert s[1..] == name[1..] + " " + rest && s[0] == name[0];
      assert name == [name[0]] + name[1..];
      FirstSpace(name[1..], rest);
      SpaceBehind(s);
    }
  }

  lemma SpaceBehind(s: string)
    requires s != ""
    ensures Find(s, " ") == if s[0] == ' ' then Some(0) else EndsBehind(Find(s[1..], " "))
  {
    assert StartsWith(s, " ") <==> s[0] == ' ';
  }

  function EndsBehind(at: Option<nat>): Option<nat> { if at.None? then None else Some(at.value + 1) }

  /** A token with a space in it is quoted, so it does not end in one. */
  lemma SpacedTokenIsQuoted(t: string)
    requires IsToken(t) && ' ' in t
    ensures t[|t| - 1] != ' '
  {
    var i :| 0 <= i < |t| && t[i] == ' ';
    assert QuotedToken(t) || !IsWord(t[i]) || t in OPERATORS;
    if QuotedToken(t) {
      assert t[1..][|t| - 2] == t[|t| - 1];
    }
  }

  /** A constraint name is dropped from its clause exactly when it has no space in it and
      something follows it; a clause that ends with such a name is kept whole. */
  lemma ConstraintNameDropped(slice: string, name: string, rest: seq<string>)
    requires Tokens(slice) == Ok(["constraint", name] + rest)
    ensures Clause(slice) == Ok(Print(rest)) <==> ' ' !in name && rest != []
    ensures ' ' !in name && rest == [] ==> Clause(slice) == Ok("constraint " + name)
  {
    StripChangesNothing(slice);
    TokensAreTokens(slice);
    assert (["constraint", name] + rest)[1] == name && IsToken(name);
    var tokens := ["constraint", name] + rest;
    assert tokens[1..] == [name] + rest && tokens[1..][1..] == rest;
    var tail := Print([name] + rest);
    assert Print(tokens) == "constraint" + " " + tail;
    assert Print(tokens)[..11] == "constraint ";
    assert Print(tokens)[11..] == tail;
    TailWithoutName(name, rest);
  }

  /** What is left of a name and its clause behind the first space. */
  lemma TailWithoutName(name: string, rest: seq<string>)
    requires IsToken(name)
    ensures var tail := Print([name] + rest);
            var space := Find(tail, " ");
            if ' ' in name then space.Some? && tail[space.value + 1..] != Print(rest)
            else if rest == [] then space.None? && tail == name
            else space.Some? && tail[space.value + 1..] == Print(rest)
  {
    var tail := Print([name] + rest);
    assert ([name] + rest)[1..] == rest;
    if rest == [] {
      assert tail == name;
      SpaceFound(name);
      if ' ' in name {
        SpacedTokenIsQuoted(name);
      }
    } else {
      assert tail == name + " " + Print(rest);
      FirstSpace(name, Print(rest));
      var at := Find(tail, " ").value;
      if ' ' !in name {
        assert tail[|name| + 1..] == Print(rest);
      } else {
        assert |tail[at + 1..]| > |Print(rest)|;
      }
    }
  }

  lemma {:induction false} SpaceFound(s: string)
    ensures Find(s, " ").Some? <==> ' ' in s
    ensures Find(s, " ").Some? ==> s[Find(s, " ").value] == ' '
  {
    if s != "" {
      SpaceFound(s[1..]);
      assert s == [s[0]] + s[1..];
      assert StartsWith(s, " ") <==> s[0] == ' ';
    }
  }

  const SPACED_NAME: seq<string> := ["constraint", "\"a b\"", "check"]

  lemma SpacedNameIsTokens()
    ensures AllTokens(SPACED_NAME)
  {
    var name := SPACED_NAME[1];
    assert name[1..] == "a b\"" && name[1..][1..] == " b\"";
    assert name[1..][1..][1..] == "b\"" && name[1..][1..][1..][1..] == "\"";
    assert QuotedLength("\"", '"') == Some(1);
    assert QuotedToken(name) && WordToken("constraint") && WordToken("check");
  }

  /** It happens: `constraint "a b" check` keeps part of its name. */
  lemma SpacedNameStays()
    ensures Tokens(Print(SPACED_NAME)) == Ok(SPACED_NAME)
    ensures Clause(Print(SPACED_NAME)).Ok? && Clause(Print(SPACED_NAME)) != Ok("check")
  {
    SpacedNameIsTokens();
    PrintReadsBack(SPACED_NAME);
    assert SPACED_NAME == ["constraint", SPACED_NAME[1]] + ["check"];
    assert SPACED_NAME[1][2] == ' ';
    ConstraintNameDropped(Print(SPACED_NAME), SPACED_NAME[1], ["check"]);
    CanonicalReadsBack(Print(SPACED_NAME));
    assert Print(["check"]) == "check";
  }

  // ---- clauses scan ---------------------------------------------------------------

  /** The splitter gets through the text without a scan error. */
  predicate UnitsScan(s: string)
    decreases |s|
  {
    s == "" ||
    match UnitOf(s)
    case Bad(_) => false
    case Skip(length) => UnitsScan(s[length..])
    case Plain => UnitsScan(s[1..])
  }

  lemma {:induction false} ClosedUnitsScan(s: string, depth: nat)
    requires Closed(s, depth)
    ensures UnitsScan(s)
    decreases |s|
  {
    if s != "" {
      var move := MoveOf(s, depth);
      ClosedUnitsScan(s[move.length..], move.depth);
    }
  }

  lemma {:induction false} WordUnits(s: string, n: nat)
    requires UnitsScan(s) && n <= WordLength(s)
    ensures UnitsScan(s[n..])
    decreases |s|
  {
    if n > 0 {
      assert UnitOf(s) == Plain;
      WordUnits(s[1..], n - 1);
      assert s[1..][n - 1..] == s[n..];
    }
  }

  lemma PlainCharacter(s: string)
    requires s != "" && !IsQuote(s[0]) && s[0] != '-' && s[0] != '/'
    ensures UnitOf(s) == Plain
  {
  }

  lemma OperatorCharacters(s: string)
    requires OperatorLength(s) > 0
    ensures OperatorLength(s) in {2, 3}
    ensures s[1] == '=' || s[1] == '>' || s[1] == '|'
    ensures OperatorLength(s) == 3 ==> s[2] == '>'
  {
  }

  lemma OperatorUnits(s: string)
    requires s != "" && UnitsScan(s) && UnitOf(s) == Plain
    ensures UnitsScan(s[OperatorLength(s)..])
  {
    if OperatorLength(s) > 0 {
      OperatorCharacters(s);
      PlainCharacter(s[1..]);
      assert s[1..][1..] == s[2..];
      if OperatorLength(s) == 3 {
        PlainCharacter(s[2..]);
        assert s[2..][1..] == s[3..];
      }
    }
  }

  lemma PlainHead(s: string)
    requires s != "" && UnitOf(s) == Plain
    ensures !HeadOf(s).Broken?
    ensures HeadOf(s).length == if IsSpace(s[0]) then 1
                                else if IsWord(s[0]) then WordLength(s)
                                else if OperatorLength(s) > 0 then OperatorLength(s)
                                else 1
  {
  }

  lemma HeadKeepsUnits(s: string)
    requires s != "" && UnitsScan(s)
    ensures !HeadOf(s).Broken? && UnitsScan(s[HeadOf(s).length..])
  {
    match UnitOf(s)
    case Skip(length) =>
      assert !HeadOf(s).Broken? && HeadOf(s).length == length;
    case Plain =>
      PlainHead(s);
      WordUnits(s, WordLength(s));
      OperatorUnits(s);
  }

  /** What the splitter gets through, the tokenizer gets through. */
  lemma {:induction false} UnitsGiveTokens(s: string)
    requires UnitsScan(s)
    ensures Tokens(s).Ok?
    decreases |s|
  {
    if s != "" {
      HeadKeepsUnits(s);
      UnitsGiveTokens(s[HeadOf(s).length..]);
    }
  }

  /** So a raw clause always has a canonical form. */
  lemma ClosedClauseIsCanonical(slice: string, depth: nat)
    requires Closed(slice, depth)
    ensures Clause(slice).Ok?
  {
    ClosedUnitsScan(slice, depth);
    UnitsGiveTokens(slice);
    CanonicalReadsBack(slice);
  }
}
