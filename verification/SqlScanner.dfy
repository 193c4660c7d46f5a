/** The scanning loops, one cursor each, proved against the tokens and clauses they produce. */
module SqlScanner {
  import opened Wrappers
  import opened AsciiText
  import opened SqlTokens
  import opened SqlColumns
  import opened SqlContract

  /** The position after the quoted text that starts here. */
  method SkipQuoted(sql: string, start: nat) returns (end: Option<nat>)
    requires start < |sql| && IsQuote(sql[start])
    ensures var n := QuotedLength(sql[start + 1..], Closing(sql[start]));
            end == if n.None? then None else Some(start + 1 + n.value)
  {
    var closing := Closing(sql[start]);
    var index := start + 1;
    while index < |sql|
      invariant start < index <= |sql|
      invariant EndsAt(start + 1, QuotedLength(sql[start + 1..], closing))
             == EndsAt(index, QuotedLength(sql[index..], closing))
    {
      QuotedStep(sql, index, closing);
      if sql[index] == closing {
        if index + 1 < |sql| && sql[index + 1] == closing {
          index := index + 2;
          continue;
        }
        return Some(index + 1);
      }
      index := index + 1;
    }
    end := None;
  }

  /** A position reached from another one. */
  function EndsAt(from: nat, length: Option<nat>): Option<nat> {
    if length.None? then None else Some(from + length.value)
  }

  lemma QuotedStep(sql: string, index: nat, closing: char)
    requires index < |sql|
    ensures EndsAt(index, QuotedLength(sql[index..], closing)) ==
              if sql[index] != closing then EndsAt(index + 1, QuotedLength(sql[index + 1..], closing))
              else if index + 1 < |sql| && sql[index + 1] == closing
              then EndsAt(index + 2, QuotedLength(sql[index + 2..], closing))
              else Some(index + 1)
  {
    Onward(sql, index, 1);
    if index + 1 < |sql| {
      Onward(sql, index, 2);
    }
  }

  /** Append the tokens from the cursor on to those already found. */
  function Joined(found: seq<string>, rest: Scan<seq<string>>): Scan<seq<string>> {
    if rest.Err? then rest else Ok(found + rest.value)
  }

  /** How the text goes on at each position. */
  function HeadsOf(sql: string): (heads: seq<Head>)
    ensures |heads| == |sql|
  {
    if sql == "" then [] else [HeadOf(sql)] + HeadsOf(sql[1..])
  }

  lemma {:induction false} HeadAt(sql: string, index: nat)
    requires index < |sql|
    ensures HeadsOf(sql)[index] == HeadOf(sql[index..])
  {
    if index > 0 {
      HeadAt(sql[1..], index - 1);
      assert sql[1..][index - 1..] == sql[index..];
    } else {
      assert sql[0..] == sql;
    }
  }

  /** The tokens from a position on. */
  function TokensFrom(heads: seq<Head>, index: nat): Scan<seq<string>>
    decreases |heads| - index
  {
    if index >= |heads| then Ok([])
    else
      match heads[index]
      case Gap(length) => TokensFrom(heads, index + length)
      case Word(length, token) => Cons(token, TokensFrom(heads, index + length))
      case Broken(error) => Err(error)
  }

  lemma {:induction false} TokensFromIsTokens(sql: string, index: nat)
    requires index <= |sql|
    ensures TokensFrom(HeadsOf(sql), index) == Tokens(sql[index..])
    decreases |sql| - index
  {
    if index < |sql| {
      HeadAt(sql, index);
      var h := HeadsOf(sql)[index];
      if !h.Broken? {
        TokensFromIsTokens(sql, index + h.length);
      }
      TokensAt(sql, index, h);
    }
  }

  lemma TokensAt(sql: string, index: nat, h: Head)
    requires index < |sql| && h == HeadOf(sql[index..])
    ensures Tokens(sql[index..]) == if h.Broken? then Err(h.error)
                                    else if h.Gap? then Tokens(sql[index + h.length..])
                                    else Cons(h.token, Tokens(sql[index + h.length..]))
  {
    if h.Broken? {
      TokensStep(sql[index..], h);
    } else {
      Onward(sql, index, h.length);
      TokensFollow(sql[index..], sql[index + h.length..], h);
    }
  }

  lemma TokensFollow(now: string, rest: string, h: Head)
    requires now != "" && h == HeadOf(now) && !h.Broken? && rest == now[h.length..]
    ensures Tokens(now) == if h.Gap? then Tokens(rest) else Cons(h.token, Tokens(rest))
  {
    TokensStep(now, h);
  }

  /** The text from the cursor on starts with a gap, a token or an error. */
  method NextHead(sql: string, index: nat) returns (h: Head)
    requires index < |sql|
    ensures h == HeadsOf(sql)[index]
    ensures !h.Broken? ==> index + h.length <= |sql|
  {
    HeadAt(sql, index);
    var here := sql[index..];
    var comment := CommentLength(here);
    if comment.Err? {
      h := Broken(comment.error);
    } else if comment.value > 0 {
      h := Gap(comment.value);
    } else if IsQuote(sql[index]) {
      var end := SkipQuoted(sql, index);
      assert here[1..] == sql[index + 1..];
      h := if end.None? then Broken(UnterminatedQuote)
           else Word(end.value - index, here[..end.value - index]);
    } else if IsSpace(sql[index]) {
      h := Gap(1);
    } else if IsWord(sql[index]) {
      h := Word(WordLength(here), FoldAll(here[..WordLength(here)]));
    } else if OperatorLength(here) > 0 {
      h := Word(OperatorLength(here), here[..OperatorLength(here)]);
    } else {
      h := Word(1, here[..1]);
    }
  }

  method CanonicalFragment(text: string) returns (r: Scan<string>)
    ensures r == Canonical(text)
  {
    var sql := Strip(text);
    var tokens: seq<string> := [];
    var index := 0;
    ghost var heads := HeadsOf(sql);
    ghost var goal := TokensFrom(heads, 0);
    TokensFromIsTokens(sql, 0);
    assert sql[0..] == sql;
    JoinedStarts(goal);
    while index < |sql|
      invariant 0 <= index <= |sql|
      invariant goal == Joined(tokens, TokensFrom(heads, index))
    {
      var h := NextHead(sql, index);
      if h.Broken? {
        return Err(h.error);
      }
      if h.Word? {
        JoinedGrows(tokens, h.token, TokensFrom(heads, index + h.length));
        tokens := tokens + [h.token];
      }
      index := index + h.length;
    }
    assert tokens + [] == tokens;
    r := Ok(Print(tokens));
  }

  lemma JoinedStarts(rest: Scan<seq<string>>)
    ensures Joined([], rest) == rest
  {
    if rest.Ok? {
      assert [] + rest.value == rest.value;
    }
  }

  lemma JoinedGrows(found: seq<string>, token: string, rest: Scan<seq<string>>)
    ensures Joined(found, Cons(token, rest)) == Joined(found + [token], rest)
  {
    if rest.Ok? {
      assert found + ([token] + rest.value) == found + [token] + rest.value;
    }
  }

  // ---- table declarations -----------------------------------------------------------

  lemma Onward(sql: string, cursor: nat, n: nat)
    requires cursor + n <= |sql|
    ensures sql[cursor..][n..] == sql[cursor + n..] && sql[cursor..][..n] == sql[cursor..cursor + n]
  {
  }

  lemma BodyStep(s: string, depth: nat, move: Move)
    requires s != "" && move == MoveOf(s, depth)
    ensures SplitBody(s, depth) == if move.Stop? then Split([""], Err(move.error))
                                   else if move.CloseList? then Split([""], Ok(s[1..]))
                                   else if move.NextClause? then Break(SplitBody(s[1..], depth))
                                   else Grow(s[..move.length], SplitBody(s[move.length..], move.depth))
  {
  }

  /** Finished clauses, the part of the current one, and what the splitter still finds. */
  function Combined(done: seq<string>, piece: string, r: Split): Split {
    if r.slices == [] then r else Split(done + [piece + r.slices[0]] + r.slices[1..], r.rest)
  }

  method NextUnit(sql: string, index: nat) returns (unit: Unit)
    requires index < |sql|
    ensures unit == UnitsOf(sql)[index]
    ensures index + Width(unit) <= |sql|
  {
    unit := UnitOf(sql[index..]);
    UnitAt(sql, index);
  }

  method FindOpening(sql: string) returns (r: Result<nat, DdlError>)
    ensures r == Opening(sql)
  {
    var index := 0;
    ghost var units := UnitsOf(sql);
    ghost var goal := Opening(sql);
    while index < |sql|
      invariant 0 <= index <= |sql|
      invariant goal == OpeningFrom(sql, units, index)
    {
      var unit := NextUnit(sql, index);
      OpeningStep(sql, units, index, unit);
      if unit.Bad? {
        return Err(ScanFailed(unit.error));
      }
      if Opens(sql, index, unit) {
        return Ok(index);
      }
      index := index + Width(unit);
    }
    r := Err(NoColumnList);
  }

  lemma OpeningStep(sql: string, units: seq<Unit>, index: nat, unit: Unit)
    requires |units| == |sql| && index < |sql| && unit == units[index]
    ensures OpeningFrom(sql, units, index) ==
              if unit.Bad? then Err(ScanFailed(unit.error))
              else if Opens(sql, index, unit) then Ok(index)
              else OpeningFrom(sql, units, index + Width(unit))
  {
  }

  /** The splitter's variables between two moves, or its answer. */
  datatype Progress =
    | Finished(result: Split)
    | Going(done: seq<string>, start: nat, cursor: nat, depth: nat)

  /** The splitter's answer when it ends here. */
  function Ended(p: Progress, sql: string, rest: Result<string, DdlError>): Split
    requires p.Going? && p.start <= p.cursor <= |sql|
  {
    Split(p.done + [sql[p.start..p.cursor]], rest)
  }

  predicate LeadsTo(sql: string, p: Progress, goal: Split) {
    match p
    case Finished(result) => result == goal
    case Going(done, start, cursor, depth) =>
      && start <= cursor <= |sql| && depth >= 1
      && goal == Combined(done, sql[start..cursor], SplitBody(sql[cursor..], depth))
  }

  /** One move of the cursor. */
  method MoveOnce(sql: string, p: Progress, ghost goal: Split) returns (q: Progress)
    requires Here(sql, p, goal)
    ensures LeadsTo(sql, q, goal)
    ensures q.Going? ==> p.cursor < q.cursor
  {
    var move := MoveOf(sql[p.cursor..], p.depth);
    if move.Stop? {
      StopLeads(sql, p, goal, move);
      q := Finished(Ended(p, sql, Err(move.error)));
    } else if move.CloseList? {
      CloseLeads(sql, p, goal, move);
      q := Finished(Ended(p, sql, Ok(sql[p.cursor + 1..])));
    } else if move.NextClause? {
      NextLeads(sql, p, goal, move);
      q := Going(p.done + [sql[p.start..p.cursor]], p.cursor + 1, p.cursor + 1, p.depth);
    } else {
      TakeLeads(sql, p, goal, move);
      q := Going(p.done, p.start, p.cursor + move.length, move.depth);
    }
  }

  predicate Here(sql: string, p: Progress, goal: Split) {
    p.Going? && p.cursor < |sql| && LeadsTo(sql, p, goal)
  }

  lemma StopLeads(sql: string, p: Progress, goal: Split, move: Move)
    requires Here(sql, p, goal) && move == MoveOf(sql[p.cursor..], p.depth) && move.Stop?
    ensures LeadsTo(sql, Finished(Ended(p, sql, Err(move.error))), goal)
  {
    BodyStep(sql[p.cursor..], p.depth, move);
    CombinedEnds(p.done, sql[p.start..p.cursor], Err(move.error));
  }

  lemma CloseLeads(sql: string, p: Progress, goal: Split, move: Move)
    requires Here(sql, p, goal) && move == MoveOf(sql[p.cursor..], p.depth) && move.CloseList?
    ensures LeadsTo(sql, Finished(Ended(p, sql, Ok(sql[p.cursor + 1..]))), goal)
  {
    BodyStep(sql[p.cursor..], p.depth, move);
    Onward(sql, p.cursor, 1);
    CombinedEnds(p.done, sql[p.start..p.cursor], Ok(sql[p.cursor + 1..]));
  }

  lemma NextLeads(sql: string, p: Progress, goal: Split, move: Move)
    requires Here(sql, p, goal) && move == MoveOf(sql[p.cursor..], p.depth) && move.NextClause?
    ensures LeadsTo(sql, Going(p.done + [sql[p.start..p.cursor]], p.cursor + 1, p.cursor + 1, p.depth), goal)
  {
    BodyStep(sql[p.cursor..], p.depth, move);
    Onward(sql, p.cursor, 1);
    NextJoins(sql, p.done, p.start, p.cursor, SplitBody(sql[p.cursor..], p.depth),
              SplitBody(sql[p.cursor + 1..], p.depth));
  }

  lemma TakeLeads(sql: string, p: Progress, goal: Split, move: Move)
    requires Here(sql, p, goal) && move == MoveOf(sql[p.cursor..], p.depth) && move.Take?
    ensures LeadsTo(sql, Going(p.done, p.start, p.cursor + move.length, move.depth), goal)
  {
    var end := p.cursor + move.length;
    TakeSplits(sql, p.cursor, end, p.depth, move);
    TakeArrives(sql, p, goal, SplitBody(sql[p.cursor..], p.depth), end, move.depth);
  }

  lemma TakeArrives(sql: string, p: Progress, goal: Split, now: Split, end: nat, depth: nat)
    requires p.Going? && p.start <= p.cursor <= end <= |sql| && depth >= 1
    requires goal == Combined(p.done, sql[p.start..p.cursor], now)
    requires now == Grow(sql[p.cursor..end], SplitBody(sql[end..], depth))
    ensures LeadsTo(sql, Going(p.done, p.start, end, depth), goal)
  {
    TakeJoins(sql, p.done, p.start, p.cursor, end, now, SplitBody(sql[end..], depth));
  }

  lemma TakeSplits(sql: string, cursor: nat, end: nat, depth: nat, move: Move)
    requires cursor < |sql| && move == MoveOf(sql[cursor..], depth) && move.Take? && end == cursor + move.length
    ensures SplitBody(sql[cursor..], depth) == Grow(sql[cursor..end], SplitBody(sql[end..], move.depth))
  {
    Onward(sql, cursor, move.length);
    TakeStep(sql[cursor..], depth, move, sql[cursor..end], sql[end..]);
  }

  lemma TakeStep(s: string, depth: nat, move: Move, front: string, tail: string)
    requires s != "" && move == MoveOf(s, depth) && move.Take?
    requires front == s[..move.length] && tail == s[move.length..]
    ensures SplitBody(s, depth) == Grow(front, SplitBody(tail, move.depth))
  {
    BodyStep(s, depth, move);
  }

  /** Split the column list into raw clauses, stopping at its closing bracket. */
  method SplitColumns(sql: string) returns (r: Split)
    ensures r == SplitBody(sql, 1)
  {
    ghost var goal := SplitBody(sql, 1);
    assert sql[0..] == sql && sql[0..0] == "";
    CombinedStarts(goal);
    var p := Going([], 0, 0, 1);
    while p.Going?
      invariant LeadsTo(sql, p, goal)
      decreases p.Going?, if p.Going? then |sql| - p.cursor else 0
    {
      if p.cursor == |sql| {
        CombinedEnds(p.done, sql[p.start..p.cursor], Err(Unbalanced));
        return Ended(p, sql, Err(Unbalanced));
      }
      p := MoveOnce(sql, p, goal);
    }
    r := p.result;
  }

  lemma TakeJoins(sql: string, done: seq<string>, start: nat, cursor: nat, end: nat,
                  now: Split, later: Split)
    requires start <= cursor <= end <= |sql| && later.slices != []
    requires now == Grow(sql[cursor..end], later)
    ensures Combined(done, sql[start..cursor], now) == Combined(done, sql[start..end], later)
  {
    CombinedGrows(done, sql[start..cursor], sql[cursor..end], later);
    assert sql[start..cursor] + sql[cursor..end] == sql[start..end];
  }

  lemma NextJoins(sql: string, done: seq<string>, start: nat, cursor: nat,
                  now: Split, later: Split)
    requires start <= cursor < |sql| && later.slices != []
    requires now == Break(later)
    ensures Combined(done, sql[start..cursor], now)
         == Combined(done + [sql[start..cursor]], sql[cursor + 1..cursor + 1], later)
  {
    CombinedBreaks(done, sql[start..cursor], later);
    assert sql[cursor + 1..cursor + 1] == "";
  }

  lemma CombinedEnds(done: seq<string>, piece: string, rest: Result<string, DdlError>)
    ensures Combined(done, piece, Split([""], rest)) == Split(done + [piece], rest)
  {
    assert piece + "" == piece && done + [piece] + [""][1..] == done + [piece];
  }

  lemma CombinedStarts(r: Split)
    requires r.slices != []
    ensures Combined([], "", r) == r
  {
    var slices := r.slices;
    assert "" + slices[0] == slices[0];
    assert [] + [slices[0]] + slices[1..] == slices;
  }

  lemma CombinedGrows(done: seq<string>, piece: string, more: string, r: Split)
    requires r.slices != []
    ensures Combined(done, piece, Grow(more, r)) == Combined(done, piece + more, r)
  {
    var slices := r.slices;
    assert piece + (more + slices[0]) == (piece + more) + slices[0];
    assert ([more + slices[0]] + slices[1..])[1..] == slices[1..];
  }

  lemma CombinedBreaks(done: seq<string>, piece: string, r: Split)
    requires r.slices != []
    ensures Combined(done, piece, Break(r)) == Combined(done + [piece], "", r)
  {
    var slices := r.slices;
    assert piece + "" == piece && "" + slices[0] == slices[0];
    assert ([""] + slices)[1..] == slices;
    assert done + [piece] + slices == done + [piece] + [slices[0]] + slices[1..];
  }

  /** The contract of a table declaration, as the schema comparison uses it. */
  method ReadContract(sql: string) returns (r: Result<Contract, DdlError>)
    ensures r == TableContract(sql)
  {
    var opening := FindOpening(sql);
    if opening.Err? {
      return Err(opening.error);
    }
    var split := SplitColumns(sql[opening.value + 1..]);
    var clauses := ReadClauses(split.slices, split.rest.Ok?);
    if clauses.Err? {
      return Err(clauses.error);
    }
    if split.rest.Err? {
      return Err(split.rest.error);
    }
    var suffix := CanonicalFragment(split.rest.value);
    r := if suffix.Err? then Err(ScanFailed(suffix.error))
         else Ok(Contract(multiset(clauses.value), suffix.value));
  }

  method ReadClauses(slices: seq<string>, whole: bool) returns (r: Result<seq<string>, DdlError>)
    requires slices != []
    ensures r == Clauses(slices, whole)
  {
    var clauses: seq<string> := [];
    var finished := if whole then |slices| else |slices| - 1;
    ghost var goal := Clauses(slices, whole);
    assert slices[0..] == slices;
    JoinedClauses([], goal);
    for i := 0 to finished
      invariant goal == WithClauses(clauses, Clauses(slices[i..], whole))
    {
      var clause := Clause(slices[i]);
      NextClauses(slices, whole, i, clause);
      if clause.Err? {
        return Err(ScanFailed(clause.error));
      }
      if clause.value == "" && i + 1 < |slices| {
        return Err(EmptyClause);
      }
      if clause.value != "" {
        ClausesGrow(clauses, clause.value, Clauses(slices[i + 1..], whole));
        clauses := clauses + [clause.value];
      }
    }
    assert Clauses(slices[finished..], whole) == Ok([]);
    assert clauses + [] == clauses;
    r := Ok(clauses);
  }

  lemma NextClauses(slices: seq<string>, whole: bool, i: nat, clause: Scan<string>)
    requires i < |slices| && (whole || i < |slices| - 1) && clause == Clause(slices[i])
    ensures Clauses(slices[i..], whole) ==
              if clause.Err? then Err(ScanFailed(clause.error))
              else if clause.value != "" then WithClauses([clause.value], Clauses(slices[i + 1..], whole))
              else if i + 1 < |slices| then Err(EmptyClause)
              else Clauses(slices[i + 1..], whole)
  {
    assert slices[i..][0] == slices[i] && slices[i..][1..] == slices[i + 1..];
  }

  lemma JoinedClauses(found: seq<string>, rest: Result<seq<string>, DdlError>)
    requires found == []
    ensures WithClauses(found, rest) == rest
  {
    if rest.Ok? {
      assert found + rest.value == rest.value;
    }
  }

  lemma ClausesGrow(found: seq<string>, clause: string, rest: Result<seq<string>, DdlError>)
    ensures WithClauses(found, WithClauses([clause], rest)) == WithClauses(found + [clause], rest)
  {
    if rest.Ok? {
      assert found + ([clause] + rest.value) == found + [clause] + rest.value;
    }
  }
}
