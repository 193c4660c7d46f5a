/** The contract of a table declaration: its clauses in any order, and its suffix. */
module SqlContract {
  import opened Wrappers
  import opened AsciiText
  import opened SqlTokens
  import opened SqlColumns

  /** The canonical clauses, in no particular order, and the canonical text behind them. */
  datatype Contract = Contract(clauses: multiset<string>, suffix: string)

  function Width(unit: Unit): Positive { if unit.Skip? then unit.length else 1 }

  /** The unit at each position. */
  function UnitsOf(sql: string): (units: seq<Unit>)
    ensures |units| == |sql|
  {
    if sql == "" then [] else [UnitOf(sql)] + UnitsOf(sql[1..])
  }

  lemma {:induction false} UnitAt(sql: string, index: nat)
    requires index < |sql|
    ensures UnitsOf(sql)[index] == UnitOf(sql[index..])
  {
    if index > 0 {
      UnitAt(sql[1..], index - 1);
      assert sql[1..][index - 1..] == sql[index..];
    } else {
      assert sql[0..] == sql;
    }
  }

  predicate Opens(sql: string, index: nat, unit: Unit)
    requires index < |sql|
  {
    unit.Plain? && sql[index] == '('
  }

  /** Where the column list opens: the first bracket outside comments and quotes. */
  function OpeningFrom(sql: string, units: seq<Unit>, index: nat): (r: Result<nat, DdlError>)
    requires |units| == |sql|
    ensures r.Ok? ==> index <= r.value < |sql| && Opens(sql, r.value, units[r.value])
    decreases |sql| - index
  {
    if index >= |sql| then Err(NoColumnList)
    else if units[index].Bad? then Err(ScanFailed(units[index].error))
    else if Opens(sql, index, units[index]) then Ok(index)
    else OpeningFrom(sql, units, index + Width(units[index]))
  }

  function Opening(sql: string): (r: Result<nat, DdlError>)
    ensures r.Ok? ==> r.value < |sql| && sql[r.value] == '('
  {
    OpeningFrom(sql, UnitsOf(sql), 0)
  }

  function WithClauses(found: seq<string>, rest: Result<seq<string>, DdlError>): Result<seq<string>, DdlError> {
    if rest.Err? then rest else Ok(found + rest.value)
  }

  /** The canonical clauses in their order. Only the last of a whole list may be empty, and is
      dropped; the last of an unfinished list is not looked at. */
  function Clauses(slices: seq<string>, whole: bool): Result<seq<string>, DdlError> {
    if slices == [] || (|slices| == 1 && !whole) then Ok([])
    else
      var clause := Clause(slices[0]);
      if clause.Err? then Err(ScanFailed(clause.error))
      else if clause.value != "" then WithClauses([clause.value], Clauses(slices[1..], whole))
      else if |slices| > 1 then Err(EmptyClause)
      else Ok([])
  }

  /** A fault of a finished clause comes before the one that ends the list, and that before one
      of the suffix. */
  function SplitContract(split: Split): Result<Contract, DdlError> {
    var clauses := Clauses(split.slices, split.rest.Ok?);
    if clauses.Err? then Err(clauses.error)
    else if split.rest.Err? then Err(split.rest.error)
    else
      var suffix := Canonical(split.rest.value);
      if suffix.Err? then Err(ScanFailed(suffix.error))
      else Ok(Contract(multiset(clauses.value), suffix.value))
  }

  function TableContract(sql: string): Result<Contract, DdlError> {
    var opening := Opening(sql);
    if opening.Err? then Err(opening.error) else SplitContract(SplitBody(sql[opening.value + 1..], 1))
  }

  // ---- the order of the clauses --------------------------------------------------------

  function Says(slice: string): string {
    var clause := Clause(slice);
    if clause.Ok? then clause.value else ""
  }

  /** Only the last clause may be empty. */
  predicate FrontSpeaks(slices: seq<string>) {
    forall i | 0 <= i < |slices| - 1 :: Says(slices[i]) != ""
  }

  function Each(f: string -> string, slices: seq<string>): (r: seq<string>)
    ensures |r| == |slices| && forall i | 0 <= i < |r| :: r[i] == f(slices[i])
  {
    if slices == [] then [] else [f(slices[0])] + Each(f, slices[1..])
  }

  predicate AllClosedAlone(slices: seq<string>) {
    slices != [] && forall i | 0 <= i < |slices| :: Closed(slices[i], 1)
  }

  lemma ClosedSays(slice: string)
    requires Closed(slice, 1)
    ensures Clause(slice) == Ok(Says(slice))
  {
    ClosedClauseIsCanonical(slice, 1);
  }

  /** What Clauses does with one clause that scans. */
  lemma ClausesStep(slices: seq<string>, says: string)
    requires slices != [] && Clause(slices[0]) == Ok(says)
    ensures Clauses(slices, true) == if says != "" then WithClauses([says], Clauses(slices[1..], true))
                               else if |slices| > 1 then Err(EmptyClause)
                               else Ok([])
  {
  }

  /** Raw clauses make clauses exactly when only the last is empty: all that say something. */
  lemma {:induction false} ClausesSay(slices: seq<string>)
    requires AllClosedAlone(slices)
    ensures Clauses(slices, true).Ok? <==> FrontSpeaks(slices)
    ensures Clauses(slices, true).Ok? ==> multiset(Clauses(slices, true).value) == multiset(Each(Says, slices))["" := 0]
  {
    var says := Says(slices[0]);
    ClosedSays(slices[0]);
    ClausesStep(slices, says);
    EachFirst(Says, slices);
    if |slices| == 1 {
      assert Each(Says, slices[1..]) == [] && Clauses(slices[1..], true) == Ok([]);
    } else {
      ClausesSay(slices[1..]);
      FrontStep(slices);
      if Clauses(slices, true).Ok? {
        FirstSays(says, Clauses(slices[1..], true).value, Each(Says, slices[1..]));
      }
    }
  }

  lemma FrontStep(slices: seq<string>)
    requires |slices| > 1
    ensures FrontSpeaks(slices) <==> Says(slices[0]) != "" && FrontSpeaks(slices[1..])
  {
    if FrontSpeaks(slices) {
      forall i | 0 <= i < |slices[1..]| - 1 ensures Says(slices[1..][i]) != "" {
        assert Says(slices[i + 1]) != "";
      }
    }
    if Says(slices[0]) != "" && FrontSpeaks(slices[1..]) {
      forall i | 0 <= i < |slices| - 1 ensures Says(slices[i]) != "" {
        assert i > 0 ==> slices[i] == slices[1..][i - 1];
      }
    }
  }

  lemma FirstSays(says: string, rest: seq<string>, all: seq<string>)
    requires says != "" && multiset(rest) == multiset(all)["" := 0]
    ensures multiset([says] + rest) == (multiset{says} + multiset(all))["" := 0]
  {
  }

  lemma {:induction false} EachWithout(f: string -> string, slices: seq<string>, i: nat)
    requires i < |slices|
    ensures multiset(Each(f, slices)) == multiset{f(slices[i])} + multiset(Each(f, slices[..i] + slices[i + 1..]))
  {
    var others := slices[..i] + slices[i + 1..];
    EachFirst(f, slices);
    if i == 0 {
      assert others == slices[1..];
    } else {
      EachWithout(f, slices[1..], i - 1);
      WithoutLater(slices, i);
      EachFirst(f, others);
    }
  }

  lemma WithoutLater(slices: seq<string>, i: nat)
    requires 1 <= i < |slices|
    ensures var others := slices[..i] + slices[i + 1..];
            && others[0] == slices[0] && others[1..] == slices[1..][..i - 1] + slices[1..][i..]
  {
  }

  lemma EachFirst(f: string -> string, slices: seq<string>)
    requires slices != []
    ensures multiset(Each(f, slices)) == multiset{f(slices[0])} + multiset(Each(f, slices[1..]))
  {
  }

  lemma {:induction false} EachIgnoresOrder(f: string -> string, a: seq<string>, b: seq<string>)
    requires multiset(a) == multiset(b)
    ensures multiset(Each(f, a)) == multiset(Each(f, b))
  {
    SameMembers(a, b);
    if a != [] {
      SameMembers(b, a);
      var i :| 0 <= i < |b| && b[i] == a[0];
      WithoutOne(a, b, i);
      EachIgnoresOrder(f, a[1..], b[..i] + b[i + 1..]);
      EachWithout(f, b, i);
      EachFirst(f, a);
    }
  }

  lemma WithoutOne(a: seq<string>, b: seq<string>, i: nat)
    requires a != [] && i < |b| && b[i] == a[0] && multiset(a) == multiset(b)
    ensures multiset(a[1..]) == multiset(b[..i] + b[i + 1..])
  {
    WithoutAt(a, 0);
    WithoutAt(b, i);
    assert a[..0] + a[1..] == a[1..];
  }

  lemma WithoutAt(a: seq<string>, i: nat)
    requires i < |a|
    ensures multiset(a[..i] + a[i + 1..]) == multiset(a) - multiset{a[i]}
  {
    assert a == a[..i] + [a[i]] + a[i + 1..];
  }

  lemma SameMembers(a: seq<string>, b: seq<string>)
    requires multiset(a) == multiset(b)
    ensures (a == [] <==> b == []) && forall i | 0 <= i < |a| :: a[i] in b
  {
    assert |multiset(a)| == |a| && |multiset(b)| == |b|;
    forall i | 0 <= i < |a| ensures a[i] in b {
      assert a[i] in multiset(a) && a[i] in multiset(b);
    }
  }

  // ---- the head of a declaration -------------------------------------------------------

  /** A unit that ends before its text does is the same whatever follows. */
  lemma UnitExtends(s: string, tail: string)
    requires s != "" && (UnitOf(s) == Plain ==> |s| > 1 || s[0] == '(')
    requires !UnitOf(s).Bad? && (UnitOf(s).Skip? ==> UnitOf(s).length < |s|)
    ensures UnitOf(s + tail) == UnitOf(s)
  {
    var t := s + tail;
    assert t[0] == s[0] && (|s| > 1 ==> t[1] == s[1]);
    assert StartsWith(t, "--") <==> StartsWith(s, "--");
    assert StartsWith(t, "/*") <==> StartsWith(s, "/*");
    if |s| > 1 {
      assert t[2..] == s[2..] + tail;
    }
    if StartsWith(s, "--") {
      FindExtends(s[2..], "\n", tail);
    } else if StartsWith(s, "/*") {
      FindExtends(s[2..], "*/", tail);
    } else if IsQuote(s[0]) {
      assert t[1..] == s[1..] + tail;
      QuotedExtends(s[1..], tail, Closing(s[0]));
    }
  }

  lemma {:induction false} QuotedExtends(body: string, tail: string, closing: char)
    requires QuotedLength(body, closing).Some? && QuotedLength(body, closing).value < |body|
    ensures QuotedLength(body + tail, closing) == QuotedLength(body, closing)
    decreases |body|
  {
    if body[0] != closing {
      QuotedExtends(body[1..], tail, closing);
      assert (body + tail)[1..] == body[1..] + tail;
    } else if body[1] == closing {
      QuotedExtends(body[2..], tail, closing);
      assert (body + tail)[2..] == body[2..] + tail;
    }
  }

  lemma UnitIsLocal(sql: string, index: nat, o: nat, tail: string)
    requires index <= o < |sql| && !UnitOf(sql[index..]).Bad?
    requires UnitOf(sql[index..]).Skip? ==> index + UnitOf(sql[index..]).length <= o
    requires UnitOf(sql[index..]).Plain? ==> index < o || sql[index] == '('
    ensures UnitOf((sql[..o + 1] + tail)[index..]) == UnitOf(sql[index..])
  {
    var here, head := sql[index..], sql[..o + 1];
    UnitInPrefix(here, o + 1 - index);
    assert here[..o + 1 - index] == head[index..];
    assert head[index..][0] == sql[index];
    UnitExtends(head[index..], tail);
    assert (head + tail)[index..] == head[index..] + tail;
  }

  predicate Within(sql: string, index: nat, o: nat, unit: Unit)
    requires index < |sql|
  {
    !unit.Bad? && if Opens(sql, index, unit) then index <= o else index + Width(unit) <= o
  }

  /** Texts with the same units up to the bracket open at the same place. */
  lemma {:induction false} SameOpening(sql: string, units: seq<Unit>, t: string, others: seq<Unit>, index: nat, o: nat)
    requires |units| == |sql| && |others| == |t| && o < |sql| && o < |t|
    requires forall i | 0 <= i <= o && Within(sql, i, o, units[i]) :: others[i] == units[i] && t[i] == sql[i]
    requires OpeningFrom(sql, units, index) == Ok(o)
    ensures OpeningFrom(t, others, index) == Ok(o)
    decreases |sql| - index
  {
    assert Within(sql, index, o, units[index]);
    if !Opens(sql, index, units[index]) {
      SameOpening(sql, units, t, others, index + Width(units[index]), o);
    }
  }

  /** The text up to the opening bracket decides where the column list opens. */
  lemma OpeningIsLocal(sql: string, tail: string)
    requires Opening(sql).Ok?
    ensures Opening(sql[..Opening(sql).value + 1] + tail) == Opening(sql)
  {
    var o := Opening(sql).value;
    var t := sql[..o + 1] + tail;
    var units, others := UnitsOf(sql), UnitsOf(t);
    forall i | 0 <= i <= o && Within(sql, i, o, units[i])
      ensures others[i] == units[i] && t[i] == sql[i]
    {
      UnitAt(sql, i);
      UnitAt(t, i);
      UnitIsLocal(sql, i, o, tail);
    }
    SameOpening(sql, units, t, others, 0, o);
  }

  /** The declaration with other clauses between its brackets. */
  function Redeclared(sql: string, slices: seq<string>): string
    requires Opening(sql).Ok? && SplitBody(sql[Opening(sql).value + 1..], 1).rest.Ok?
  {
    var o := Opening(sql).value;
    sql[..o + 1] + (Rejoin(slices) + (")" + SplitBody(sql[o + 1..], 1).rest.value))
  }

  /** Reordering the clauses of a table declaration keeps its contract, exactly when no clause
      but the last is left empty. */
  lemma OrderDoesNotMatter(sql: string, slices: seq<string>)
    requires TableContract(sql).Ok?
    requires var split := SplitBody(sql[Opening(sql).value + 1..], 1);
             multiset(slices) == multiset(split.slices)
    ensures TableContract(Redeclared(sql, slices)) == TableContract(sql) <==> FrontSpeaks(slices)
  {
    var o := Opening(sql).value;
    var split := SplitBody(sql[o + 1..], 1);
    var tail := Rejoin(slices) + (")" + split.rest.value);
    OtherOrderSplits(sql[o + 1..], slices);
    OpeningIsLocal(sql, tail);
    assert (sql[..o + 1] + tail)[o + 1..] == tail;
    SameContract(split.slices, slices, split.rest);
  }

  lemma OtherOrderSplits(body: string, slices: seq<string>)
    requires SplitBody(body, 1).rest.Ok? && multiset(slices) == multiset(SplitBody(body, 1).slices)
    ensures var split := SplitBody(body, 1);
            && SplitBody(Rejoin(slices) + (")" + split.rest.value), 1) == Split(slices, split.rest)
            && AllClosedAlone(split.slices) && AllClosedAlone(slices)
  {
    var split := SplitBody(body, 1);
    SlicesAreClosed(body, 1);
    SameMembers(slices, split.slices);
    RejoinSplits(slices, split.rest.value);
  }

  lemma SameContract(a: seq<string>, b: seq<string>, rest: Result<string, DdlError>)
    requires multiset(a) == multiset(b) && AllClosedAlone(a) && AllClosedAlone(b)
    requires SplitContract(Split(a, rest)).Ok?
    ensures SplitContract(Split(b, rest)) == SplitContract(Split(a, rest)) <==> FrontSpeaks(b)
  {
    EachIgnoresOrder(Says, a, b);
    ClausesSay(a);
    ClausesSay(b);
  }
}
