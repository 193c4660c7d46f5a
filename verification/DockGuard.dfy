/** The scope decision: may this Dockyard act on this target? */
module DockGuard {
  import opened Wrappers
  import opened AddressBlocks
  import opened BlockSubtraction
  import opened Targets

  datatype RuleKind = Include | Exclude

  /** A stored scope entry; `target` is absent when the entry no longer normalizes. */
  datatype Rule = Rule(kind: RuleKind, value: string, target: Option<Target>)

  /** One text a resolver returned: no address, or one that may carry an IPv6 zone. */
  datatype Answer = Unparsable | Answer(version: Version, address: nat, zoned: bool)

  datatype Resolution = LookupFailed | Answers(answers: seq<Answer>)

  type Resolver = Option<string -> Resolution>

  datatype Decision =
    | Allowed
    | DeniedPolicy
    | DeniedOutOfScope
    | DeniedExcluded
    | InvalidTarget
    | Unresolved

  datatype Evaluation = Evaluation(
    decision: Decision,
    matchedRule: Option<string>,
    resolved: seq<Answer>,
    excludedAddresses: seq<string>)

  const HARD_DENY_NETWORKS: seq<Block> := [
    Block(V4, 0xA9FE, 16),
    Block(V4, 0x6464_64C8, 0),
    Block(V6, 0x3FA, 118),
    Block(V6, 0xFD00_0EC2_0000_0000_0000_0000_0000_0254, 0)]

  const HARD_DENY_HOSTNAMES: set<string> := {
    "instance-data.ec2.internal",
    "metadata.aliyuncs.com",
    "metadata.goog",
    "metadata.google",
    "metadata.google.internal"}

  // ---- the pieces of a decision -----------------------------------------------------

  predicate MeetsAny(b: Block, blocks: seq<Block>) {
    exists i | 0 <= i < |blocks| :: blocks[i].version == b.version && Overlaps(b, blocks[i])
  }

  predicate HardDenied(t: Target) {
    || (NameOf(t).Some? && NameOf(t).value in HARD_DENY_HOSTNAMES)
    || (Network(t).Some? && MeetsAny(Network(t).value, HARD_DENY_NETWORKS))
  }

  /** A scope entry covers a target: origins by equality, space by inclusion, names by name. */
  predicate Matches(t: Target, rule: Target) {
    if t.UrlTarget? && rule.UrlTarget? then t == rule
    else if rule.UrlTarget? then false
    else if Network(t).Some? && Network(rule).Some? then
      SubnetOf(Network(t).value, Network(rule).value)
    else
      Network(t).None? && Network(rule).None? && NameOf(t) == NameOf(rule)
  }

  predicate Covers(rule: Rule, kind: RuleKind, t: Target) {
    rule.kind == kind && rule.target.Some? && Matches(t, rule.target.value)
  }

  /** The first entry of this kind that covers the target. */
  function FirstMatch(t: Target, kind: RuleKind, rules: seq<Rule>): (m: Option<Rule>)
    ensures m.Some? ==> m.value in rules && Covers(m.value, kind, t)
    ensures m.None? ==> forall r | r in rules :: !Covers(r, kind, t)
  {
    if rules == [] then None
    else if Covers(rules[0], kind, t) then Some(rules[0])
    else FirstMatch(t, kind, rules[1..])
  }

  predicate OverlappingExclusion(rule: Rule, b: Block) {
    && rule.kind == Exclude && rule.target.Some? && Network(rule.target.value).Some?
    && Network(rule.target.value).value.version == b.version
    && Overlaps(b, Network(rule.target.value).value)
  }

  function OverlappingExclusions(b: Block, rules: seq<Rule>): (found: seq<Rule>)
    ensures forall r :: r in found <==> r in rules && OverlappingExclusion(r, b)
  {
    if rules == [] then []
    else
      (if OverlappingExclusion(rules[0], b) then [rules[0]] else [])
      + OverlappingExclusions(b, rules[1..])
  }

  function BlocksOf(found: seq<Rule>): (blocks: seq<Block>)
    requires forall r | r in found :: r.target.Some? && Network(r.target.value).Some?
    ensures |blocks| == |found|
    ensures forall i | 0 <= i < |found| :: blocks[i] == Network(found[i].target.value).value
  {
    seq(|found|, i requires 0 <= i < |found| => Network(found[i].target.value).value)
  }

  function ValuesOf(found: seq<Rule>): seq<string> {
    seq(|found|, i requires 0 <= i < |found| => found[i].value)
  }

  /** The address is in the address space of some exclusion. */
  predicate Excluded(version: Version, address: nat, rules: seq<Rule>) {
    exists r | r in rules ::
      && r.kind == Exclude && r.target.Some? && Network(r.target.value).Some?
      && Network(r.target.value).value.version == version
      && Contains(Network(r.target.value).value, address)
  }

  predicate Unusable(a: Answer) {
    a.Unparsable? || (a.version == V6 && a.address / 0x1_0000_0000 == 0xFFFF)
  }

  predicate InHardDeny(a: Answer)
    requires a.Answer?
  {
    exists i | 0 <= i < |HARD_DENY_NETWORKS| ::
      HARD_DENY_NETWORKS[i].version == a.version && Contains(HARD_DENY_NETWORKS[i], a.address)
  }

  function EvaluateNamed(name: string, rule: Rule, rules: seq<Rule>, resolve: string -> Resolution)
    : Evaluation
  {
    var matched := Some(rule.value);
    match resolve(name)
    case LookupFailed => Evaluation(Unresolved, matched, [], [])
    case Answers(answers) =>
      if answers == [] then Evaluation(Unresolved, matched, [], [])
      else if exists a | a in answers :: Unusable(a) then
        Evaluation(DeniedPolicy, matched, answers, [])
      else if exists a | a in answers :: a.Answer? && InHardDeny(a) then
        Evaluation(DeniedPolicy, matched, answers, [])
      else if exists a | a in answers :: a.Answer? && !a.zoned && Excluded(a.version, a.address, rules) then
        Evaluation(DeniedExcluded, matched, answers, [])
      else Evaluation(Allowed, matched, answers, [])
  }

  /** Every address of the block is in the address space of some exclusion. */
  ghost predicate AllExcluded(b: Block, rules: seq<Rule>) {
    forall a: nat | Contains(b, a) :: Excluded(b.version, a, rules)
  }

  /** The whole decision, with the covering test stated over addresses. */
  ghost function Decide(requested: Option<Target>, rules: seq<Rule>, resolver: Resolver): Evaluation {
    if requested.None? then Evaluation(InvalidTarget, None, [], [])
    else
      var t := requested.value;
      if HardDenied(t) then Evaluation(DeniedPolicy, None, [], [])
      else if forall r | r in rules :: r.kind == Exclude then Evaluation(DeniedOutOfScope, None, [], [])
      else if FirstMatch(t, Exclude, rules).Some? then
        Evaluation(DeniedExcluded, Some(FirstMatch(t, Exclude, rules).value.value), [], [])
      else if FirstMatch(t, Include, rules).None? then Evaluation(DeniedOutOfScope, None, [], [])
      else
        var included := FirstMatch(t, Include, rules).value;
        if t.NetworkTarget? then
          if AllExcluded(t.block, rules) then
            Evaluation(DeniedExcluded, Some(included.value), [], [])
          else
            Evaluation(Allowed, Some(included.value), [],
                       ValuesOf(OverlappingExclusions(t.block, rules)))
        else if NameOf(t).Some? && resolver.Some? then
          EvaluateNamed(NameOf(t).value, included, rules, resolver.value)
        else Evaluation(Allowed, Some(included.value), [], [])
  }

  // ---- the running form ---------------------------------------------------------------

  lemma OverlappingCoverAll(b: Block, rules: seq<Rule>)
    ensures var found := OverlappingExclusions(b, rules);
            && OfVersion(BlocksOf(found), b.version)
            && (AllExcluded(b, rules) <==> forall a: nat | Contains(b, a) :: Covered(BlocksOf(found), a))
  {
    var found := OverlappingExclusions(b, rules);
    forall i | 0 <= i < |found| ensures BlocksOf(found)[i].version == b.version {
      assert found[i] in found;
    }
    forall a: nat | Contains(b, a)
      ensures Excluded(b.version, a, rules) <==> Covered(BlocksOf(found), a)
    {
      if Excluded(b.version, a, rules) {
        var r :| r in rules && r.kind == Exclude && r.target.Some? && Network(r.target.value).Some?
                 && Network(r.target.value).value.version == b.version
                 && Contains(Network(r.target.value).value, a);
        OverlapMeansShared(b, Network(r.target.value).value);
        assert r in found;
        var i :| 0 <= i < |found| && found[i] == r;
        assert Contains(BlocksOf(found)[i], a);
      }
      if Covered(BlocksOf(found), a) {
        var i :| 0 <= i < |found| && Contains(BlocksOf(found)[i], a);
        assert found[i] in found;
      }
    }
  }

  method CollectOverlapping(b: Block, rules: seq<Rule>) returns (found: seq<Rule>)
    ensures found == OverlappingExclusions(b, rules)
  {
    found := [];
    ghost var goal := OverlappingExclusions(b, rules);
    assert rules[0..] == rules;
    for i := 0 to |rules|
      invariant found + OverlappingExclusions(b, rules[i..]) == goal
    {
      OverlappingStep(b, rules, i, found);
      if OverlappingExclusion(rules[i], b) {
        found := found + [rules[i]];
      }
    }
  }

  lemma OverlappingStep(b: Block, rules: seq<Rule>, i: nat, found: seq<Rule>)
    requires i < |rules|
    ensures found + OverlappingExclusions(b, rules[i..])
         == (if OverlappingExclusion(rules[i], b) then found + [rules[i]] else found)
            + OverlappingExclusions(b, rules[i + 1..])
  {
    assert rules[i..][1..] == rules[i + 1..];
  }

  /** The decision as the code reaches it: the covering test is the subtraction loop. */
  method Evaluate(requested: Option<Target>, rules: seq<Rule>, resolver: Resolver)
    returns (e: Evaluation)
    ensures e == Decide(requested, rules, resolver)
  {
    if requested.None? {
      return Evaluation(InvalidTarget, None, [], []);
    }
    var t := requested.value;
    if HardDenied(t) {
      return Evaluation(DeniedPolicy, None, [], []);
    }
    if forall r | r in rules :: r.kind == Exclude {
      return Evaluation(DeniedOutOfScope, None, [], []);
    }
    var excludedBy := FirstMatch(t, Exclude, rules);
    if excludedBy.Some? {
      return Evaluation(DeniedExcluded, Some(excludedBy.value.value), [], []);
    }
    var includedBy := FirstMatch(t, Include, rules);
    if includedBy.None? {
      return Evaluation(DeniedOutOfScope, None, [], []);
    }
    var matched := Some(includedBy.value.value);
    if t.NetworkTarget? {
      var overlapping := CollectOverlapping(t.block, rules);
      OverlappingCoverAll(t.block, rules);
      var all := FullyExcluded(t.block, BlocksOf(overlapping));
      e := if all then Evaluation(DeniedExcluded, matched, [], [])
           else Evaluation(Allowed, matched, [], ValuesOf(overlapping));
    } else if NameOf(t).Some? && resolver.Some? {
      e := EvaluateNamed(NameOf(t).value, includedBy.value, rules, resolver.value);
    } else {
      e := Evaluation(Allowed, matched, [], []);
    }
  }
}
