/** What a scope decision guarantees, for every target and every set of rules. */
module ScopeGuarantees {
  import opened Wrappers
  import opened AddressBlocks
  import opened Targets
  import opened DockGuard

  /** The address is in space that is denied to everyone. */
  predicate InDeniedSpace(version: Version, address: nat) {
    exists i | 0 <= i < |HARD_DENY_NETWORKS| ::
      HARD_DENY_NETWORKS[i].version == version && Contains(HARD_DENY_NETWORKS[i], address)
  }

  /** The address is in the space of one of these exclusions, given by their values. */
  predicate InReported(version: Version, address: nat, rules: seq<Rule>, reported: seq<string>) {
    exists r | r in rules ::
      && r.value in reported && r.kind == Exclude && r.target.Some? && Network(r.target.value).Some?
      && Network(r.target.value).value.version == version
      && Contains(Network(r.target.value).value, address)
  }

  /** An allowed network lies in one include, avoids denied space, keeps an address, and
      meets no exclusion outside the reported ones. */
  lemma AllowedNetworkIsSafe(b: Block, rules: seq<Rule>, resolver: Resolver)
    requires Decide(Some(NetworkTarget(b)), rules, resolver).decision == Allowed
    ensures exists r | r in rules ::
              r.kind == Include && r.target.Some? && Network(r.target.value).Some? &&
              SubnetOf(b, Network(r.target.value).value)
    ensures forall a: nat | Contains(b, a) :: !InDeniedSpace(b.version, a)
    ensures exists a: nat :: Contains(b, a) && !Excluded(b.version, a, rules)
    ensures var reported := Decide(Some(NetworkTarget(b)), rules, resolver).excludedAddresses;
            forall a: nat | Contains(b, a) && !InReported(b.version, a, rules, reported) ::
              !Excluded(b.version, a, rules)
  {
    var t := NetworkTarget(b);
    var included := FirstMatch(t, Include, rules).value;
    assert included in rules && Covers(included, Include, t);
    forall a: nat | Contains(b, a) ensures !InDeniedSpace(b.version, a) {
      if InDeniedSpace(b.version, a) {
        DeniedSpaceMeets(b, a);
      }
    }
    var found := OverlappingExclusions(b, rules);
    forall a: nat | Contains(b, a) && Excluded(b.version, a, rules)
      ensures InReported(b.version, a, rules, ValuesOf(found))
    {
      var r :| r in rules && r.kind == Exclude && r.target.Some? && Network(r.target.value).Some?
               && Network(r.target.value).value.version == b.version
               && Contains(Network(r.target.value).value, a);
      OverlapMeansShared(b, Network(r.target.value).value);
      assert r in found;
      var i :| 0 <= i < |found| && found[i] == r;
      assert ValuesOf(found)[i] == r.value;
    }
  }

  lemma DeniedSpaceMeets(b: Block, a: nat)
    requires Contains(b, a) && InDeniedSpace(b.version, a)
    ensures MeetsAny(b, HARD_DENY_NETWORKS)
  {
    var i :| 0 <= i < |HARD_DENY_NETWORKS| &&
             HARD_DENY_NETWORKS[i].version == b.version && Contains(HARD_DENY_NETWORKS[i], a);
    OverlapMeansShared(b, HARD_DENY_NETWORKS[i]);
  }

  // ---- exactly what is allowed --------------------------------------------------------

  /** An entry of this kind that is not a URL and whose address space holds the block. */
  predicate SpaceEntry(r: Rule, kind: RuleKind, b: Block) {
    && r.kind == kind && r.target.Some? && !r.target.value.UrlTarget? && Network(r.target.value).Some?
    && SubnetOf(b, Network(r.target.value).value)
  }

  lemma SpaceCovers(t: Target, r: Rule, kind: RuleKind, b: Block)
    requires !t.UrlTarget? && Network(t) == Some(b)
    ensures Covers(r, kind, t) <==> SpaceEntry(r, kind, b)
  {
  }

  lemma HardDenialIsSpace(t: Target, b: Block)
    requires Network(t) == Some(b)
    ensures HardDenied(t) <==> exists a: nat :: Contains(b, a) && InDeniedSpace(b.version, a)
  {
    if HardDenied(t) {
      var i :| 0 <= i < |HARD_DENY_NETWORKS| && HARD_DENY_NETWORKS[i].version == b.version
               && Overlaps(b, HARD_DENY_NETWORKS[i]);
      OverlapMeansShared(b, HARD_DENY_NETWORKS[i]);
      var a: nat :| Contains(b, a) && Contains(HARD_DENY_NETWORKS[i], a);
      assert InDeniedSpace(b.version, a);
    }
    if a: nat :| Contains(b, a) && InDeniedSpace(b.version, a) {
      DeniedSpaceMeets(b, a);
    }
  }

  /** A network is allowed exactly when it avoids denied space, lies in one include, and has
      an address outside every exclusion. */
  lemma NetworkAllowedExactly(b: Block, rules: seq<Rule>, resolver: Resolver)
    ensures Decide(Some(NetworkTarget(b)), rules, resolver).decision == Allowed <==>
              && (forall a: nat | Contains(b, a) :: !InDeniedSpace(b.version, a))
              && (exists r <- rules :: SpaceEntry(r, Include, b))
              && (exists a: nat :: Contains(b, a) && !Excluded(b.version, a, rules))
  {
    var t := NetworkTarget(b);
    HardDenialIsSpace(t, b);
    forall r | r in rules ensures Covers(r, Include, t) <==> SpaceEntry(r, Include, b) {
      SpaceCovers(t, r, Include, b);
    }
    if FirstMatch(t, Exclude, rules).Some? {
      var r := FirstMatch(t, Exclude, rules).value;
      SpaceCovers(t, r, Exclude, b);
      assert forall a: nat | Contains(b, a) :: Contains(Network(r.target.value).value, a);
      assert AllExcluded(b, rules);
    }
  }

  /** The address is outside denied space, in some include, and in no exclusion; entries that
      are URLs count for neither. */
  predicate AddressPermitted(version: Version, address: nat, rules: seq<Rule>) {
    && !InDeniedSpace(version, address)
    && (exists r <- rules :: SpaceEntry(r, Include, Block(version, address, 0)))
    && !(exists r <- rules :: SpaceEntry(r, Exclude, Block(version, address, 0)))
  }

  /** An address is allowed exactly when it is permitted. */
  lemma AddressAllowedExactly(version: Version, address: nat, rules: seq<Rule>, resolver: Resolver)
    ensures Decide(Some(AddressTarget(version, address)), rules, resolver).decision == Allowed <==>
              AddressPermitted(version, address, rules)
  {
    var t, b := AddressTarget(version, address), Block(version, address, 0);
    HardDenialIsSpace(t, b);
    OneAddress(version, address, b);
    forall r, kind | r in rules ensures Covers(r, kind, t) <==> SpaceEntry(r, kind, b) {
      SpaceCovers(t, r, kind, b);
    }
  }

  /** Everything the name resolved to is usable, outside denied space, and not excluded. */
  predicate Contactable(resolution: Resolution, rules: seq<Rule>) {
    && resolution.Answers? && resolution.answers != []
    && forall a <- resolution.answers ::
         && !Unusable(a) && !InDeniedSpace(a.version, a.address)
         && (!a.zoned ==> !Excluded(a.version, a.address, rules))
  }

  predicate NameEntry(r: Rule, kind: RuleKind, name: string) {
    r.kind == kind && r.target == Some(HostnameTarget(name))
  }

  /** A name is allowed exactly when it has its own include and no exclusion of its own, and
      everything it resolved to may be contacted. */
  lemma NameAllowedExactly(name: string, rules: seq<Rule>, resolve: string -> Resolution)
    ensures Decide(Some(HostnameTarget(name)), rules, Some(resolve)).decision == Allowed <==>
              && name !in HARD_DENY_HOSTNAMES
              && (exists r <- rules :: NameEntry(r, Include, name))
              && !(exists r <- rules :: NameEntry(r, Exclude, name))
              && Contactable(resolve(name), rules)
  {
    var t := HostnameTarget(name);
    forall r, kind | r in rules ensures Covers(r, kind, t) <==> NameEntry(r, kind, name) {
    }
  }

  /** An entry that is this origin, or covers its host as an address or as a name. */
  predicate OriginEntry(r: Rule, kind: RuleKind, scheme: Scheme, host: Host, port: nat) {
    || (r.kind == kind && r.target == Some(UrlTarget(scheme, host, port)))
    || match host
       case Literal(version, address) => SpaceEntry(r, kind, Block(version, address, 0))
       case Name(name) => NameEntry(r, kind, name)
  }

  lemma OriginCovers(r: Rule, kind: RuleKind, scheme: Scheme, host: Host, port: nat)
    ensures Covers(r, kind, UrlTarget(scheme, host, port)) <==> OriginEntry(r, kind, scheme, host, port)
  {
  }

  /** An origin is allowed exactly when its host is not denied, some include and no exclusion is
      this origin or covers its host, and a name it needs resolved may be contacted. */
  lemma UrlAllowedExactly(scheme: Scheme, host: Host, port: nat, rules: seq<Rule>, resolver: Resolver)
    ensures Decide(Some(UrlTarget(scheme, host, port)), rules, resolver).decision == Allowed <==>
              && (match host
                  case Literal(version, address) => !InDeniedSpace(version, address)
                  case Name(name) => name !in HARD_DENY_HOSTNAMES)
              && (exists r <- rules :: OriginEntry(r, Include, scheme, host, port))
              && !(exists r <- rules :: OriginEntry(r, Exclude, scheme, host, port))
              && (host.Name? && resolver.Some? ==> Contactable(resolver.value(host.name), rules))
  {
    var t := UrlTarget(scheme, host, port);
    if host.Literal? {
      HardDenialIsSpace(t, Block(host.version, host.address, 0));
      OneAddress(host.version, host.address, Block(host.version, host.address, 0));
    }
    forall r, kind | r in rules ensures Covers(r, kind, t) <==> OriginEntry(r, kind, scheme, host, port) {
      OriginCovers(r, kind, scheme, host, port);
    }
  }

  // ---- order and monotonicity -------------------------------------------------------

  lemma FirstMatchDependsOnMembers(t: Target, kind: RuleKind, rules: seq<Rule>, others: seq<Rule>)
    requires forall r | r in rules && r.kind == kind :: r in others
    ensures FirstMatch(t, kind, rules).Some? ==> FirstMatch(t, kind, others).Some?
  {
    if FirstMatch(t, kind, rules).Some? {
      assert Covers(FirstMatch(t, kind, rules).value, kind, t);
    }
  }

  lemma ExcludedDependsOnMembers(version: Version, address: nat, rules: seq<Rule>, others: seq<Rule>)
    requires forall r | r in rules && r.kind == Exclude :: r in others
    ensures Excluded(version, address, rules) ==> Excluded(version, address, others)
  {
  }

  lemma NamedIgnoresOrder(name: string, rule: Rule, rule': Rule, rules: seq<Rule>, others: seq<Rule>,
                          resolve: string -> Resolution)
    requires forall r :: r in rules <==> r in others
    ensures EvaluateNamed(name, rule, rules, resolve).decision
         == EvaluateNamed(name, rule', others, resolve).decision
  {
    forall version, address: nat
      ensures Excluded(version, address, rules) == Excluded(version, address, others)
    {
      ExcludedDependsOnMembers(version, address, rules, others);
      ExcludedDependsOnMembers(version, address, others, rules);
    }
  }

  lemma CoverageIgnoresOrder(b: Block, rules: seq<Rule>, others: seq<Rule>)
    requires forall r :: r in rules <==> r in others
    ensures AllExcluded(b, rules) == AllExcluded(b, others)
  {
    forall a: nat ensures Excluded(b.version, a, rules) == Excluded(b.version, a, others) {
      ExcludedDependsOnMembers(b.version, a, rules, others);
      ExcludedDependsOnMembers(b.version, a, others, rules);
    }
  }

  lemma MatchesIgnoreOrder(t: Target, kind: RuleKind, rules: seq<Rule>, others: seq<Rule>)
    requires forall r :: r in rules <==> r in others
    ensures FirstMatch(t, kind, rules).Some? <==> FirstMatch(t, kind, others).Some?
  {
    FirstMatchDependsOnMembers(t, kind, rules, others);
    FirstMatchDependsOnMembers(t, kind, others, rules);
  }

  /** The decision depends on which rules there are, not on their order or repetition. */
  lemma DecisionIgnoresOrder(requested: Option<Target>, rules: seq<Rule>, others: seq<Rule>,
                             resolver: Resolver)
    requires forall r :: r in rules <==> r in others
    ensures Decide(requested, rules, resolver).decision == Decide(requested, others, resolver).decision
  {
    if requested.Some? {
      var t := requested.value;
      MatchesIgnoreOrder(t, Include, rules, others);
      MatchesIgnoreOrder(t, Exclude, rules, others);
      if t.NetworkTarget? {
        CoverageIgnoresOrder(t.block, rules, others);
      } else if NameOf(t).Some? && resolver.Some?
                && FirstMatch(t, Include, rules).Some? && FirstMatch(t, Include, others).Some? {
        NamedIgnoresOrder(NameOf(t).value, FirstMatch(t, Include, rules).value,
                          FirstMatch(t, Include, others).value, rules, others, resolver.value);
      }
    }
  }

  /** With more includes or fewer excludes, what was allowed stays allowed. */
  lemma DecisionIsMonotone(requested: Option<Target>, rules: seq<Rule>, looser: seq<Rule>,
                           resolver: Resolver)
    requires forall r | r in rules && r.kind == Include :: r in looser
    requires forall r | r in looser && r.kind == Exclude :: r in rules
    requires Decide(requested, rules, resolver).decision == Allowed
    ensures Decide(requested, looser, resolver).decision == Allowed
  {
    var t := requested.value;
    FirstMatchDependsOnMembers(t, Include, rules, looser);
    FirstMatchDependsOnMembers(t, Exclude, looser, rules);
    assert FirstMatch(t, Include, looser).value in looser;
    forall version, address: nat
      ensures Excluded(version, address, looser) ==> Excluded(version, address, rules)
    {
      ExcludedDependsOnMembers(version, address, looser, rules);
    }
    if t.NetworkTarget? {
      var a: nat :| Contains(t.block, a) && !Excluded(t.block.version, a, rules);
      assert !Excluded(t.block.version, a, looser);
    }
  }

  /** Adding one exclusion anywhere never turns a denial into an allowance. */
  lemma ExclusionOnlyDenies(requested: Option<Target>, before: seq<Rule>, after: seq<Rule>,
                            exclusion: Rule, resolver: Resolver)
    requires exclusion.kind == Exclude
    requires Decide(requested, before + [exclusion] + after, resolver).decision == Allowed
    ensures Decide(requested, before + after, resolver).decision == Allowed
  {
    DecisionIsMonotone(requested, before + [exclusion] + after, before + after, resolver);
  }

  /** Adding one include anywhere never turns an allowance into a denial. */
  lemma InclusionOnlyAllows(requested: Option<Target>, before: seq<Rule>, after: seq<Rule>,
                            inclusion: Rule, resolver: Resolver)
    requires inclusion.kind == Include
    requires Decide(requested, before + after, resolver).decision == Allowed
    ensures Decide(requested, before + [inclusion] + after, resolver).decision == Allowed
  {
    DecisionIsMonotone(requested, before + after, before + [inclusion] + after, resolver);
  }

  // ---- an address and its one-address network -----------------------------------------

  /** An exclusion written as a URL of this address. */
  predicate UrlExclusion(rule: Rule, version: Version, address: nat) {
    && rule.kind == Exclude && rule.target.Some? && rule.target.value.UrlTarget?
    && rule.target.value.host == Literal(version, address)
  }

  lemma OneAddress(version: Version, address: nat, b: Block)
    requires b.version == version
    ensures Contains(b, address) <==> SubnetOf(Block(version, address, 0), b)
    ensures forall a :: Contains(Block(version, address, 0), a) <==> a == address
  {
  }

  /** An address and the network of just that address are decided alike, except exactly when
      an exclusion names the address as a URL: it counts for the network only. */
  lemma AddressAndNetworkDiffer(version: Version, address: nat, rules: seq<Rule>, resolver: Resolver)
    ensures var single := Decide(Some(AddressTarget(version, address)), rules, resolver).decision;
            var network := Decide(Some(NetworkTarget(Block(version, address, 0))), rules, resolver).decision;
            single != network <==>
              AddressPermitted(version, address, rules) && exists r <- rules :: UrlExclusion(r, version, address)
  {
    var b := Block(version, address, 0);
    AddressAllowedExactly(version, address, rules, resolver);
    var t, n := AddressTarget(version, address), NetworkTarget(b);
    SameMatches(t, n, rules, Include);
    SameMatches(t, n, rules, Exclude);
    OneAddress(version, address, b);
    if Decide(Some(t), rules, resolver).decision == Allowed {
      assert AllExcluded(b, rules) <==> Excluded(version, address, rules);
      if Excluded(version, address, rules) {
        var r :| r in rules && r.kind == Exclude && r.target.Some? && Network(r.target.value).Some?
                 && Network(r.target.value).value.version == version
                 && Contains(Network(r.target.value).value, address);
        assert !Covers(r, Exclude, t);
        OneAddress(version, address, Network(r.target.value).value);
        assert UrlExclusion(r, version, address);
      }
      if r :| r in rules && UrlExclusion(r, version, address) {
        assert Contains(Network(r.target.value).value, address);
        assert Excluded(version, address, rules);
      }
    }
  }

  lemma {:induction false} SameMatches(t: Target, n: Target, rules: seq<Rule>, kind: RuleKind)
    requires t.AddressTarget? && n == NetworkTarget(Block(t.version, t.address, 0))
    ensures FirstMatch(t, kind, rules) == FirstMatch(n, kind, rules)
  {
    if rules != [] {
      SameMatches(t, n, rules[1..], kind);
    }
  }

  const LAB_NETWORK := Rule(Include, "10.0.0.0/24", Some(NetworkTarget(Block(V4, 0x0A_00_00, 8))))
  const LAB_ORIGIN :=
    Rule(Exclude, "http://10.0.0.1", Some(UrlTarget(Http, Literal(V4, 0x0A_00_00_01), 80)))

  lemma LabAddressIsCovered()
    ensures !HardDenied(AddressTarget(V4, 0x0A_00_00_01))
    ensures Covers(LAB_NETWORK, Include, AddressTarget(V4, 0x0A_00_00_01))
  {
    assert Pow2(0) == 1;
    assert Pow2(8) == 256;
    assert Pow2(16) == 65_536;
  }

  /** The difference is real: an include of 10.0.0.0/24 and an exclusion of one origin in it. */
  lemma AddressAndNetworkDoDiffer()
    ensures var rules := [LAB_NETWORK, LAB_ORIGIN];
            && Decide(Some(AddressTarget(V4, 0x0A_00_00_01)), rules, None).decision == Allowed
            && Decide(Some(NetworkTarget(Block(V4, 0x0A_00_00_01, 0))), rules, None).decision
               != Allowed
  {
    var rules := [LAB_NETWORK, LAB_ORIGIN];
    var t := AddressTarget(V4, 0x0A_00_00_01);
    LabAddressIsCovered();
    assert rules[0] in rules && rules[1] in rules && rules[1] == LAB_ORIGIN;
    assert FirstMatch(t, Include, rules).Some?;
    assert FirstMatch(t, Exclude, rules).None?;
    assert UrlExclusion(LAB_ORIGIN, V4, 0x0A_00_00_01);
    AddressAndNetworkDiffer(V4, 0x0A_00_00_01, rules, None);
  }
}
