/** Correlating findings: the exact pairs, the edge budget and the graph they end in. */
module Correlation {
  import opened Wrappers
  import opened SetSizes

  type Id = nat

  datatype AssetKind = Host | Web | Other
  datatype Asset = Asset(id: Id, kind: AssetKind, identity: string, address: Option<string>)
  datatype Finding = Finding(id: Id, asset: Option<Id>)
  datatype Relation = Relation(source: Id, target: Id)

  datatype Kind = SameAsset | RelatedAssets
  datatype Key = Key(source: Id, target: Id, kind: Kind)

  function KeyOf(f: Finding, g: Finding, kind: Kind): (k: Key)
    ensures f.id != g.id ==> k.source < k.target
  {
    if f.id <= g.id then Key(f.id, g.id, kind) else Key(g.id, f.id, kind)
  }

  /** The findings on an asset that cite stored evidence. */
  function Backed(findings: seq<Finding>, cited: set<Id>, asset: Id): (group: seq<Finding>)
    ensures forall f :: f in group <==> f in findings && f.asset == Some(asset) && f.id in cited
  {
    if findings == [] then []
    else
      (if findings[0].asset == Some(asset) && findings[0].id in cited then [findings[0]] else [])
      + Backed(findings[1..], cited, asset)
  }

  /** Two different findings, both with evidence, on one asset or across a relation. */
  predicate Correlated(f: Finding, g: Finding, kind: Kind, cited: set<Id>, relations: seq<Relation>) {
    && f.id != g.id && f.id in cited && g.id in cited && f.asset.Some? && g.asset.Some?
    && match kind
       case SameAsset => f.asset == g.asset
       case RelatedAssets => Relation(f.asset.value, g.asset.value) in relations
  }

  function AllPairs(findings: seq<Finding>, cited: set<Id>, relations: seq<Relation>): set<Key> {
    set f, g, kind | f in findings && g in findings && kind in {SameAsset, RelatedAssets}
                     && Correlated(f, g, kind, cited, relations) :: KeyOf(f, g, kind)
  }

  function Elements<T>(xs: seq<T>): set<T> {
    set x | x in xs
  }

  lemma {:induction false} DistinctSize<T>(xs: seq<T>)
    requires Distinct(xs)
    ensures |Elements(xs)| == |xs|
  {
    if xs != [] {
      DistinctSize(xs[1..]);
      assert Elements(xs) == {xs[0]} + Elements(xs[1..]);
      assert xs[0] !in Elements(xs[1..]);
    }
  }

  /** Rows without repetition, all of them wanted and within the limit. */
  predicate Sound(rows: seq<Key>, all: set<Key>, limit: nat) {
    Distinct(rows) && (forall k | k in rows :: k in all) && |rows| <= limit
  }

  predicate Grown(before: seq<Key>, rows: seq<Key>, all: set<Key>, limit: nat) {
    Sound(rows, all, limit) && forall k | k in before :: k in rows
  }

  method Add(before: seq<Key>, f: Finding, g: Finding, kind: Kind, ghost all: set<Key>, limit: nat)
    returns (rows: Option<seq<Key>>)
    requires Sound(before, all, limit) && (f.id != g.id ==> KeyOf(f, g, kind) in all)
    ensures rows.None? ==> |all| > limit
    ensures rows.Some? ==> Grown(before, rows.value, all, limit) && (f.id != g.id ==> KeyOf(f, g, kind) in rows.value)
  {
    var key := KeyOf(f, g, kind);
    if f.id == g.id || key in before {
      return Some(before);
    }
    if |before| >= limit {
      DistinctSize(before + [key]);
      SubsetSize(Elements(before + [key]), all);
      return None;
    }
    rows := Some(before + [key]);
  }

  method PairsWithin(before: seq<Key>, group: seq<Finding>, ghost all: set<Key>, limit: nat)
    returns (rows: Option<seq<Key>>)
    requires Sound(before, all, limit)
    requires forall f, g | f in group && g in group && f.id != g.id :: KeyOf(f, g, SameAsset) in all
    ensures rows.None? ==> |all| > limit
    ensures rows.Some? ==> Grown(before, rows.value, all, limit)
    ensures rows.Some? ==> forall i, j | 0 <= i < j < |group| && group[i].id != group[j].id ::
                             KeyOf(group[i], group[j], SameAsset) in rows.value
  {
    rows := Some(before);
    for i := 0 to |group|
      invariant rows.Some? && Grown(before, rows.value, all, limit)
      invariant forall k, j | 0 <= k < i && k < j < |group| && group[k].id != group[j].id ::
                  KeyOf(group[k], group[j], SameAsset) in rows.value
    {
      rows := PairsFor(rows.value, group[i], group[i + 1..], SameAsset, all, limit);
      if rows.None? {
        return;
      }
      assert forall j | i < j < |group| :: group[i + 1..][j - i - 1] == group[j];
    }
  }

  method PairsFor(before: seq<Key>, f: Finding, group: seq<Finding>, kind: Kind, ghost all: set<Key>, limit: nat)
    returns (rows: Option<seq<Key>>)
    requires Sound(before, all, limit)
    requires forall g | g in group && f.id != g.id :: KeyOf(f, g, kind) in all
    ensures rows.None? ==> |all| > limit
    ensures rows.Some? ==> Grown(before, rows.value, all, limit)
    ensures rows.Some? ==> forall g | g in group && f.id != g.id :: KeyOf(f, g, kind) in rows.value
  {
    rows := Some(before);
    for j := 0 to |group|
      invariant rows.Some? && Grown(before, rows.value, all, limit)
      invariant forall k | 0 <= k < j && f.id != group[k].id :: KeyOf(f, group[k], kind) in rows.value
    {
      rows := Add(rows.value, f, group[j], kind, all, limit);
      if rows.None? {
        return;
      }
    }
  }

  method PairsAcross(before: seq<Key>, lefts: seq<Finding>, rights: seq<Finding>, ghost all: set<Key>, limit: nat)
    returns (rows: Option<seq<Key>>)
    requires Sound(before, all, limit)
    requires forall f, g | f in lefts && g in rights && f.id != g.id :: KeyOf(f, g, RelatedAssets) in all
    ensures rows.None? ==> |all| > limit
    ensures rows.Some? ==> Grown(before, rows.value, all, limit)
    ensures rows.Some? ==> forall f, g | f in lefts && g in rights && f.id != g.id ::
                             KeyOf(f, g, RelatedAssets) in rows.value
  {
    rows := Some(before);
    for i := 0 to |lefts|
      invariant rows.Some? && Grown(before, rows.value, all, limit)
      invariant forall k, g | 0 <= k < i && g in rights && lefts[k].id != g.id ::
                  KeyOf(lefts[k], g, RelatedAssets) in rows.value
    {
      rows := PairsFor(rows.value, lefts[i], rights, RelatedAssets, all, limit);
      if rows.None? {
        return;
      }
    }
  }

  /** The assets that carry evidence-backed findings, each once. */
  method AssetsOf(findings: seq<Finding>, cited: set<Id>) returns (assets: seq<Id>)
    ensures forall f | f in findings && f.asset.Some? && f.id in cited :: f.asset.value in assets
  {
    assets := [];
    for i := 0 to |findings|
      invariant forall k | 0 <= k < i && findings[k].asset.Some? && findings[k].id in cited ::
                  findings[k].asset.value in assets
    {
      var f := findings[i];
      if f.asset.Some? && f.id in cited && f.asset.value !in assets {
        assets := assets + [f.asset.value];
      }
    }
  }

  method AllWithin(findings: seq<Finding>, cited: set<Id>, assets: seq<Id>, ghost all: set<Key>, limit: nat)
    returns (rows: Option<seq<Key>>)
    requires forall asset | asset in assets :: SamePairsAre(findings, cited, asset, all)
    ensures rows.None? ==> |all| > limit
    ensures rows.Some? ==> Sound(rows.value, all, limit)
    ensures rows.Some? ==> forall k | 0 <= k < |assets| :: SamePairsIn(findings, cited, assets[k], rows.value)
  {
    rows := Some([]);
    for i := 0 to |assets|
      invariant rows.Some? && Sound(rows.value, all, limit)
      invariant forall k | 0 <= k < i :: SamePairsIn(findings, cited, assets[k], rows.value)
    {
      ghost var before := rows.value;
      var group := Backed(findings, cited, assets[i]);
      assert SamePairsAre(findings, cited, assets[i], all);
      rows := PairsWithin(rows.value, group, all, limit);
      if rows.None? {
        return;
      }
      EitherOrder(group, rows.value);
      forall k | 0 <= k < i ensures SamePairsIn(findings, cited, assets[k], rows.value) {
        assert SamePairsIn(findings, cited, assets[k], before);
      }
    }
  }

  method AllAcross(before: seq<Key>, findings: seq<Finding>, cited: set<Id>, relations: seq<Relation>,
                   ghost all: set<Key>, limit: nat)
    returns (rows: Option<seq<Key>>)
    requires Sound(before, all, limit)
    requires forall r | r in relations :: RelatedPairsAre(findings, cited, r, all)
    ensures rows.None? ==> |all| > limit
    ensures rows.Some? ==> Grown(before, rows.value, all, limit)
    ensures rows.Some? ==> forall k | 0 <= k < |relations| :: RelatedPairsIn(findings, cited, relations[k], rows.value)
  {
    rows := Some(before);
    for i := 0 to |relations|
      invariant rows.Some? && Grown(before, rows.value, all, limit)
      invariant forall k | 0 <= k < i :: RelatedPairsIn(findings, cited, relations[k], rows.value)
    {
      ghost var earlier := rows.value;
      var lefts := Backed(findings, cited, relations[i].source);
      var rights := Backed(findings, cited, relations[i].target);
      assert RelatedPairsAre(findings, cited, relations[i], all);
      rows := PairsAcross(rows.value, lefts, rights, all, limit);
      if rows.None? {
        return;
      }
      forall k | 0 <= k < i ensures RelatedPairsIn(findings, cited, relations[k], rows.value) {
        assert RelatedPairsIn(findings, cited, relations[k], earlier);
      }
    }
  }

  /** Each correlated pair once, or nothing when there are more than the limit. */
  method FindingCorrelations(findings: seq<Finding>, cited: set<Id>, relations: seq<Relation>, limit: nat)
    returns (rows: Option<seq<Key>>)
    ensures rows.Some? <==> |AllPairs(findings, cited, relations)| <= limit
    ensures rows.Some? ==> Distinct(rows.value) && Elements(rows.value) == AllPairs(findings, cited, relations)
  {
    ghost var all := AllPairs(findings, cited, relations);
    var assets := AssetsOf(findings, cited);
    GroupsAreWanted(findings, cited, relations);
    rows := AllWithin(findings, cited, assets, all, limit);
    if rows.None? {
      return;
    }
    ghost var within := rows.value;
    rows := AllAcross(rows.value, findings, cited, relations, all, limit);
    if rows.None? {
      return;
    }
    forall k | 0 <= k < |assets| ensures SamePairsIn(findings, cited, assets[k], rows.value) {
      assert SamePairsIn(findings, cited, assets[k], within);
    }
    EverythingFound(findings, cited, relations, assets, rows.value);
    DistinctSize(rows.value);
    assert Elements(rows.value) == all;
  }

  ghost predicate SamePairsAre(findings: seq<Finding>, cited: set<Id>, asset: Id, all: set<Key>) {
    var group := Backed(findings, cited, asset);
    forall f, g | f in group && g in group && f.id != g.id :: KeyOf(f, g, SameAsset) in all
  }

  ghost predicate RelatedPairsAre(findings: seq<Finding>, cited: set<Id>, r: Relation, all: set<Key>) {
    forall f, g | f in Backed(findings, cited, r.source) && g in Backed(findings, cited, r.target) && f.id != g.id ::
      KeyOf(f, g, RelatedAssets) in all
  }

  lemma GroupsAreWanted(findings: seq<Finding>, cited: set<Id>, relations: seq<Relation>)
    ensures var all := AllPairs(findings, cited, relations);
            && (forall asset :: SamePairsAre(findings, cited, asset, all))
            && (forall r | r in relations :: RelatedPairsAre(findings, cited, r, all))
  {
    forall f, g | Correlated(f, g, SameAsset, cited, relations) && f in findings && g in findings
      ensures KeyOf(f, g, SameAsset) in AllPairs(findings, cited, relations)
    {
    }
    forall f, g | Correlated(f, g, RelatedAssets, cited, relations) && f in findings && g in findings
      ensures KeyOf(f, g, RelatedAssets) in AllPairs(findings, cited, relations)
    {
    }
  }

  ghost predicate SamePairsIn(findings: seq<Finding>, cited: set<Id>, asset: Id, rows: seq<Key>) {
    var group := Backed(findings, cited, asset);
    forall f, g | f in group && g in group && f.id != g.id :: KeyOf(f, g, SameAsset) in rows
  }

  ghost predicate RelatedPairsIn(findings: seq<Finding>, cited: set<Id>, r: Relation, rows: seq<Key>) {
    forall f, g | f in Backed(findings, cited, r.source) && g in Backed(findings, cited, r.target) && f.id != g.id ::
      KeyOf(f, g, RelatedAssets) in rows
  }

  lemma EitherOrder(group: seq<Finding>, rows: seq<Key>)
    requires forall i, j | 0 <= i < j < |group| && group[i].id != group[j].id ::
               KeyOf(group[i], group[j], SameAsset) in rows
    ensures forall f, g | f in group && g in group && f.id != g.id :: KeyOf(f, g, SameAsset) in rows
  {
    forall f, g | f in group && g in group && f.id != g.id ensures KeyOf(f, g, SameAsset) in rows {
      var i :| 0 <= i < |group| && group[i] == f;
      var j :| 0 <= j < |group| && group[j] == g;
      assert i != j && KeyOf(f, g, SameAsset) == KeyOf(g, f, SameAsset);
      if i < j {
        assert KeyOf(group[i], group[j], SameAsset) in rows;
      } else {
        assert KeyOf(group[j], group[i], SameAsset) in rows;
      }
    }
  }

  lemma EverythingFound(findings: seq<Finding>, cited: set<Id>, relations: seq<Relation>, assets: seq<Id>,
                        rows: seq<Key>)
    requires forall f | f in findings && f.asset.Some? && f.id in cited :: f.asset.value in assets
    requires forall k | 0 <= k < |assets| :: SamePairsIn(findings, cited, assets[k], rows)
    requires forall k | 0 <= k < |relations| :: RelatedPairsIn(findings, cited, relations[k], rows)
    ensures AllPairs(findings, cited, relations) <= Elements(rows)
  {
    forall key | key in AllPairs(findings, cited, relations) ensures key in rows {
      var f, g, kind :| f in findings && g in findings && kind in {SameAsset, RelatedAssets}
                        && Correlated(f, g, kind, cited, relations) && key == KeyOf(f, g, kind);
      if kind == SameAsset {
        var k :| 0 <= k < |assets| && assets[k] == f.asset.value;
        assert SamePairsIn(findings, cited, assets[k], rows);
      } else {
        var k :| 0 <= k < |relations| && relations[k] == Relation(f.asset.value, g.asset.value);
        assert RelatedPairsIn(findings, cited, relations[k], rows);
      }
    }
  }

  // ---- relations between assets ------------------------------------------------------

  /** The last host recorded under its own address. */
  function HostAt(assets: seq<Asset>, address: string): (host: Option<Asset>)
    ensures host.Some? ==> host.value in assets && host.value.kind == Host
                           && host.value.identity == address && host.value.address == Some(address)
  {
    if assets == [] then None
    else
      var later := HostAt(assets[1..], address);
      if later.Some? then later
      else if assets[0].kind == Host && assets[0].identity == address && assets[0].address == Some(address)
      then Some(assets[0])
      else None
  }

  /** A web asset with an address on record, where a host is, and with stored evidence for it. */
  predicate Observed(web: Asset, assets: seq<Asset>, evidenced: set<Id>) {
    web.kind == Web && web.address.Some? && web.address.value != "" && web.id in evidenced &&
    HostAt(assets, web.address.value).Some? && HostAt(assets, web.address.value).value.id != web.id
  }

  /** The observed web assets among some, in their order. */
  function ObservedWebs(some: seq<Asset>, assets: seq<Asset>, evidenced: set<Id>): (webs: seq<Asset>)
    ensures forall web :: web in webs <==> web in some && Observed(web, assets, evidenced)
  {
    if some == [] then []
    else
      var last := some[|some| - 1];
      assert some == some[..|some| - 1] + [last];
      ObservedWebs(some[..|some| - 1], assets, evidenced)
      + if Observed(last, assets, evidenced) then [last] else []
  }

  function RelationOf(web: Asset, assets: seq<Asset>, evidenced: set<Id>): Relation
    requires Observed(web, assets, evidenced)
  {
    Relation(web.id, HostAt(assets, web.address.value).value.id)
  }

  /** One relation for each observed web asset, to the host at its address. */
  predicate AreRelations(relations: seq<Relation>, webs: seq<Asset>, assets: seq<Asset>, evidenced: set<Id>)
    requires forall web <- webs :: Observed(web, assets, evidenced)
  {
    && |relations| == |webs|
    && forall i | 0 <= i < |webs| :: relations[i] == RelationOf(webs[i], assets, evidenced)
  }

  /** The relation joins two different assets of the list. */
  predicate JoinsAssets(r: Relation, assets: seq<Asset>) {
    && r.source != r.target
    && (exists a <- assets :: a.id == r.source) && (exists a <- assets :: a.id == r.target)
  }

  method AssetRelationships(assets: seq<Asset>, evidenced: set<Id>) returns (relations: seq<Relation>)
    ensures AreRelations(relations, ObservedWebs(assets, assets, evidenced), assets, evidenced)
    ensures forall r <- relations :: JoinsAssets(r, assets)
  {
    relations := [];
    for i := 0 to |assets|
      invariant AreRelations(relations, ObservedWebs(assets[..i], assets, evidenced), assets, evidenced)
    {
      var web := assets[i];
      assert assets[..i + 1] == assets[..i] + [web] && assets[..i + 1][..i] == assets[..i];
      if Observed(web, assets, evidenced) {
        relations := relations + [RelationOf(web, assets, evidenced)];
      }
    }
    assert assets[..|assets|] == assets;
    RelationsJoinAssets(relations, ObservedWebs(assets, assets, evidenced), assets, evidenced);
  }

  lemma RelationsJoinAssets(relations: seq<Relation>, webs: seq<Asset>, assets: seq<Asset>, evidenced: set<Id>)
    requires forall web <- webs :: web in assets && Observed(web, assets, evidenced)
    requires AreRelations(relations, webs, assets, evidenced)
    ensures forall r <- relations :: JoinsAssets(r, assets)
  {
    forall i | 0 <= i < |relations| ensures JoinsAssets(relations[i], assets)
    {
      var web := webs[i];
      assert web in webs && HostAt(assets, web.address.value).value in assets;
    }
  }

  // ---- one run ----------------------------------------------------------------------

  datatype Node = AssetNode(id: Id) | FindingNode(id: Id)
  datatype Edge = Edge(source: Node, target: Node)
  datatype Graph = Graph(nodes: set<Node>, related: seq<Edge>, subjects: seq<Edge>, correlated: seq<Edge>)
  datatype Limits = Limits(assets: nat, findings: nat, edges: nat)

  predicate IsSubject(f: Finding, cited: set<Id>) { f.asset.Some? && f.id in cited }

  function Subjects(findings: seq<Finding>, cited: set<Id>): (subjects: seq<Finding>)
    ensures forall f :: f in subjects <==> f in findings && IsSubject(f, cited)
  {
    if findings == [] then []
    else (if IsSubject(findings[0], cited) then [findings[0]] else []) + Subjects(findings[1..], cited)
  }

  /** The run is rejected exactly when an input or the three kinds of edges together are too many. */
  method Perform(assets: seq<Asset>, findings: seq<Finding>, cited: set<Id>, evidenced: set<Id>, limits: Limits)
    returns (relations: seq<Relation>, rows: Option<seq<Key>>)
    ensures |assets| <= limits.assets && |findings| <= limits.findings ==>
              AreRelations(relations, ObservedWebs(assets, assets, evidenced), assets, evidenced)
    ensures rows.Some? ==> Distinct(rows.value) && Elements(rows.value) == AllPairs(findings, cited, relations)
    ensures rows.Some? <==>
              && |assets| <= limits.assets && |findings| <= limits.findings
              && |ObservedWebs(assets, assets, evidenced)| + |Subjects(findings, cited)|
                 + |AllPairs(findings, cited, relations)| <= limits.edges
  {
    relations, rows := [], None;
    if |assets| > limits.assets || |findings| > limits.findings {
      return;
    }
    relations := AssetRelationships(assets, evidenced);
    var fixedEdges := |relations| + |Subjects(findings, cited)|;
    if fixedEdges <= limits.edges {
      rows := FindingCorrelations(findings, cited, relations, limits.edges - fixedEdges);
    }
  }

  function GraphOf(assets: seq<Asset>, findings: seq<Finding>, cited: set<Id>, relations: seq<Relation>,
                   rows: seq<Key>): Graph {
    var subjects := Subjects(findings, cited);
    Graph((set a | a in assets :: AssetNode(a.id)) + (set f | f in findings :: FindingNode(f.id)),
          seq(|relations|, i requires 0 <= i < |relations| =>
            Edge(AssetNode(relations[i].source), AssetNode(relations[i].target))),
          seq(|subjects|, i requires 0 <= i < |subjects| =>
            assert subjects[i] in subjects;
            Edge(AssetNode(subjects[i].asset.value), FindingNode(subjects[i].id))),
          seq(|rows|, i requires 0 <= i < |rows| =>
            Edge(FindingNode(rows[i].source), FindingNode(rows[i].target))))
  }

  predicate Joins(e: Edge, nodes: set<Node>) { e.source in nodes && e.target in nodes }

  predicate Joined(g: Graph) {
    && (forall e | e in g.related :: Joins(e, g.nodes))
    && (forall e | e in g.subjects :: Joins(e, g.nodes))
    && (forall e | e in g.correlated :: Joins(e, g.nodes))
  }

  /** Every edge joins two listed nodes exactly when the evidence-backed findings name listed assets. */
  lemma GraphIsJoined(assets: seq<Asset>, findings: seq<Finding>, cited: set<Id>, relations: seq<Relation>,
                      rows: seq<Key>)
    requires Elements(rows) == AllPairs(findings, cited, relations)
    requires forall r <- relations :: JoinsAssets(r, assets)
    ensures Joined(GraphOf(assets, findings, cited, relations, rows)) <==>
              forall f | f in findings && IsSubject(f, cited) :: exists a <- assets :: a.id == f.asset.value
  {
    var g := GraphOf(assets, findings, cited, relations, rows);
    var subjects := Subjects(findings, cited);
    forall e | e in g.correlated ensures Joins(e, g.nodes) {
      var i :| 0 <= i < |rows| && g.correlated[i] == e;
      assert rows[i] in Elements(rows) && rows[i] in AllPairs(findings, cited, relations);
    }
    forall e | e in g.related ensures Joins(e, g.nodes) {
      var i :| 0 <= i < |relations| && g.related[i] == e;
      assert relations[i] in relations;
    }
    if Joined(g) {
      forall f | f in findings && IsSubject(f, cited) ensures exists a <- assets :: a.id == f.asset.value {
        var i :| 0 <= i < |subjects| && subjects[i] == f;
        assert g.subjects[i] in g.subjects;
      }
    }
  }
}
