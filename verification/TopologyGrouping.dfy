/**
The GROUP stage: algorithm_server/python/algorithm_worker/algorithms/topology.py, and what the domains built by the
topology compiler say about its groups.
*/
module TopologyGrouping {
  import opened Wrappers
  import opened Text
  import opened Sorting
  import opened LeafDomains
  import opened TopologySource
  import opened TopologyCache
  import opened TopologyResolution
  import opened NodeResolution

  // A Node as the worker sees it: the domain text of each level, and what is left of its resources.
  datatype View = View(uid: string, name: string, domains: map<Level, string>, available: map<string, nat>)

  function Field(n: View, level: Level): string {
    if level in n.domains then n.domains[level] else ""
  }

  // groupId is the level's prefix and the domain; within a level the domain decides it.
  datatype Group = Group(level: Level, order: nat, domain: string, nodes: seq<View>)

  function Levels(mode: Mode): (levels: seq<Level>)
    ensures levels != [] && levels[0] == LeafDomain && forall k :: 0 <= k < |levels| ==> !levels[k].Unknown?
  {
    match mode
    case Layered => [LeafDomain, SpineDomain, BorderDomain, Room, DataCenter]
    case UplinkCompatible => [LeafDomain, UplinkDomain, Room, DataCenter]
  }

  // The position of a level; in uplink-compatible mode spine and border constraints bound the uplink level.
  function Order(mode: Mode, level: Level): (order: Option<nat>)
    ensures order.Some? ==> order.value < |Levels(mode)|
    ensures order.Some? ==>
              Levels(mode)[order.value] == if mode == UplinkCompatible && level in {SpineDomain, BorderDomain} then UplinkDomain else level
    ensures order.None? <==> level.Unknown? || (mode == Layered && level == UplinkDomain)
  {
    match (mode, level)
    case (_, LeafDomain) => Some(0)
    case (Layered, SpineDomain) => Some(1)
    case (Layered, BorderDomain) => Some(2)
    case (Layered, Room) => Some(3)
    case (Layered, DataCenter) => Some(4)
    case (UplinkCompatible, UplinkDomain) => Some(1)
    case (UplinkCompatible, SpineDomain) => Some(1)
    case (UplinkCompatible, BorderDomain) => Some(1)
    case (UplinkCompatible, Room) => Some(2)
    case (UplinkCompatible, DataCenter) => Some(3)
    case _ => None
  }

  // ---- _group: one level ----

  // The domains met, in the order in which they are first met.
  function Seen(nodes: seq<View>, level: Level): seq<string> {
    if nodes == [] then []
    else
      var before, domain := Seen(nodes[..|nodes| - 1], level), Field(nodes[|nodes| - 1], level);
      if domain == "" || domain in before then before else before + [domain]
  }

  function Members(nodes: seq<View>, level: Level, domain: string): seq<View> {
    if nodes == [] then []
    else
      var last := nodes[|nodes| - 1];
      Members(nodes[..|nodes| - 1], level, domain) + if Field(last, level) == domain then [last] else []
  }

  lemma {:induction false} SeenExactly(nodes: seq<View>, level: Level)
    ensures Distinct(Seen(nodes, level))
    ensures forall d :: d in Seen(nodes, level) <==> d != "" && exists n :: n in nodes && Field(n, level) == d
  {
    if nodes != [] {
      var front, last := nodes[..|nodes| - 1], nodes[|nodes| - 1];
      SeenExactly(front, level);
      assert forall n :: n in nodes <==> n in front || n == last;
    }
  }

  lemma {:induction false} MembersExactly(nodes: seq<View>, level: Level, domain: string)
    ensures forall n :: n in Members(nodes, level, domain) <==> n in nodes && Field(n, level) == domain
  {
    if nodes != [] {
      var front, last := nodes[..|nodes| - 1], nodes[|nodes| - 1];
      MembersExactly(front, level, domain);
      assert forall n :: n in nodes <==> n in front || n == last;
    }
  }

  predicate NodeLeq(a: View, b: View) {
    if a.name != b.name then Leq(a.name, b.name) else Leq(a.uid, b.uid)
  }

  function GroupOf(nodes: seq<View>, level: Level, order: nat, domain: string): Group {
    Group(level, order, domain, Sort(NodeLeq, Members(nodes, level, domain)))
  }

  function Grouper(nodes: seq<View>, level: Level, order: nat): string -> Group {
    domain => GroupOf(nodes, level, order, domain)
  }

  function GroupsAt(nodes: seq<View>, level: Level, order: nat): seq<Group> {
    Each(Grouper(nodes, level, order), Sort(Leq, Seen(nodes, level)))
  }

  // grouped.setdefault(domain, []).append(node), with the keys in insertion order.
  method GroupBy(nodes: seq<View>, level: Level) returns (grouped: map<string, seq<View>>, keys: seq<string>)
    ensures keys == Seen(nodes, level)
    ensures forall d :: d in keys ==> d in grouped && grouped[d] == Members(nodes, level, d)
  {
    grouped, keys := map[], [];
    for i := 0 to |nodes|
      invariant keys == Seen(nodes[..i], level)
      invariant "" !in grouped && forall d :: d in grouped <==> d in keys
      invariant forall d :: d in grouped ==> grouped[d] == Members(nodes[..i], level, d)
    {
      assert nodes[..i + 1][..i] == nodes[..i];
      var id := Field(nodes[i], level);
      if id != "" {
        if id !in grouped {
          NoMembers(nodes[..i], level, id);
          grouped, keys := grouped[id := []], keys + [id];
        }
        grouped := grouped[id := grouped[id] + [nodes[i]]];
      }
    }
    assert nodes[..|nodes|] == nodes;
  }

  method GroupLevel(nodes: seq<View>, level: Level, order: nat) returns (groups: seq<Group>)
    ensures groups == GroupsAt(nodes, level, order)
  {
    var grouped, keys := GroupBy(nodes, level);
    SameElements(Leq, keys);
    groups := GroupsInOrder(nodes, level, order, grouped, Sort(Leq, keys));
  }

  method GroupsInOrder(ghost nodes: seq<View>, level: Level, order: nat, grouped: map<string, seq<View>>, domains: seq<string>)
    returns (groups: seq<Group>)
    requires forall d :: d in domains ==> d in grouped && grouped[d] == Members(nodes, level, d)
    ensures groups == Each(Grouper(nodes, level, order), domains)
  {
    groups := [];
    for k := 0 to |domains|
      invariant groups == Each(Grouper(nodes, level, order), domains[..k])
    {
      assert domains[..k + 1][..k] == domains[..k];
      groups := groups + [Group(level, order, domains[k], Sort(NodeLeq, grouped[domains[k]]))];
    }
    assert domains[..|domains|] == domains;
  }

  lemma NoMembers(nodes: seq<View>, level: Level, domain: string)
    requires domain != "" && domain !in Seen(nodes, level)
    ensures Members(nodes, level, domain) == []
  {
    SeenExactly(nodes, level);
    MembersExactly(nodes, level, domain);
    assert forall n :: n !in Members(nodes, level, domain);
    if n :| n in Members(nodes, level, domain) {}
  }

  // Every domain once, in order, each with exactly its nodes.
  ghost predicate Partition(nodes: seq<View>, level: Level, groups: seq<Group>) {
    && (forall k, n :: 0 <= k < |groups| ==> (n in groups[k].nodes <==> n in nodes && Field(n, level) == groups[k].domain))
    && (forall k :: 0 <= k < |groups| ==> groups[k].nodes != [] && groups[k].domain != "" && groups[k].level == level)
    && (forall j, k :: 0 <= j < k < |groups| ==> groups[j].domain != groups[k].domain && Leq(groups[j].domain, groups[k].domain))
    && (forall n :: n in nodes && Field(n, level) != "" ==> exists k :: 0 <= k < |groups| && groups[k].domain == Field(n, level))
  }

  lemma GroupHas(nodes: seq<View>, level: Level, order: nat, domain: string)
    requires domain in Seen(nodes, level)
    ensures var g := GroupOf(nodes, level, order, domain);
            g.nodes != [] && forall n :: n in g.nodes <==> n in nodes && Field(n, level) == domain
  {
    SameElements(NodeLeq, Members(nodes, level, domain));
    SeenExactly(nodes, level);
    MembersExactly(nodes, level, domain);
    var n :| n in nodes && Field(n, level) == domain;
    assert n in Members(nodes, level, domain);
  }

  ghost predicate DomainsOf(nodes: seq<View>, level: Level, domains: seq<string>) {
    && (forall j, k :: 0 <= j < k < |domains| ==> domains[j] != domains[k] && Leq(domains[j], domains[k]))
    && (forall d :: d in domains <==> d in Seen(nodes, level))
  }

  lemma SortedDomains(nodes: seq<View>, level: Level)
    ensures DomainsOf(nodes, level, Sort(Leq, Seen(nodes, level)))
  {
    var seen := Seen(nodes, level);
    SeenExactly(nodes, level);
    SameElements(Leq, seen);
    SortKeepsDistinct(Leq, seen);
    TextOrder();
    SortOrders(Leq, seen);
  }

  lemma GroupsForPartition(nodes: seq<View>, level: Level, order: nat, domains: seq<string>)
    requires DomainsOf(nodes, level, domains)
    ensures Partition(nodes, level, Each(Grouper(nodes, level, order), domains))
  {
    var groups := Each(Grouper(nodes, level, order), domains);
    EachAt(Grouper(nodes, level, order), domains);
    SeenExactly(nodes, level);
    forall k | 0 <= k < |domains|
      ensures groups[k].nodes != [] && forall n :: n in groups[k].nodes <==> n in nodes && Field(n, level) == groups[k].domain
      ensures groups[k].domain == domains[k] != ""
    {
      GroupHas(nodes, level, order, domains[k]);
    }
    forall n | n in nodes && Field(n, level) != ""
      ensures exists k :: 0 <= k < |groups| && groups[k].domain == Field(n, level)
    {
      assert Field(n, level) in domains;
      var k :| 0 <= k < |domains| && domains[k] == Field(n, level);
      assert groups[k].domain == Field(n, level);
    }
  }

  lemma LevelPartition(nodes: seq<View>, level: Level, order: nat)
    ensures Partition(nodes, level, GroupsAt(nodes, level, order))
  {
    SortedDomains(nodes, level);
    GroupsForPartition(nodes, level, order, Sort(Leq, Seen(nodes, level)));
  }

  lemma TextOrder()
    ensures TotalOrder(Leq)
  {
    forall a, b ensures Leq(a, b) || Leq(b, a) { LeqTotal(a, b); }
    forall a, b, c | Leq(a, b) && Leq(b, c) ensures Leq(a, c) { LeqTransitive(a, b, c); }
  }

  // ---- execute: all levels up to the narrowest one constrained ----

  // Constraints name levels; the bound is the least order among them, or the last level.
  function MaxOrder(mode: Mode, constraints: set<Level>): (order: nat)
    requires forall level :: level in constraints ==> Order(mode, level).Some?
    ensures order < |Levels(mode)|
    ensures forall level :: level in constraints ==> order <= Order(mode, level).value
    ensures constraints != {} ==> exists level :: level in constraints && order == Order(mode, level).value
    ensures constraints == {} ==> order == |Levels(mode)| - 1
  {
    if exists level :: level in constraints && Order(mode, level) == Some(0) then 0
    else if exists level :: level in constraints && Order(mode, level) == Some(1) then 1
    else if exists level :: level in constraints && Order(mode, level) == Some(2) then 2
    else if exists level :: level in constraints && Order(mode, level) == Some(3) then 3
    else |Levels(mode)| - 1
  }

  // The groups of each level in turn.
  function Layer(levels: seq<Level>, nodes: seq<View>): nat -> seq<Group> {
    (k: nat) => if k < |levels| then GroupsAt(nodes, levels[k], k) else []
  }

  function GroupsUpTo(levels: seq<Level>, nodes: seq<View>, count: nat): seq<Group>
    requires count <= |levels|
  {
    if count == 0 then [] else GroupsUpTo(levels, nodes, count - 1) + GroupsAt(nodes, levels[count - 1], count - 1)
  }

  lemma {:induction false} UpToIsJoined(levels: seq<Level>, nodes: seq<View>, count: nat)
    requires count <= |levels|
    ensures GroupsUpTo(levels, nodes, count) == Joined(Layer(levels, nodes), count)
  {
    hide GroupsAt;
    if count != 0 {
      UpToIsJoined(levels, nodes, count - 1);
    }
  }

  // The Node's domain at this level; a level it does not name counts as a blank one.
  predicate LiesIn(n: View, level: Level, domain: string) {
    level in n.domains && n.domains[level] == domain && domain != ""
  }

  // By name, then by UID.
  ghost predicate ByName(nodes: seq<View>) {
    forall i, j :: 0 <= i < j < |nodes| ==>
      if nodes[i].name == nodes[j].name then Leq(nodes[i].uid, nodes[j].uid) else Leq(nodes[i].name, nodes[j].name)
  }

  lemma NodeOrder()
    ensures TotalOrder(NodeLeq)
  {
    forall a, b ensures NodeLeq(a, b) || NodeLeq(b, a) { LeqTotal(a.name, b.name); LeqTotal(a.uid, b.uid); }
    forall a, b, c | NodeLeq(a, b) && NodeLeq(b, c) ensures NodeLeq(a, c) { NodeLeqTransitive(a, b, c); }
  }

  lemma NodeLeqTransitive(a: View, b: View, c: View)
    requires NodeLeq(a, b) && NodeLeq(b, c)
    ensures NodeLeq(a, c)
  {
    if a.name != b.name && b.name != c.name {
      LeqTransitive(a.name, b.name, c.name);
      if a.name == c.name { LeqAntisymmetric(a.name, b.name); }
    } else if a.name == b.name == c.name {
      LeqTransitive(a.uid, b.uid, c.uid);
    }
  }

  lemma SortedByName(nodes: seq<View>)
    ensures ByName(Sort(NodeLeq, nodes))
  {
    NodeOrder();
    SortOrders(NodeLeq, nodes);
  }

  // A group of the level at its order: the Nodes that lie in its domain, by name.
  ghost predicate IsGroup(levels: seq<Level>, nodes: seq<View>, g: Group) {
    && g.order < |levels| && g.level == levels[g.order] && g.nodes != [] && ByName(g.nodes)
    && forall n :: n in g.nodes <==> n in nodes && LiesIn(n, g.level, g.domain)
  }

  // All groups are such, and every Node that has a domain at one of the levels is in a group of it.
  ghost predicate AllGrouped(levels: seq<Level>, nodes: seq<View>, count: nat, groups: seq<Group>)
    requires count <= |levels|
  {
    && (forall g :: g in groups ==> g.order < count && IsGroup(levels, nodes, g))
    && (forall k, n, domain :: 0 <= k < count && n in nodes && LiesIn(n, levels[k], domain) ==>
          exists g :: g in groups && g.order == k && g.domain == domain && n in g.nodes)
    && (forall g, h :: g in groups && h in groups && g.order == h.order && g.domain == h.domain ==> g == h)
  }

  // What AllGrouped says of one level.
  ghost predicate LevelDone(levels: seq<Level>, nodes: seq<View>, k: nat, groups: seq<Group>)
    requires k < |levels|
  {
    && (forall g :: g in groups ==> g.order == k && IsGroup(levels, nodes, g))
    && (forall n, domain :: n in nodes && LiesIn(n, levels[k], domain) ==> exists g :: g in groups && g.domain == domain && n in g.nodes)
    && (forall g, h :: g in groups && h in groups && g.domain == h.domain ==> g == h)
  }

  lemma LevelGrouped(levels: seq<Level>, nodes: seq<View>, k: nat)
    requires k < |levels|
    ensures LevelDone(levels, nodes, k, GroupsAt(nodes, levels[k], k))
  {
    hide GroupsAt;
    LevelPartition(nodes, levels[k], k);
    LevelOrder(nodes, levels[k], k);
    PartitionGroups(levels, nodes, k, GroupsAt(nodes, levels[k], k));
  }

  lemma LevelOrder(nodes: seq<View>, level: Level, order: nat)
    ensures forall g :: g in GroupsAt(nodes, level, order) ==> g.order == order && ByName(g.nodes)
  {
    hide Seen, Members, ByName;
    EachAt(Grouper(nodes, level, order), Sort(Leq, Seen(nodes, level)));
    forall domain ensures ByName(GroupOf(nodes, level, order, domain).nodes) {
      SortedByName(Members(nodes, level, domain));
    }
  }

  lemma PartitionGroups(levels: seq<Level>, nodes: seq<View>, k: nat, groups: seq<Group>)
    requires k < |levels| && Partition(nodes, levels[k], groups) && forall g :: g in groups ==> g.order == k && ByName(g.nodes)
    ensures LevelDone(levels, nodes, k, groups)
  {
    hide ByName;
    forall g | g in groups ensures IsGroup(levels, nodes, g) {
      var i :| 0 <= i < |groups| && groups[i] == g;
      assert forall n :: n in groups[i].nodes <==> n in nodes && Field(n, levels[k]) == groups[i].domain;
    }
    forall n, domain | n in nodes && LiesIn(n, levels[k], domain) ensures exists g :: g in groups && g.domain == domain && n in g.nodes {
      var i :| 0 <= i < |groups| && groups[i].domain == Field(n, levels[k]);
      assert groups[i] in groups && n in groups[i].nodes;
    }
    forall g, h | g in groups && h in groups && g.domain == h.domain ensures g == h {
      var i, j :| 0 <= i < |groups| && groups[i] == g && 0 <= j < |groups| && groups[j] == h;
    }
  }

  // Main result: the groups up to a level are exactly the domains of those levels.
  lemma {:induction false} GroupsExactly(levels: seq<Level>, nodes: seq<View>, count: nat)
    requires count <= |levels|
    ensures AllGrouped(levels, nodes, count, GroupsUpTo(levels, nodes, count))
  {
    hide GroupsAt, IsGroup, LiesIn;
    if count != 0 {
      GroupsExactly(levels, nodes, count - 1);
      LevelGrouped(levels, nodes, count - 1);
    }
  }

  method Bound(mode: Mode, constraints: set<Level>) returns (bound: nat)
    requires forall level :: level in constraints ==> Order(mode, level).Some?
    ensures bound == MaxOrder(mode, constraints)
  {
    bound := |Levels(mode)| - 1;
    var todo := constraints;
    while todo != {}
      invariant todo <= constraints && bound < |Levels(mode)|
      invariant forall level :: level in constraints - todo ==> bound <= Order(mode, level).value
      invariant bound == |Levels(mode)| - 1 || exists level :: level in constraints - todo && bound == Order(mode, level).value
      decreases todo
    {
      var level :| level in todo;
      if Order(mode, level).value < bound {
        bound := Order(mode, level).value;
      }
      todo := todo - {level};
    }
    SameBound(mode, constraints, bound);
  }

  // None: a constraint names a level this mode does not have.
  method Execute(mode: Mode, nodes: seq<View>, constraints: set<Level>) returns (groups: Option<seq<Group>>)
    ensures groups.Some? <==> forall level :: level in constraints ==> Order(mode, level).Some?
    ensures groups.Some? ==> groups.value == GroupsUpTo(Levels(mode), nodes, MaxOrder(mode, constraints) + 1)
    ensures groups.Some? ==> AllGrouped(Levels(mode), nodes, MaxOrder(mode, constraints) + 1, groups.value)
  {
    hide AllGrouped, GroupsUpTo;
    if exists level :: level in constraints && Order(mode, level).None? {
      return None;
    }
    var maxOrder := Bound(mode, constraints);
    var result := GroupLevels(Levels(mode), nodes, maxOrder);
    GroupsExactly(Levels(mode), nodes, maxOrder + 1);
    groups := Some(result);
  }

  method GroupLevels(levels: seq<Level>, nodes: seq<View>, maxOrder: nat) returns (groups: seq<Group>)
    requires maxOrder < |levels|
    ensures groups == GroupsUpTo(levels, nodes, maxOrder + 1)
  {
    hide GroupsAt;
    groups := [];
    var index: nat := 0;
    while index < |levels| && index <= maxOrder
      invariant index <= maxOrder + 1
      invariant groups == GroupsUpTo(levels, nodes, index)
      decreases |levels| - index
    {
      var more := GroupLevel(nodes, levels[index], index);
      groups := groups + more;
      index := index + 1;
    }
  }

  lemma SameBound(mode: Mode, constraints: set<Level>, bound: nat)
    requires forall level :: level in constraints ==> Order(mode, level).Some? && bound <= Order(mode, level).value
    requires bound < |Levels(mode)|
    requires bound == |Levels(mode)| - 1 || exists level :: level in constraints && bound == Order(mode, level).value
    ensures bound == MaxOrder(mode, constraints)
  {
  }

  // ---- requiredSame ----

  predicate Shares(g: Group, level: Level) {
    forall a, b :: a in g.nodes && b in g.nodes ==> Field(a, level) == Field(b, level)
  }

  // Among these nodes, one domain at the narrow level lies in one domain at the wide level.
  predicate Nests(nodes: seq<View>, narrow: Level, wide: Level) {
    forall a, b :: a in nodes && b in nodes && Field(a, narrow) != "" && Field(a, narrow) == Field(b, narrow) ==> Field(a, wide) == Field(b, wide)
  }

  ghost predicate AllShare(groups: seq<Group>, wide: Level) {
    forall k :: 0 <= k < |groups| ==> Shares(groups[k], wide)
  }

  lemma SharingNests(nodes: seq<View>, level: Level, groups: seq<Group>, wide: Level)
    requires Partition(nodes, level, groups) && AllShare(groups, wide)
    ensures Nests(nodes, level, wide)
  {
    forall a, b | a in nodes && b in nodes && Field(a, level) != "" && Field(a, level) == Field(b, level)
      ensures Field(a, wide) == Field(b, wide)
    {
      var k :| 0 <= k < |groups| && groups[k].domain == Field(a, level);
      assert Shares(groups[k], wide) && a in groups[k].nodes && b in groups[k].nodes;
    }
  }

  lemma NestingShares(nodes: seq<View>, level: Level, g: Group, wide: Level)
    requires Nests(nodes, level, wide) && g.domain != ""
    requires forall n :: n in g.nodes ==> n in nodes && Field(n, level) == g.domain
    ensures Shares(g, wide)
  {
  }

  lemma LevelSharesExactly(nodes: seq<View>, level: Level, order: nat, wide: Level)
    ensures AllShare(GroupsAt(nodes, level, order), wide) <==> Nests(nodes, level, wide)
  {
    hide GroupsAt;
    LevelPartition(nodes, level, order);
    var groups := GroupsAt(nodes, level, order);
    if AllShare(groups, wide) {
      SharingNests(nodes, level, groups, wide);
    }
    if Nests(nodes, level, wide) {
      forall k | 0 <= k < |groups| ensures Shares(groups[k], wide) {
        NestingShares(nodes, level, groups[k], wide);
      }
    }
  }

  lemma ConcatShares(a: seq<Group>, b: seq<Group>, wide: Level)
    ensures AllShare(a + b, wide) <==> AllShare(a, wide) && AllShare(b, wide)
  {
    if AllShare(a + b, wide) {
      forall k | 0 <= k < |a| ensures Shares(a[k], wide) { assert (a + b)[k] == a[k]; }
      forall k | 0 <= k < |b| ensures Shares(b[k], wide) { assert (a + b)[|a| + k] == b[k]; }
    }
  }

  lemma {:induction false} JoinedShares(at: nat -> seq<Group>, count: nat, wide: Level)
    ensures AllShare(Joined(at, count), wide) <==> forall k :: 0 <= k < count ==> AllShare(at(k), wide)
  {
    if count != 0 {
      JoinedShares(at, count - 1, wide);
      ConcatShares(Joined(at, count - 1), at(count - 1), wide);
    }
  }

  lemma LevelsShareExactly(levels: seq<Level>, nodes: seq<View>, count: nat, wide: Level)
    requires count <= |levels|
    ensures AllShare(GroupsUpTo(levels, nodes, count), wide) <==> forall k :: 0 <= k < count ==> Nests(nodes, levels[k], wide)
  {
    hide GroupsAt;
    var at := Layer(levels, nodes);
    UpToIsJoined(levels, nodes, count);
    JoinedShares(at, count, wide);
    forall k | 0 <= k < count ensures AllShare(at(k), wide) <==> Nests(nodes, levels[k], wide) {
      LevelSharesExactly(nodes, levels[k], k, wide);
    }
  }

  // Main result: in every returned group all nodes share one domain at `wide` exactly when each level that was
  // grouped nests in it. The code does not establish that nesting above leaf level.
  lemma RequiredSameExactly(mode: Mode, nodes: seq<View>, constraints: set<Level>, wide: Level)
    requires forall level :: level in constraints ==> Order(mode, level).Some?
    ensures var maxOrder := MaxOrder(mode, constraints);
            AllShare(GroupsUpTo(Levels(mode), nodes, maxOrder + 1), wide)
            <==> forall k :: 0 <= k <= maxOrder ==> Nests(nodes, Levels(mode)[k], wide)
  {
    hide Levels, GroupsUpTo, AllShare;
    LevelsShareExactly(Levels(mode), nodes, MaxOrder(mode, constraints) + 1, wide);
  }
}
