/**
Joining Nodes to the compiled topology (ResolveNodes in algorithm_server/go/topology/resolver.go) and the filter that
the Python worker applies to the joined Nodes (_matches_topology in
algorithm_server/python/algorithm_worker/services/node_view_builder.py).
*/
module NodeResolution {
  import opened Wrappers
  import opened Text
  import opened LeafDomains
  import opened TopologySource
  import opened TopologyCache
  import opened TopologyResolution

  // The leaf fields of a Node as observed: leafSwitchIds is a list, absent, or something else.
  datatype LeafList = Listed(values: seq<string>) | Absent | Malformed
  datatype Observed = Observed(leafSwitchIds: LeafList, leafSwitchId: string, switchId: string)

  // The domain fields of a joined Node, and its leaves.
  datatype NodeTopology = NodeTopology(
    region: string, location: string, dataCenter: string, room: string, leafDomain: Id, leafDomainLeaves: set<string>,
    spineDomain: Id, borderDomain: Id, uplinkDomain: Id, leaves: set<string>)

  datatype Outcome =
    | Resolved(topology: NodeTopology)
    | InvalidLeafSet
    | LeafAbsent
    | LeafDomainConflict
    | UplinkConflict

  // ---- The leaves of a Node ----

  function Reported(o: Observed): seq<string> {
    if o.leafSwitchIds.Listed? && o.leafSwitchIds.values != [] then o.leafSwitchIds.values
    else if o.leafSwitchId != "" then [o.leafSwitchId]
    else [o.switchId]
  }

  function Elements(s: seq<string>): set<string> {
    set v | v in s
  }

  function LeafIds(o: Observed): set<string> {
    Unique(Elements(Reported(o)))
  }

  method TrimmedSet(values: seq<string>) returns (found: set<string>)
    ensures found == Unique(Elements(values))
  {
    found := {};
    for i := 0 to |values|
      invariant found == Unique(Elements(values[..i]))
    {
      UniqueAdd(Elements(values[..i]), values[i]);
      ElementsStep(values, i);
      var value := Trim(values[i]);
      if value != "" {
        found := found + {value};
      }
    }
    assert values[..|values|] == values;
  }

  lemma ElementsStep(values: seq<string>, i: nat)
    requires i < |values|
    ensures Elements(values[..i + 1]) == Elements(values[..i]) + {values[i]}
  {
    assert values[..i + 1] == values[..i] + [values[i]];
  }

  // None: the Node has no usable leaf set. The ids come in the order of sortedKeys.
  method NodeLeafIds(o: Observed) returns (ids: Option<seq<string>>)
    ensures ids.Some? <==> !o.leafSwitchIds.Malformed? && 1 <= |LeafIds(o)| <= 2
    ensures ids.Some? ==> |ids.value| == |LeafIds(o)| && (forall id :: id in ids.value <==> id in LeafIds(o)) && Increasing(ids.value)
  {
    if o.leafSwitchIds.Malformed? {
      return None;
    }
    var values := if o.leafSwitchIds.Listed? then o.leafSwitchIds.values else [];
    if values == [] {
      values := if o.leafSwitchId != "" then [o.leafSwitchId] else [o.switchId];
    }
    assert values == Reported(o);
    var found := TrimmedSet(values);
    if found == {} || |found| > 2 {
      return None;
    }
    var listed := OneOrTwo(found);
    ids := Some(listed);
  }

  predicate Increasing(ids: seq<string>) {
    forall i, j :: 0 <= i <= j < |ids| ==> Leq(ids[i], ids[j])
  }

  method OneOrTwo(s: set<string>) returns (r: seq<string>)
    requires 1 <= |s| <= 2
    ensures |r| == |s| && (forall x :: x in r <==> x in s) && Increasing(r)
  {
    var first :| first in s;
    var rest := s - {first};
    assert s == {first} + rest;
    LeqTotal(first, first);
    if rest == {} {
      r := [first];
    } else {
      var second :| second in rest;
      assert |rest - {second}| == 0;
      assert rest == {second} + (rest - {second}) == {second};
      LeqTotal(second, second);
      LeqTotal(first, second);
      r := if Leq(first, second) then [first, second] else [second, first];
    }
  }

  lemma UniqueAdd(values: set<string>, v: string)
    ensures Unique(values + {v}) == Unique(values) + if Trim(v) == "" then {} else {Trim(v)}
  {
    assert forall w :: w in values ==> w in values + {v};
    assert v in values + {v};
  }

  // ---- Joining one Node ----

  function TopologyOf(leaf: Leaf, leaves: set<string>): NodeTopology {
    NodeTopology(leaf.region, leaf.location, leaf.dataCenter, leaf.room, leaf.leafDomain, leaf.leafDomainLeaves,
                 leaf.spineDomain, leaf.borderDomain, leaf.uplinkDomain, leaves)
  }

  predicate Agrees(mode: Mode, first: Leaf, leaf: Leaf) {
    leaf.leafDomain == first.leafDomain && SameUplink(mode, leaf, first)
  }

  // What the scan of a Node's leaves decides when `first` is the leaf it takes first.
  ghost predicate Decided(cache: Cache, o: Observed, first: string, outcome: Outcome) {
    if o.leafSwitchIds.Malformed? || !(1 <= |LeafIds(o)| <= 2) then outcome == InvalidLeafSet
    else if !(LeafIds(o) <= cache.byLeaf.Keys) then outcome == LeafAbsent
    else
      && first in LeafIds(o)
      && match outcome
         case Resolved(topology) =>
           && topology == TopologyOf(cache.byLeaf[first], LeafIds(o))
           && forall id :: id in LeafIds(o) ==> Agrees(cache.mode, cache.byLeaf[first], cache.byLeaf[id])
         case LeafDomainConflict =>
           exists id :: id in LeafIds(o) && cache.byLeaf[id].leafDomain != cache.byLeaf[first].leafDomain
         case UplinkConflict =>
           exists id :: id in LeafIds(o) && cache.byLeaf[id].leafDomain == cache.byLeaf[first].leafDomain
                        && !SameUplink(cache.mode, cache.byLeaf[id], cache.byLeaf[first])
         case _ => false
  }

  // With the least leaf id taken first.
  ghost predicate DecidedInOrder(cache: Cache, o: Observed, outcome: Outcome) {
    exists first :: Decided(cache, o, first, outcome) && First(LeafIds(o), first)
  }

  ghost predicate First(ids: set<string>, first: string) {
    first in ids ==> forall id :: id in ids ==> Leq(first, id)
  }

  lemma NoEmptyId(o: Observed)
    ensures "" !in LeafIds(o)
  {
  }

  lemma FirstIsLeast(o: Observed, ids: seq<string>)
    requires ids != [] && Increasing(ids) && forall id :: id in ids <==> id in LeafIds(o)
    ensures First(LeafIds(o), ids[0])
  {
    hide LeafIds, Leq;
  }

  method ResolveNode(cache: Cache, o: Observed) returns (outcome: Outcome)
    ensures DecidedInOrder(cache, o, outcome)
  {
    NoEmptyId(o);
    hide LeafIds;
    var ids := NodeLeafIds(o);
    if ids.None? {
      assert Decided(cache, o, "", InvalidLeafSet) && First(LeafIds(o), "");
      return InvalidLeafSet;
    }
    var leafIds := ids.value;
    var leaves: seq<Leaf> := [];
    for i := 0 to |leafIds|
      invariant |leaves| == i
      invariant forall k :: 0 <= k < i ==> leafIds[k] in cache.byLeaf && leaves[k] == cache.byLeaf[leafIds[k]]
    {
      if leafIds[i] !in cache.byLeaf {
        assert leafIds[i] in LeafIds(o);
        assert Decided(cache, o, "", LeafAbsent) && First(LeafIds(o), "");
        return LeafAbsent;
      }
      leaves := leaves + [cache.byLeaf[leafIds[i]]];
    }
    assert LeafIds(o) <= cache.byLeaf.Keys;
    ghost var first := leafIds[0];
    FirstIsLeast(o, leafIds);
    var leaf := leaves[0];
    for i := 1 to |leaves|
      invariant forall k :: 0 <= k < i ==> Agrees(cache.mode, leaf, leaves[k])
    {
      assert leafIds[i] in LeafIds(o) && leaves[i] == cache.byLeaf[leafIds[i]];
      if leaves[i].leafDomain != leaf.leafDomain {
        assert Decided(cache, o, first, LeafDomainConflict);
        return LeafDomainConflict;
      }
      if cache.mode == UplinkCompatible && leaves[i].uplinkDomain != leaf.uplinkDomain {
        assert Decided(cache, o, first, UplinkConflict);
        return UplinkConflict;
      }
      if cache.mode == Layered && (leaves[i].spineDomain != leaf.spineDomain || leaves[i].borderDomain != leaf.borderDomain) {
        assert Decided(cache, o, first, UplinkConflict);
        return UplinkConflict;
      }
    }
    forall id | id in LeafIds(o) ensures Agrees(cache.mode, leaf, cache.byLeaf[id]) {
      var k :| 0 <= k < |leafIds| && leafIds[k] == id;
    }
    outcome := Resolved(TopologyOf(leaf, LeafIds(o)));
    assert Decided(cache, o, first, outcome);
  }

  lemma SameTopology(a: Leaf, b: Leaf, leaves: set<string>)
    requires SameDomains(a, b)
    ensures TopologyOf(a, leaves) == TopologyOf(b, leaves)
  {
  }

  // The leaf ids are the trimmed texts, blank ones left out, of the list if it has any, else of the single leaf id if
  // it has one, else of the switch id.
  lemma LeafIdsExactly(o: Observed, id: string)
    ensures id in LeafIds(o) <==>
            && id != ""
            && exists raw :: Trim(raw) == id &&
                 if o.leafSwitchIds.Listed? && |o.leafSwitchIds.values| > 0 then raw in o.leafSwitchIds.values
                 else if |o.leafSwitchId| > 0 then raw == o.leafSwitchId else raw == o.switchId
  {
    hide Trim;
  }

  // A joined Node has every field of the leaf taken first, and its leaves are of one leaf domain and one uplink: the
  // uplink domain in uplink-compatible mode, spine and border domain in layered mode.
  lemma JoinedFields(cache: Cache, o: Observed, first: string, outcome: Outcome)
    requires Decided(cache, o, first, outcome) && outcome.Resolved?
    ensures first in LeafIds(o) && LeafIds(o) <= cache.byLeaf.Keys
    ensures var leaf, t := cache.byLeaf[first], outcome.topology;
            && t.region == leaf.region && t.location == leaf.location && t.dataCenter == leaf.dataCenter && t.room == leaf.room
            && t.leafDomain == leaf.leafDomain && t.leafDomainLeaves == leaf.leafDomainLeaves
            && t.spineDomain == leaf.spineDomain && t.borderDomain == leaf.borderDomain && t.uplinkDomain == leaf.uplinkDomain
            && t.leaves == LeafIds(o)
    ensures forall a :: a in LeafIds(o) ==>
              var x, y := cache.byLeaf[a], cache.byLeaf[first];
              && x.leafDomain == y.leafDomain
              && (cache.mode == UplinkCompatible ==> x.uplinkDomain == y.uplinkDomain)
              && (cache.mode == Layered ==> x.spineDomain == y.spineDomain && x.borderDomain == y.borderDomain)
  {
    hide LeafIds;
  }

  // Main result: on a compiled topology the uplink conflict cannot arise, a Node is joined exactly when its leaves
  // are known and of one leaf domain, and it is joined to the same domains through each of its leaves.
  lemma JoinedExactly(c: Config, read: Leaves, cache: Cache, o: Observed, first: string, outcome: Outcome)
    requires Compiled(c, read, cache) && Decided(cache, o, first, outcome)
    ensures outcome != UplinkConflict
    ensures outcome.Resolved? <==> !o.leafSwitchIds.Malformed? && 1 <= |LeafIds(o)| <= 2 && LeafIds(o) <= cache.byLeaf.Keys
                                   && forall a, b :: a in LeafIds(o) && b in LeafIds(o) ==> cache.byLeaf[a].leafDomain == cache.byLeaf[b].leafDomain
    ensures outcome.Resolved? ==> forall id :: id in LeafIds(o) ==> outcome.topology == TopologyOf(cache.byLeaf[id], LeafIds(o))
  {
    hide Compiled, LeafIds, SameUplink;
    if LeafIds(o) <= cache.byLeaf.Keys {
      forall id | id in LeafIds(o) && first in LeafIds(o) && cache.byLeaf[id].leafDomain == cache.byLeaf[first].leafDomain
        ensures SameUplink(cache.mode, cache.byLeaf[id], cache.byLeaf[first])
        ensures TopologyOf(cache.byLeaf[first], LeafIds(o)) == TopologyOf(cache.byLeaf[id], LeafIds(o))
      {
        LeavesAgree(c, read, cache, o, id, first);
      }
    }
  }

  // The ids of a Node's leaves are trimmed, so leaves of one leaf domain agree.
  lemma LeavesAgree(c: Config, read: Leaves, cache: Cache, o: Observed, a: string, b: string)
    requires Compiled(c, read, cache) && a in LeafIds(o) && b in LeafIds(o) && a in cache.byLeaf && b in cache.byLeaf
    requires cache.byLeaf[a].leafDomain == cache.byLeaf[b].leafDomain
    ensures SameUplink(cache.mode, cache.byLeaf[a], cache.byLeaf[b])
    ensures TopologyOf(cache.byLeaf[a], LeafIds(o)) == TopologyOf(cache.byLeaf[b], LeafIds(o))
  {
    hide Compiled, Clean;
    UniqueIsClean(Elements(Reported(o)));
    LeafDomainDecidesTheRest(c, read, cache, a, b);
    SameTopology(cache.byLeaf[a], cache.byLeaf[b], LeafIds(o));
  }

  // Whichever leaf is taken first, the outcome is the same.
  lemma FirstLeafIrrelevant(c: Config, read: Leaves, cache: Cache, o: Observed, first1: string, out1: Outcome, first2: string, out2: Outcome)
    requires Compiled(c, read, cache) && Decided(cache, o, first1, out1) && Decided(cache, o, first2, out2)
    ensures out1 == out2
  {
    JoinedExactly(c, read, cache, o, first1, out1);
    JoinedExactly(c, read, cache, o, first2, out2);
    if out1.Resolved? { assert first1 in LeafIds(o); }
  }

  // ---- Joining all Nodes ----

  datatype Node<T> = Node(name: string, topology: T)

  ghost predicate Joins(cache: Cache, nodes: seq<Node<Observed>>, outcomes: seq<Outcome>) {
    |outcomes| == |nodes| && forall i :: 0 <= i < |nodes| ==> DecidedInOrder(cache, nodes[i].topology, outcomes[i])
  }

  // The Nodes that were joined, in the order given.
  function Kept(nodes: seq<Node<Observed>>, outcomes: seq<Outcome>): (kept: seq<Node<NodeTopology>>)
    requires |nodes| == |outcomes|
    ensures kept == [] <==> forall i :: 0 <= i < |outcomes| ==> !outcomes[i].Resolved?
  {
    if nodes == [] then []
    else
      var last := |nodes| - 1;
      Kept(nodes[..last], outcomes[..last])
      + if outcomes[last].Resolved? then [Node(nodes[last].name, outcomes[last].topology)] else []
  }

  // For some way of deciding each Node: the joined Nodes in order, a warning for each other, an error when none is left.
  ghost predicate AllResolved(cache: Cache, nodes: seq<Node<Observed>>, result: Option<seq<Node<NodeTopology>>>, warnings: nat) {
    exists outcomes :: Joins(cache, nodes, outcomes) && Amounts(nodes, outcomes, result, warnings)
  }

  predicate Amounts(nodes: seq<Node<Observed>>, outcomes: seq<Outcome>, result: Option<seq<Node<NodeTopology>>>, warnings: nat)
    requires |outcomes| == |nodes|
  {
    && |Kept(nodes, outcomes)| + warnings == |nodes|
    && result == if Kept(nodes, outcomes) == [] then None else Some(Kept(nodes, outcomes))
  }

  method ResolveNodes(cache: Cache, nodes: seq<Node<Observed>>) returns (result: Option<seq<Node<NodeTopology>>>, warnings: nat)
    ensures AllResolved(cache, nodes, result, warnings)
  {
    hide DecidedInOrder, Kept;
    var resolved: seq<Node<NodeTopology>> := [];
    warnings := 0;
    ghost var outcomes: seq<Outcome> := [];
    for i := 0 to |nodes|
      invariant Joins(cache, nodes[..i], outcomes)
      invariant resolved == Kept(nodes[..i], outcomes)
      invariant |resolved| + warnings == i
    {
      var outcome := ResolveNode(cache, nodes[i].topology);
      KeptStep(nodes[..i], outcomes, nodes[i], outcome);
      assert nodes[..i + 1] == nodes[..i] + [nodes[i]];
      JoinsStep(cache, nodes, outcomes, outcome);
      outcomes := outcomes + [outcome];
      if outcome.Resolved? {
        resolved := resolved + [Node(nodes[i].name, outcome.topology)];
      } else {
        warnings := warnings + 1;
      }
    }
    assert nodes[..|nodes|] == nodes;
    result := if resolved == [] then None else Some(resolved);
    assert Amounts(nodes, outcomes, result, warnings);
  }

  // These are the Nodes at these places, each joined, under their names and in their order; no other is joined.
  ghost predicate KeptAt(nodes: seq<Node<Observed>>, outcomes: seq<Outcome>, kept: seq<Node<NodeTopology>>, at: seq<nat>)
    requires |nodes| == |outcomes|
  {
    && |at| == |kept|
    && (forall k :: 0 <= k < |at| ==> at[k] < |nodes| && outcomes[at[k]].Resolved?)
    && (forall k :: 0 <= k < |at| ==> kept[k] == Node(nodes[at[k]].name, outcomes[at[k]].topology))
    && (forall j, k :: 0 <= j < k < |at| ==> at[j] < at[k])
    && (forall i :: 0 <= i < |nodes| && outcomes[i].Resolved? ==> i in at)
  }

  lemma {:induction false} KeptInOrder(nodes: seq<Node<Observed>>, outcomes: seq<Outcome>) returns (at: seq<nat>)
    requires |nodes| == |outcomes|
    ensures KeptAt(nodes, outcomes, Kept(nodes, outcomes), at)
  {
    at := [];
    if nodes != [] {
      hide KeptAt;
      var last := |nodes| - 1;
      at := KeptInOrder(nodes[..last], outcomes[..last]);
      at := KeptMore(nodes, outcomes, Kept(nodes[..last], outcomes[..last]), at);
    } else {
      assert Kept(nodes, outcomes) == [];
    }
  }

  lemma KeptMore(nodes: seq<Node<Observed>>, outcomes: seq<Outcome>, kept: seq<Node<NodeTopology>>, before: seq<nat>) returns (at: seq<nat>)
    requires |nodes| == |outcomes| && nodes != []
    requires KeptAt(nodes[..|nodes| - 1], outcomes[..|nodes| - 1], kept, before)
    ensures var last := |nodes| - 1;
            KeptAt(nodes, outcomes, kept + if outcomes[last].Resolved? then [Node(nodes[last].name, outcomes[last].topology)] else [], at)
  {
    var last := |nodes| - 1;
    hide KeptAt;
    if outcomes[last].Resolved? {
      at := before + [last];
      OneMoreKept(nodes, outcomes, kept, before);
    } else {
      at := before;
      NoneMoreKept(nodes, outcomes, kept, before);
      assert kept + [] == kept;
    }
  }

  lemma NoneMoreKept(nodes: seq<Node<Observed>>, outcomes: seq<Outcome>, kept: seq<Node<NodeTopology>>, before: seq<nat>)
    requires |nodes| == |outcomes| && nodes != [] && !outcomes[|nodes| - 1].Resolved?
    requires KeptAt(nodes[..|nodes| - 1], outcomes[..|nodes| - 1], kept, before)
    ensures KeptAt(nodes, outcomes, kept, before)
  {
    var last := |nodes| - 1;
    forall i | 0 <= i < |nodes| && outcomes[i].Resolved? ensures i in before {
      assert outcomes[..last][i] == outcomes[i];
    }
  }

  lemma OneMoreKept(nodes: seq<Node<Observed>>, outcomes: seq<Outcome>, kept: seq<Node<NodeTopology>>, before: seq<nat>)
    requires |nodes| == |outcomes| && nodes != [] && outcomes[|nodes| - 1].Resolved?
    requires KeptAt(nodes[..|nodes| - 1], outcomes[..|nodes| - 1], kept, before)
    ensures KeptAt(nodes, outcomes, kept + [Node(nodes[|nodes| - 1].name, outcomes[|nodes| - 1].topology)], before + [|nodes| - 1])
  {
    var last := |nodes| - 1;
    var node := Node(nodes[last].name, outcomes[last].topology);
    var at := before + [last];
    assert forall k :: 0 <= k < |before| ==> at[k] == before[k] && (kept + [node])[k] == kept[k];
    assert (kept + [node])[|kept|] == node && at[|before|] == last;
    forall i | 0 <= i < |nodes| && outcomes[i].Resolved? ensures i in at {
      if i < last { assert outcomes[..last][i] == outcomes[i]; }
    }
  }

  lemma KeptStep(nodes: seq<Node<Observed>>, outcomes: seq<Outcome>, node: Node<Observed>, outcome: Outcome)
    requires |outcomes| == |nodes|
    ensures Kept(nodes + [node], outcomes + [outcome])
            == Kept(nodes, outcomes) + if outcome.Resolved? then [Node(node.name, outcome.topology)] else []
  {
    var n, o := nodes + [node], outcomes + [outcome];
    assert n[..|nodes|] == nodes && o[..|nodes|] == outcomes;
  }

  lemma JoinsStep(cache: Cache, nodes: seq<Node<Observed>>, outcomes: seq<Outcome>, outcome: Outcome)
    requires |outcomes| < |nodes| && Joins(cache, nodes[..|outcomes|], outcomes)
    requires DecidedInOrder(cache, nodes[|outcomes|].topology, outcome)
    ensures Joins(cache, nodes[..|outcomes| + 1], outcomes + [outcome])
  {
    var i := |outcomes|;
    hide DecidedInOrder;
    assert forall k :: 0 <= k < i ==> nodes[..i][k] == nodes[..i + 1][k];
  }

  // ---- The filter in Python ----

  function NodeValue(t: NodeTopology, level: Level): Id
    requires !level.Unknown?
  {
    match level
    case DataCenter => IdText(t.dataCenter)
    case Room => IdText(t.room)
    case LeafDomain => t.leafDomain
    case SpineDomain => t.spineDomain
    case BorderDomain => t.borderDomain
    case UplinkDomain => t.uplinkDomain
  }

  predicate NodeMatches(t: NodeTopology, constraints: Constraints) {
    forall level :: level in constraints && !level.Unknown? ==> Meets(NodeValue(t, level), constraints[level])
  }

  // build and _matches_topology. None: the request is refused for naming a level that nobody knows.
  method MatchesTopology(t: NodeTopology, constraints: Constraints) returns (matches: Option<bool>)
    ensures matches.Some? <==> forall level :: level in constraints ==> !level.Unknown?
    ensures matches.Some? ==> (matches.value <==> NodeMatches(t, constraints))
  {
    if exists level :: level in constraints && level.Unknown? {
      return None;
    }
    var todo := constraints.Keys;
    while todo != {}
      invariant todo <= constraints.Keys
      invariant forall level :: level in constraints.Keys - todo ==> Meets(NodeValue(t, level), constraints[level])
      decreases todo
    {
      var level :| level in todo;
      if constraints[level] == RequiredSame {
        if NodeValue(t, level) == NoId {
          return Some(false);
        }
      } else if NodeValue(t, level) != constraints[level] {
        return Some(false);
      }
      todo := todo - {level};
    }
    matches := Some(true);
  }

  // The resolver never produces a level that the filter refuses.
  lemma ResolvedLevelsAreKnown(cache: Cache, requested: Constraints)
    requires Resolution(cache, requested).Some?
    ensures forall level :: level in Resolution(cache, requested).value ==> !level.Unknown?
  {
  }

  // Main result: on a joined Node the Python filter answers what the Go filter answers for each of its leaves.
  lemma FiltersAgree(c: Config, read: Leaves, cache: Cache, o: Observed, first: string, outcome: Outcome, constraints: Constraints, id: string)
    requires Compiled(c, read, cache) && Decided(cache, o, first, outcome) && outcome.Resolved? && id in LeafIds(o)
    ensures id in cache.byLeaf
    ensures NodeMatches(outcome.topology, constraints) <==> LeafMatches(cache.byLeaf[id], constraints)
  {
    JoinedExactly(c, read, cache, o, first, outcome);
    var leaf := cache.byLeaf[id];
    forall level: Level | !level.Unknown? ensures NodeValue(TopologyOf(leaf, LeafIds(o)), level) == LeafValue(leaf, level) {
      match level
      case DataCenter =>
      case Room =>
      case LeafDomain =>
      case SpineDomain =>
      case BorderDomain =>
      case UplinkDomain =>
    }
  }

  // Main result: end to end, on every compiled topology a joined Node passes the filter for a demand's labels exactly
  // when each of its leaves is granted everything the labels ask for; that is, physically provides it, under the
  // exact conditions of LabelsSelectProvidingLeaves.
  lemma NodePassesExactly(c: Config, read: Leaves, cache: Cache, o: Observed, first: string, outcome: Outcome, requested: Constraints)
    requires Compiled(c, read, cache) && Decided(cache, o, first, outcome) && outcome.Resolved?
    requires requested.Keys <= DemandLevels && Resolution(cache, requested).Some?
    ensures LeafIds(o) <= cache.byLeaf.Keys
    ensures NodeMatches(outcome.topology, Resolution(cache, requested).value) <==>
              forall id, level :: id in LeafIds(o) && level in requested ==> Granted(cache, cache.byLeaf[id], level, requested[level])
    ensures outcome.topology.leafDomain != NoId && SelectsProviding(cache) ==>
              (NodeMatches(outcome.topology, Resolution(cache, requested).value) <==>
               forall id :: id in LeafIds(o) ==> ProvidesAll(cache.byLeaf[id], requested))
  {
    hide Compiled, NodeMatches, LeafMatches, ProvidesAll, Granted, Resolution, SelectsProviding, LeafIds;
    var resolved := Resolution(cache, requested).value;
    assert first in LeafIds(o) && LeafIds(o) <= cache.byLeaf.Keys;
    JoinedExactly(c, read, cache, o, first, outcome);
    forall id | id in LeafIds(o)
      ensures NodeMatches(outcome.topology, resolved) <==> LeafMatches(cache.byLeaf[id], resolved)
      ensures LeafMatches(cache.byLeaf[id], resolved) <==>
                forall level :: level in requested ==> Granted(cache, cache.byLeaf[id], level, requested[level])
      ensures outcome.topology.leafDomain != NoId && SelectsProviding(cache) ==>
                (LeafMatches(cache.byLeaf[id], resolved) <==> ProvidesAll(cache.byLeaf[id], requested))
    {
      FiltersAgree(c, read, cache, o, first, outcome, resolved, id);
      LabelsSelectExactly(c, read, cache, requested, id);
      if outcome.topology.leafDomain != NoId && SelectsProviding(cache) {
        assert HasLeafDomain(cache, id);
        SelectedProvides(cache, requested, id);
      }
    }
  }

  lemma SelectedProvides(cache: Cache, requested: Constraints, id: string)
    requires SelectsProviding(cache) && HasLeafDomain(cache, id) && requested.Keys <= DemandLevels && Resolution(cache, requested).Some?
    ensures LeafMatches(cache.byLeaf[id], Resolution(cache, requested).value) <==> ProvidesAll(cache.byLeaf[id], requested)
  {
    hide LeafMatches, ProvidesAll, Resolution;
  }
}
