/**
What the topology compiler guarantees about the groups of joined Nodes: which levels nest in which without any
assumption about the wiring, and that the others need not.
*/
module RequiredSame {
  import opened Wrappers
  import opened LeafDomains
  import opened TopologySource
  import opened TopologyCache
  import opened TopologyResolution
  import opened NodeResolution
  import opened TopologyGrouping

  // Domain ids as text; different ids are different texts, and only the empty id is empty.
  ghost predicate Rendering(text: Id -> string) {
    && (forall x, y :: text(x) == text(y) ==> x == y)
    && text(NoId) == ""
  }

  // A view whose domain fields are those of a leaf.
  ghost predicate LiesAt(byLeaf: Leaves, text: Id -> string, v: View, id: string) {
    id in byLeaf && forall level: Level :: !level.Unknown? ==> Field(v, level) == text(LeafValue(byLeaf[id], level))
  }

  ghost predicate Placed(byLeaf: Leaves, text: Id -> string, v: View) {
    exists id :: LiesAt(byLeaf, text, v, id)
  }

  // A joined Node is placed at each of its leaves.
  lemma JoinedIsPlaced(c: Config, read: Leaves, cache: Cache, text: Id -> string, o: Observed, first: string, outcome: Outcome, v: View)
    requires Compiled(c, read, cache) && Decided(cache, o, first, outcome) && outcome.Resolved?
    requires forall level: Level :: !level.Unknown? ==> Field(v, level) == text(NodeValue(outcome.topology, level))
    ensures forall id :: id in LeafIds(o) ==> LiesAt(cache.byLeaf, text, v, id)
    ensures Placed(cache.byLeaf, text, v)
  {
    JoinedExactly(c, read, cache, o, first, outcome);
    forall id | id in LeafIds(o) ensures LiesAt(cache.byLeaf, text, v, id) {
      forall level: Level | !level.Unknown? ensures NodeValue(outcome.topology, level) == LeafValue(cache.byLeaf[id], level) {
        SameValue(cache.byLeaf[id], LeafIds(o), level);
      }
    }
    assert first in LeafIds(o);
  }

  lemma SameValue(leaf: Leaf, leaves: set<string>, level: Level)
    requires !level.Unknown?
    ensures NodeValue(TopologyOf(leaf, leaves), level) == LeafValue(leaf, level)
  {
  }

  // The levels that nest by construction.
  predicate Implied(narrow: Level, wide: Level) {
    || narrow == wide || narrow == LeafDomain
    || (narrow == UplinkDomain && (wide == SpineDomain || wide == BorderDomain))
    || (narrow == Room && wide == DataCenter)
  }

  lemma UplinkOf(c: Config, read: Leaves, cache: Cache, id: string)
    requires Compiled(c, read, cache) && id in cache.byLeaf
    ensures var leaf := cache.byLeaf[id];
            leaf.uplinkDomain == TopologyCache.UplinkDomain(cache.mode, leaf.spineDomain, leaf.borderDomain)
  {
    CompiledField(c, read, cache, id);
  }

  lemma SameUplinkDomain(mode: Mode, x: Leaf, y: Leaf)
    requires x.uplinkDomain == y.uplinkDomain != NoId
    requires x.uplinkDomain == TopologyCache.UplinkDomain(mode, x.spineDomain, x.borderDomain)
    requires y.uplinkDomain == TopologyCache.UplinkDomain(mode, y.spineDomain, y.borderDomain)
    ensures x.spineDomain == y.spineDomain && x.borderDomain == y.borderDomain
  {
  }

  lemma DataCenterOf(c: Config, read: Leaves, cache: Cache, id: string)
    requires Compiled(c, read, cache) && id in cache.byLeaf
    ensures cache.byLeaf[id].room in c.rooms && cache.byLeaf[id].dataCenter == c.rooms[cache.byLeaf[id].room]
  {
    CompiledField(c, read, cache, id);
  }

  lemma SameDomainsSameValues(x: Leaf, y: Leaf, level: Level)
    requires SameDomains(x, y) && !level.Unknown?
    ensures LeafValue(x, level) == LeafValue(y, level)
  {
  }

  lemma ImpliedOnLeaves(c: Config, read: Leaves, cache: Cache, a: string, b: string, narrow: Level, wide: Level)
    requires Compiled(c, read, cache) && a in cache.byLeaf && b in cache.byLeaf
    requires !narrow.Unknown? && !wide.Unknown? && Implied(narrow, wide)
    requires LeafValue(cache.byLeaf[a], narrow) == LeafValue(cache.byLeaf[b], narrow) != NoId
    ensures LeafValue(cache.byLeaf[a], wide) == LeafValue(cache.byLeaf[b], wide)
  {
    hide Compiled, HasDomains;
    if narrow == LeafDomain {
      CompiledHasDomains(c, read, cache, a);
      CompiledHasDomains(c, read, cache, b);
      LeafDomainDecidesTheRest(c, read, cache, a, b);
      SameDomainsSameValues(cache.byLeaf[a], cache.byLeaf[b], wide);
    } else if narrow == UplinkDomain {
      UplinkOf(c, read, cache, a);
      UplinkOf(c, read, cache, b);
      SameUplinkDomain(cache.mode, cache.byLeaf[a], cache.byLeaf[b]);
    } else if narrow == Room && wide == DataCenter {
      DataCenterOf(c, read, cache, a);
      DataCenterOf(c, read, cache, b);
    }
  }

  lemma PlacedNodesNest(c: Config, read: Leaves, cache: Cache, text: Id -> string, nodes: seq<View>, narrow: Level, wide: Level)
    requires Compiled(c, read, cache) && Rendering(text) && forall v :: v in nodes ==> Placed(cache.byLeaf, text, v)
    requires !narrow.Unknown? && !wide.Unknown? && Implied(narrow, wide)
    ensures Nests(nodes, narrow, wide)
  {
    hide Compiled, Field, LeafValue, Implied;
    forall a, b | a in nodes && b in nodes && Field(a, narrow) != "" && Field(a, narrow) == Field(b, narrow)
      ensures Field(a, wide) == Field(b, wide)
    {
      var i :| LiesAt(cache.byLeaf, text, a, i);
      var j :| LiesAt(cache.byLeaf, text, b, j);
      ImpliedOnLeaves(c, read, cache, i, j, narrow, wide);
    }
  }

  // Main result: among joined Nodes, all nodes of each returned group share their domain at `wide` exactly when the
  // grouped levels that do not nest in it by construction happen to. Leaf-domain groups always do.
  lemma RequiredSameOfJoinedNodes(c: Config, read: Leaves, cache: Cache, text: Id -> string, nodes: seq<View>, constraints: set<Level>, wide: Level)
    requires Compiled(c, read, cache) && Rendering(text) && forall v :: v in nodes ==> Placed(cache.byLeaf, text, v)
    requires !wide.Unknown? && forall level :: level in constraints ==> Order(cache.mode, level).Some?
    ensures var levels, maxOrder := Levels(cache.mode), MaxOrder(cache.mode, constraints);
            AllShare(GroupsUpTo(levels, nodes, maxOrder + 1), wide)
            <==> forall k :: 0 <= k <= maxOrder && !Implied(levels[k], wide) ==> Nests(nodes, levels[k], wide)
    ensures AllShare(GroupsAt(nodes, LeafDomain, 0), wide)
  {
    RequiredSameExactly(cache.mode, nodes, constraints, wide);
    var levels := Levels(cache.mode);
    forall k | 0 <= k <= MaxOrder(cache.mode, constraints) && Implied(levels[k], wide) ensures Nests(nodes, levels[k], wide) {
      PlacedNodesNest(c, read, cache, text, nodes, levels[k], wide);
    }
    PlacedNodesNest(c, read, cache, text, nodes, LeafDomain, wide);
    LevelSharesExactly(nodes, LeafDomain, 0, wide);
  }

  // In uplink-compatible mode a spine or border constraint needs no assumption at all.
  lemma CompatibleUplinkIsShared(c: Config, read: Leaves, cache: Cache, text: Id -> string, nodes: seq<View>, constraints: set<Level>, wide: Level)
    requires Compiled(c, read, cache) && Rendering(text) && forall v :: v in nodes ==> Placed(cache.byLeaf, text, v)
    requires cache.mode == UplinkCompatible && forall level :: level in constraints ==> Order(cache.mode, level).Some?
    requires wide in constraints && wide in {LeafDomain, SpineDomain, BorderDomain, UplinkDomain}
    ensures AllShare(GroupsUpTo(Levels(cache.mode), nodes, MaxOrder(cache.mode, constraints) + 1), wide)
  {
    RequiredSameOfJoinedNodes(c, read, cache, text, nodes, constraints, wide);
    forall k | 0 <= k <= MaxOrder(UplinkCompatible, constraints) ensures Implied(Levels(UplinkCompatible)[k], wide) {
      BoundedIsImplied(constraints, wide, k);
    }
  }

  lemma BoundedIsImplied(constraints: set<Level>, wide: Level, k: nat)
    requires forall level :: level in constraints ==> Order(UplinkCompatible, level).Some?
    requires wide in constraints && wide in {LeafDomain, SpineDomain, BorderDomain, UplinkDomain}
    requires k <= MaxOrder(UplinkCompatible, constraints)
    ensures k < |Levels(UplinkCompatible)| && Implied(Levels(UplinkCompatible)[k], wide)
  {
    assert k <= Order(UplinkCompatible, wide).value <= 1;
  }

  // Without nesting the promise fails: two Nodes of one spine domain in two rooms, with the room required to be the
  // same, form a group whose nodes lie in both rooms.
  lemma RoomNotSharedAcrossSpine(a: View, b: View)
    requires Field(a, SpineDomain) == Field(b, SpineDomain) != "" && Field(a, Room) != Field(b, Room)
    ensures MaxOrder(Layered, {Room}) == 3
    ensures !AllShare(GroupsUpTo(Levels(Layered), [a, b], 3 + 1), Room)
  {
    assert MaxOrder(Layered, {Room}) == 3 by {
      assert Room in {Room};
    }
    RequiredSameExactly(Layered, [a, b], {Room}, Room);
    assert Levels(Layered)[1] == SpineDomain;
    assert a in [a, b] && b in [a, b];
    assert !Nests([a, b], SpineDomain, Room);
  }
}
