/** The two-slot snapshot cache of the Algorithm server: algorithm_server/go/algorithm/cache.go. */
module StaticCache {
  import opened Wrappers
  import opened Text
  import opened Sorting
  import opened NodeResolution

  // A Node as uploaded; topology is None when it is not an object.
  datatype NodeBody = NodeBody(name: string, uid: string, topology: Option<Observed>)

  // An uploaded body; nodes is None when it is not an array.
  datatype Body = Body(clusterId: string, topologyVersion: string, nodes: Option<seq<NodeBody>>)

  // The SHA-256 of a content is the content (different contents have different hashes); other text is no hash.
  datatype SnapshotId = HashOf(content: Body) | OtherText(text: string)

  // A Node as kept: its leaf set, read once.
  datatype Kept = Kept(name: string, uid: string, leaves: set<string>)
  datatype Snapshot = Snapshot(id: SnapshotId, clusterId: string, topologyVersion: string, nodes: seq<Kept>)

  // ---- Which uploads are accepted, and what they become ----

  predicate GoodNode(n: NodeBody) {
    && n.name != "" && n.uid != "" && n.topology.Some?
    && !n.topology.value.leafSwitchIds.Malformed? && 1 <= |LeafIds(n.topology.value)| <= 2
  }

  predicate Accepts(id: SnapshotId, body: Body) {
    id == HashOf(body) && body.nodes.Some? && body.nodes.value != [] && GoodNodes(body.nodes.value)
  }

  predicate GoodNodes(nodes: seq<NodeBody>) {
    && (forall i :: 0 <= i < |nodes| ==> GoodNode(nodes[i]))
    && (forall i, j :: 0 <= i < j < |nodes| ==> nodes[i].uid != nodes[j].uid)
  }

  function Keep(n: NodeBody): Kept
    requires GoodNode(n)
  {
    Kept(n.name, n.uid, LeafIds(n.topology.value))
  }

  function KeepAll(nodes: seq<NodeBody>): seq<Kept>
    requires forall i :: 0 <= i < |nodes| ==> GoodNode(nodes[i])
  {
    if nodes == [] then [] else KeepAll(nodes[..|nodes| - 1]) + [Keep(nodes[|nodes| - 1])]
  }

  // Nodes are kept by UID.
  predicate UidLeq(a: Kept, b: Kept) {
    if a.uid == b.uid then Leq(a.name, b.name) else Leq(a.uid, b.uid)
  }

  function Stored(id: SnapshotId, body: Body): Snapshot
    requires Accepts(id, body)
  {
    Snapshot(id, body.clusterId, body.topologyVersion, Sort(UidLeq, KeepAll(body.nodes.value)))
  }

  // The snapshot has the body's Nodes, each by its name, UID and one or two trimmed leaves, once, in the order of UIDs.
  ghost predicate Holds(body: Body, s: Snapshot) {
    && s.clusterId == body.clusterId && s.topologyVersion == body.topologyVersion
    && body.nodes.Some? && |s.nodes| == |body.nodes.value| > 0
    && (forall n :: n in body.nodes.value ==>
          n.name != "" && n.uid != "" && n.topology.Some? && Kept(n.name, n.uid, LeafIds(n.topology.value)) in s.nodes)
    && (forall k :: k in s.nodes ==> 1 <= |k.leaves| <= 2 && exists n :: n in body.nodes.value && n.uid == k.uid)
    && (forall i, j :: 0 <= i < j < |s.nodes| ==> s.nodes[i].uid != s.nodes[j].uid && Leq(s.nodes[i].uid, s.nodes[j].uid))
  }

  lemma UidOrder()
    ensures TotalOrder(UidLeq)
  {
    forall a, b ensures UidLeq(a, b) || UidLeq(b, a) { LeqTotal(a.uid, b.uid); LeqTotal(a.name, b.name); }
    forall a, b, c | UidLeq(a, b) && UidLeq(b, c) ensures UidLeq(a, c) { UidLeqTransitive(a, b, c); }
  }

  lemma UidLeqTransitive(a: Kept, b: Kept, c: Kept)
    requires UidLeq(a, b) && UidLeq(b, c)
    ensures UidLeq(a, c)
  {
    if a.uid != b.uid && b.uid != c.uid {
      LeqTransitive(a.uid, b.uid, c.uid);
      if a.uid == c.uid { LeqAntisymmetric(a.uid, b.uid); }
    } else if a.uid == b.uid == c.uid {
      LeqTransitive(a.name, b.name, c.name);
    }
  }

  lemma {:induction false} KeepAllAt(nodes: seq<NodeBody>)
    requires forall i :: 0 <= i < |nodes| ==> GoodNode(nodes[i])
    ensures |KeepAll(nodes)| == |nodes| && forall i :: 0 <= i < |nodes| ==> KeepAll(nodes)[i] == Keep(nodes[i])
  {
    hide LeafIds;
    if nodes != [] { KeepAllAt(nodes[..|nodes| - 1]); }
  }

  lemma SortedByUid(kept: seq<Kept>)
    requires forall i, j :: 0 <= i < j < |kept| ==> kept[i].uid != kept[j].uid
    ensures var sorted := Sort(UidLeq, kept);
            |sorted| == |kept| && forall i, j :: 0 <= i < j < |sorted| ==> sorted[i].uid != sorted[j].uid && Leq(sorted[i].uid, sorted[j].uid)
  {
    UidOrder();
    SortKeeps(UidLeq, kept);
    SortOrders(UidLeq, kept);
    SortKeepsDistinct(UidLeq, kept);
    SameElements(UidLeq, kept);
    var sorted := Sort(UidLeq, kept);
    forall i, j | 0 <= i < j < |sorted| ensures sorted[i].uid != sorted[j].uid && Leq(sorted[i].uid, sorted[j].uid) {
      assert sorted[i] in kept && sorted[j] in kept && sorted[i] != sorted[j];
      LeqTotal(sorted[i].uid, sorted[i].uid);
    }
  }

  lemma StoredHolds(id: SnapshotId, body: Body)
    requires Accepts(id, body)
    ensures Holds(body, Stored(id, body))
  {
    hide LeafIds;
    var nodes := body.nodes.value;
    var kept := KeepAll(nodes);
    KeepAllAt(nodes);
    SortedByUid(kept);
    SameElements(UidLeq, kept);
    forall n | n in nodes ensures Kept(n.name, n.uid, LeafIds(n.topology.value)) in kept && n.name != "" && n.uid != "" && n.topology.Some? {
      var i :| 0 <= i < |nodes| && nodes[i] == n;
      assert kept[i] == Keep(n) && kept[i] in kept;
    }
    forall k | k in kept ensures 1 <= |k.leaves| <= 2 && exists n :: n in nodes && n.uid == k.uid {
      var i :| 0 <= i < |kept| && kept[i] == k;
      assert nodes[i] in nodes && k == Keep(nodes[i]);
    }
  }

  method ReadNode(n: NodeBody) returns (result: Option<Kept>)
    ensures result.Some? <==> GoodNode(n)
    ensures GoodNode(n) ==> result == Some(Keep(n))
  {
    if n.topology.None? {
      return None;
    }
    var leaves := NodeLeafIds(n.topology.value);
    if leaves.None? {
      return None;
    }
    if n.name == "" || n.uid == "" {
      return None;
    }
    assert (set l | l in leaves.value) == LeafIds(n.topology.value);
    result := Some(Kept(n.name, n.uid, set l | l in leaves.value));
  }

  method ReadNodes(nodes: seq<NodeBody>) returns (result: Option<seq<Kept>>)
    ensures result.Some? <==> GoodNodes(nodes)
    ensures GoodNodes(nodes) ==> result == Some(KeepAll(nodes))
  {
    hide GoodNode, Keep;
    var kept: seq<Kept>, seen: set<string> := [], {};
    for i := 0 to |nodes|
      invariant GoodNodes(nodes[..i])
      invariant seen == set k | 0 <= k < i :: nodes[k].uid
      invariant kept == KeepAll(nodes[..i])
    {
      var n := ReadNode(nodes[i]);
      if n.None? || nodes[i].uid in seen {
        return None;
      }
      assert nodes[..i + 1][..i] == nodes[..i];
      OneMoreNode(nodes, i, seen);
      kept, seen := kept + [n.value], seen + {nodes[i].uid};
    }
    assert nodes[..|nodes|] == nodes;
    result := Some(kept);
  }

  lemma OneMoreNode(nodes: seq<NodeBody>, i: nat, seen: set<string>)
    requires i < |nodes| && GoodNodes(nodes[..i]) && GoodNode(nodes[i])
    requires seen == (set k | 0 <= k < i :: nodes[k].uid) && nodes[i].uid !in seen
    ensures GoodNodes(nodes[..i + 1]) && seen + {nodes[i].uid} == set k | 0 <= k < i + 1 :: nodes[k].uid
  {
    hide GoodNode;
    var more := nodes[..i + 1];
    forall k | 0 <= k < |more| ensures GoodNode(more[k]) {
      assert k < i ==> more[k] == nodes[..i][k];
    }
    forall j, k | 0 <= j < k < |more| ensures more[j].uid != more[k].uid {
      assert k < i ==> more[j] == nodes[..i][j] && more[k] == nodes[..i][k];
    }
  }

  // ---- The cache ----

  // The accepted uploads, immediate repetitions of an id dropped.
  function Switches(accepted: seq<Snapshot>): seq<Snapshot> {
    if accepted == [] then []
    else
      var before, last := Switches(accepted[..|accepted| - 1]), accepted[|accepted| - 1];
      if before != [] && before[|before| - 1].id == last.id then before else before + [last]
  }

  function Nth(switches: seq<Snapshot>, back: nat): Option<Snapshot> {
    if back < |switches| then Some(switches[|switches| - 1 - back]) else None
  }

  // The checks of put, and the snapshot it makes.
  method Check(id: SnapshotId, body: Body) returns (result: Option<Snapshot>)
    ensures result.Some? <==> Accepts(id, body)
    ensures Accepts(id, body) ==> result == Some(Stored(id, body))
    ensures result.Some? ==> Holds(body, result.value) && result.value.id == id == HashOf(body)
  {
    if Accepts(id, body) { StoredHolds(id, body); }
    hide Holds;
    if id != HashOf(body) {
      return None;
    }
    if body.nodes.None? || body.nodes.value == [] {
      return None;
    }
    var nodes := ReadNodes(body.nodes.value);
    if nodes.None? {
      return None;
    }
    result := Some(Snapshot(id, body.clusterId, body.topologyVersion, Sort(UidLeq, nodes.value)));
  }

  ghost predicate AllGenuine(snapshots: seq<Snapshot>) {
    forall i :: 0 <= i < |snapshots| ==> Genuine(snapshots[i])
  }

  lemma StoredIsGenuine(id: SnapshotId, body: Body)
    requires Accepts(id, body)
    ensures Genuine(Stored(id, body)) && Stored(id, body).id == id
  {
  }

  // What one more upload does to the slots.
  lemma SwitchesStep(accepted: seq<Snapshot>, s: Snapshot)
    requires AllGenuine(accepted) && Genuine(s)
    ensures AllGenuine(accepted + [s])
    ensures var before, after, more := Nth(Switches(accepted), 0), Switches(accepted + [s]), Nth(Switches(accepted), 1);
            if before.Some? && before.value.id == s.id then before.value == s && after == Switches(accepted)
            else Nth(after, 0) == Some(s) && Nth(after, 1) == before
  {
    hide Switches, Genuine, Nth;
    SwitchesOneMore(accepted, s);
    NthPushed(Switches(accepted), s);
    LatestIsGenuine(accepted);
    var switches := Switches(accepted);
    if switches != [] && switches[|switches| - 1].id == s.id {
      SameIdSameSnapshot(switches[|switches| - 1], s);
    }
  }

  lemma NthPushed(switches: seq<Snapshot>, s: Snapshot)
    ensures Nth(switches + [s], 0) == Some(s) && Nth(switches + [s], 1) == Nth(switches, 0)
    ensures Nth(switches, 0) == if switches == [] then None else Some(switches[|switches| - 1])
  {
  }

  lemma SwitchesOneMore(accepted: seq<Snapshot>, s: Snapshot)
    ensures var before := Switches(accepted);
            Switches(accepted + [s]) == if before != [] && before[|before| - 1].id == s.id then before else before + [s]
  {
    assert (accepted + [s])[..|accepted|] == accepted;
  }

  class StaticCache {
    var current: Option<Snapshot>
    var previous: Option<Snapshot>
    ghost var accepted: seq<Snapshot>   // every upload accepted since the process started

    ghost predicate Valid()
      reads this
    {
      && current == Nth(Switches(accepted), 0) && previous == Nth(Switches(accepted), 1)
      && AllGenuine(accepted)
    }

    constructor ()
      ensures Valid() && accepted == []
    {
      current, previous, accepted := None, None, [];
    }

    method Put(id: SnapshotId, body: Body) returns (result: Option<Snapshot>)
      requires Valid()
      modifies this
      ensures Valid()
      ensures result.Some? <==> Accepts(id, body)
      ensures Accepts(id, body) ==> result == Some(Stored(id, body)) && accepted == old(accepted) + [Stored(id, body)]
      ensures !Accepts(id, body) ==> accepted == old(accepted)
    {
      hide Switches, Genuine, Accepts, Stored;
      result := Check(id, body);
      if result.None? {
        return;
      }
      var snapshot := result.value;
      StoredIsGenuine(id, body);
      SwitchesStep(accepted, snapshot);
      accepted := accepted + [snapshot];
      if current.Some? && current.value.id == id {
        return current;
      }
      if current.Some? {
        previous := current;
      }
      current := Some(snapshot);
    }

    method Get(id: SnapshotId) returns (found: Option<Snapshot>)
      requires Valid()
      ensures found == Lookup(accepted, id)
    {
      if current.Some? && current.value.id == id {
        return current;
      }
      if previous.Some? && previous.value.id == id {
        return previous;
      }
      found := None;
    }
  }

  // A snapshot that an upload with its id produces.
  predicate Genuine(s: Snapshot) {
    s.id.HashOf? && Accepts(s.id, s.id.content) && s == Stored(s.id, s.id.content)
  }

  lemma SameIdSameSnapshot(a: Snapshot, b: Snapshot)
    requires Genuine(a) && Genuine(b) && a.id == b.id
    ensures a == b
  {
  }

  lemma {:induction false} LatestIsGenuine(accepted: seq<Snapshot>)
    requires AllGenuine(accepted)
    ensures AllGenuine(Switches(accepted))
  {
    if accepted != [] {
      LatestIsGenuine(accepted[..|accepted| - 1]);
    }
  }

  // ---- What is found ----

  function Lookup(accepted: seq<Snapshot>, id: SnapshotId): (found: Option<Snapshot>)
    ensures found.Some? ==> found.value.id == id
  {
    var switches := Switches(accepted);
    if Nth(switches, 0).Some? && Nth(switches, 0).value.id == id then Nth(switches, 0)
    else if Nth(switches, 1).Some? && Nth(switches, 1).value.id == id then Nth(switches, 1)
    else None
  }

  lemma {:induction false} SwitchesAlternate(accepted: seq<Snapshot>)
    ensures forall i :: 0 < i < |Switches(accepted)| ==> Switches(accepted)[i - 1].id != Switches(accepted)[i].id
    ensures accepted != [] ==> Switches(accepted) != [] && Switches(accepted)[|Switches(accepted)| - 1].id == accepted[|accepted| - 1].id
    ensures forall i :: 0 <= i < |Switches(accepted)| ==> Switches(accepted)[i] in accepted
  {
    if accepted != [] {
      SwitchesAlternate(accepted[..|accepted| - 1]);
    }
  }

  // Main result: the cache holds exactly the last two accepted ids after immediate repetitions are dropped, and
  // those are different ids.
  lemma HoldsLastTwo(accepted: seq<Snapshot>, id: SnapshotId)
    ensures var s := Switches(accepted);
            && (Lookup(accepted, id).Some? <==> exists k :: |s| - 2 <= k < |s| && 0 <= k && s[k].id == id)
            && (|s| >= 2 ==> s[|s| - 1].id != s[|s| - 2].id)
  {
    SwitchesAlternate(accepted);
    var s := Switches(accepted);
    if Lookup(accepted, id).Some? {
      assert s[|s| - 1].id == id || s[|s| - 2].id == id;
    }
  }

  // Main result: what it returns for an id is what an upload of that very content produces.
  lemma FoundIsGenuine(accepted: seq<Snapshot>, id: SnapshotId)
    requires AllGenuine(accepted) && Lookup(accepted, id).Some?
    ensures Genuine(Lookup(accepted, id).value) && Lookup(accepted, id).value.id == id
    ensures Lookup(accepted, id).value in accepted
  {
    SwitchesAlternate(accepted);
    LatestIsGenuine(accepted);
  }

  lemma {:induction false} SwitchesGrow(accepted: seq<Snapshot>, more: seq<Snapshot>)
    ensures Switches(accepted) <= Switches(accepted + more)
  {
    if more == [] {
      assert accepted + more == accepted;
    } else {
      SwitchesGrow(accepted, more[..|more| - 1]);
      assert (accepted + more)[..|accepted + more| - 1] == accepted + more[..|more| - 1];
    }
  }

  // Main result: an id that was just accepted is still found after any further uploads that switch at most once.
  lemma SurvivesOneSwitch(accepted: seq<Snapshot>, more: seq<Snapshot>)
    requires accepted != [] && |Switches(accepted + more)| <= |Switches(accepted)| + 1
    ensures Lookup(accepted + more, accepted[|accepted| - 1].id).Some?
  {
    hide Switches;
    SwitchesAlternate(accepted);
    SwitchesGrow(accepted, more);
    var s, t := Switches(accepted), Switches(accepted + more);
    assert t[|s| - 1] == s[|s| - 1];
    assert Nth(t, |t| - |s|) == Some(s[|s| - 1]);
  }

  // After two switches to two further ids it is gone.
  lemma TwoSwitchesEvict(accepted: seq<Snapshot>, b: Snapshot, c: Snapshot)
    requires accepted != []
    requires var id := accepted[|accepted| - 1].id; b.id != id && c.id != id && b.id != c.id
    ensures Lookup(accepted + [b, c], accepted[|accepted| - 1].id).None?
  {
    hide Switches;
    SwitchesAlternate(accepted);
    SwitchesOneMore(accepted, b);
    SwitchesOneMore(accepted + [b], c);
    assert accepted + [b] + [c] == accepted + [b, c];
    assert Switches(accepted + [b, c]) == Switches(accepted) + [b] + [c];
  }
}
