/**
From the dynamic state of a request to the Nodes that may be chosen: normalizeUsageStates and resourcesFull in
algorithm_server/go/algorithm/service.go, NodeViewBuilder.build in
algorithm_server/python/algorithm_worker/services/node_view_builder.py and subtract in quantity.py.
*/
module UsageStates {
  import opened Wrappers
  import opened Sorting
  import opened ResourcePool
  import opened TopologyResolution
  import opened TopologyGrouping
  import opened Allocation
  import opened Pipeline
  import opened ResponseCheck
  import opened AnswerAccepted

  // A quantity that was read, or None for malformed text.
  type Quantities = map<string, Option<int>>

  datatype StaticNode = StaticNode(uid: string, name: string, domains: map<Level, string>, allocatable: Option<Quantities>, capacity: Resources)

  datatype NodeState = NodeState(uid: string, name: string, ready: bool, unschedulable: bool, requested: Option<Quantities>, requestedAmounts: Resources)

  // One normalized entry.
  datatype Usage = Usage(uid: string, inUse: bool, requested: Resources)

  // ---- resourcesFull ----

  function Consumed(used: Quantities, name: string): Option<int> {
    if name in used then used[name] else Some(0)
  }

  // Some resource has a positive limit, and every one that has is used up.
  predicate Full(allocatable: Option<Quantities>, requested: Option<Quantities>) {
    && allocatable.Some? && requested.Some?
    && (exists name :: name in allocatable.value && Positive(allocatable.value[name]))
    && (forall name :: name in allocatable.value && Positive(allocatable.value[name]) ==> UsedUp(requested.value, name, allocatable.value[name].value))
  }

  predicate Positive(limit: Option<int>) {
    limit.Some? && limit.value > 0
  }

  predicate UsedUp(used: Quantities, name: string, limit: int) {
    Consumed(used, name).Some? && Consumed(used, name).value >= limit
  }

  // Nothing has a positive limit, or some resource that has one is asked for less than it allows, or unreadably; or
  // there is no saying.
  predicate Roomy(allocatable: Option<Quantities>, requested: Option<Quantities>) {
    || allocatable.None? || requested.None?
    || (forall name :: name in allocatable.value ==> allocatable.value[name].None? || allocatable.value[name].value <= 0)
    || (exists name :: name in allocatable.value && HasRoom(allocatable.value[name], requested.value, name))
  }

  predicate HasRoom(limit: Option<int>, used: Quantities, name: string) {
    limit.Some? && limit.value > 0 && (name in used && used[name].Some? ==> used[name].value < limit.value)
  }

  method ResourcesFull(allocatable: Option<Quantities>, requested: Option<Quantities>) returns (full: bool)
    ensures full <==> Full(allocatable, requested)
    ensures full <==> !Roomy(allocatable, requested)
  {
    if allocatable.None? || requested.None? || allocatable.value == map[] {
      return false;
    }
    var hasPositive := false;
    var todo := allocatable.value.Keys;
    while todo != {}
      invariant todo <= allocatable.value.Keys
      invariant hasPositive <==> exists name :: name in allocatable.value.Keys - todo && Positive(allocatable.value[name])
      invariant forall name :: name in allocatable.value.Keys - todo && Positive(allocatable.value[name]) ==>
                  UsedUp(requested.value, name, allocatable.value[name].value)
      decreases todo
    {
      var name :| name in todo;
      todo := todo - {name};
      var limit := allocatable.value[name];
      if Positive(limit) {
        hasPositive := true;
        if !UsedUp(requested.value, name, limit.value) {
          return false;
        }
      }
    }
    full := hasPositive;
  }

  // ---- normalizeUsageStates, from schedulerState ----

  // The state of a UID: the last entry that names it.
  function StateOf(states: seq<NodeState>, uid: string): (state: Option<NodeState>)
    ensures state.Some? ==> state.value in states && state.value.uid == uid
    ensures state.None? <==> forall s :: s in states ==> s.uid != uid
  {
    if states == [] then None
    else if states[|states| - 1].uid == uid then Some(states[|states| - 1])
    else StateOf(states[..|states| - 1], uid)
  }

  function UsageOf(node: StaticNode, state: Option<NodeState>): Usage {
    match state
    case None => Usage(node.uid, true, map[])
    case Some(s) => Usage(node.uid, !s.ready || s.unschedulable || Full(node.allocatable, s.requested), if s.requested.Some? then s.requestedAmounts else map[])
  }

  // One entry for each Node, from its state.
  ghost predicate Normalized(nodes: seq<StaticNode>, states: seq<NodeState>, usage: seq<Usage>) {
    |usage| == |nodes| && forall i :: 0 <= i < |nodes| ==> usage[i] == UsageOf(nodes[i], StateOf(states, nodes[i].uid))
  }

  method NormalizeSchedulerState(nodes: seq<StaticNode>, states: seq<NodeState>) returns (usage: seq<Usage>)
    ensures Normalized(nodes, states, usage)
  {
    var stateByUid: map<string, NodeState> := map[];
    for i := 0 to |states|
      invariant forall uid :: StateOf(states[..i], uid) == if uid in stateByUid then Some(stateByUid[uid]) else None
    {
      assert states[..i + 1][..i] == states[..i];
      stateByUid := stateByUid[states[i].uid := states[i]];
    }
    assert states[..|states|] == states;
    usage := [];
    for i := 0 to |nodes|
      invariant |usage| == i && forall k :: 0 <= k < i ==> usage[k] == UsageOf(nodes[k], StateOf(states, nodes[k].uid))
    {
      var node := nodes[i];
      var inUse, requested := true, map[];
      if node.uid in stateByUid {
        var state := stateByUid[node.uid];
        var full := ResourcesFull(node.allocatable, state.requested);
        inUse := !state.ready || state.unschedulable || full;
        if state.requested.Some? {
          requested := state.requestedAmounts;
        }
      }
      usage := usage + [Usage(node.uid, inUse, requested)];
    }
  }

  // ---- normalizeUsageStates, from nodeUsageStates ----

  // An explicit entry; inUse is None when it is not a boolean.
  datatype Entry = Entry(uid: string, inUse: Option<bool>, requested: Resources)

  predicate GoodEntries(nodes: seq<StaticNode>, entries: seq<Entry>) {
    && (forall i :: 0 <= i < |entries| ==> entries[i].inUse.Some? && exists n :: n in nodes && n.uid == entries[i].uid)
    && (forall i, j :: 0 <= i < j < |entries| ==> entries[i].uid != entries[j].uid)
  }

  // None: an entry is malformed, names an unknown Node or names a Node again.
  method NormalizeEntries(nodes: seq<StaticNode>, entries: seq<Entry>) returns (usage: Option<seq<Usage>>)
    ensures usage.Some? <==> GoodEntries(nodes, entries)
    ensures usage.Some? ==> |usage.value| == |entries|
    ensures usage.Some? ==>
              forall i :: 0 <= i < |entries| ==> usage.value[i] == Usage(entries[i].uid, entries[i].inUse.value, entries[i].requested)
  {
    var known := set n | n in nodes :: n.uid;
    var seen: set<string>, result: seq<Usage> := {}, [];
    for i := 0 to |entries|
      invariant GoodEntries(nodes, entries[..i])
      invariant forall uid :: uid in seen <==> exists k :: 0 <= k < i && entries[k].uid == uid
      invariant |result| == i && forall k :: 0 <= k < i ==> result[k] == Usage(entries[k].uid, entries[k].inUse.value, entries[k].requested)
    {
      if entries[i].uid !in known {
        return None;
      }
      if entries[i].uid in seen {
        return None;
      }
      if entries[i].inUse.None? {
        return None;
      }
      seen := seen + {entries[i].uid};
      result := result + [Usage(entries[i].uid, entries[i].inUse.value, entries[i].requested)];
    }
    assert entries[..|entries|] == entries;
    usage := Some(result);
  }

  // ---- The Nodes that may be chosen ----

  // The demand's selector and topology filters, as predicates.
  datatype Filters = Filters(selects: StaticNode -> bool, placed: StaticNode -> bool)

  // The entry of a UID: the last one; a Node without an entry is not in use.
  function EntryOf(usage: seq<Usage>, uid: string): (entry: Option<Usage>)
    ensures entry.Some? ==> entry.value in usage && entry.value.uid == uid
    ensures entry.None? <==> forall u :: u in usage ==> u.uid != uid
  {
    if usage == [] then None
    else if usage[|usage| - 1].uid == uid then Some(usage[|usage| - 1])
    else EntryOf(usage[..|usage| - 1], uid)
  }

  function Subtract(available: Resources, request: Resources): Resources {
    map name | name in available.Keys + request.Keys :: Left(available, request, name)
  }

  function Left(available: Resources, request: Resources, name: string): nat {
    if Get(available, name) >= Get(request, name) then Get(available, name) - Get(request, name) else 0
  }

  predicate Eligible(filters: Filters, usage: seq<Usage>, node: StaticNode) {
    filters.selects(node) && filters.placed(node) && !(EntryOf(usage, node.uid).Some? && EntryOf(usage, node.uid).value.inUse)
  }

  function ViewOf(usage: seq<Usage>, node: StaticNode): View {
    var entry := EntryOf(usage, node.uid);
    View(node.uid, node.name, node.domains, Subtract(node.capacity, if entry.Some? then entry.value.requested else map[]))
  }

  function Views(filters: Filters, usage: seq<Usage>, nodes: seq<StaticNode>): seq<View> {
    if nodes == [] then []
    else Views(filters, usage, nodes[..|nodes| - 1]) + if Eligible(filters, usage, nodes[|nodes| - 1]) then [ViewOf(usage, nodes[|nodes| - 1])] else []
  }

  method SubtractAll(available: Resources, request: Resources) returns (result: Resources)
    ensures result == Subtract(available, request)
  {
    result := available;
    var todo := request.Keys;
    while todo != {}
      invariant todo <= request.Keys
      invariant result.Keys == available.Keys + (request.Keys - todo)
      invariant forall name :: name in result ==> result[name] == if name in todo then available[name] else Left(available, request, name)
      decreases todo
    {
      var name :| name in todo;
      var left: int := Get(result, name) - request[name];
      result := result[name := if left > 0 then left else 0];
      todo := todo - {name};
    }
  }

  // How many Nodes pass the selector, the topology filter after it, and the usage state after both.
  datatype Counts = Counts(selected: nat, placed: nat, eligible: nat)

  function Passing(passes: StaticNode -> bool, nodes: seq<StaticNode>): nat {
    if nodes == [] then 0
    else Passing(passes, nodes[..|nodes| - 1]) + if passes(nodes[|nodes| - 1]) then 1 else 0
  }

  function BothFilters(filters: Filters): StaticNode -> bool {
    n => filters.selects(n) && filters.placed(n)
  }

  function CountsOf(filters: Filters, usage: seq<Usage>, nodes: seq<StaticNode>): Counts {
    Counts(Passing(filters.selects, nodes), Passing(BothFilters(filters), nodes), |Views(filters, usage, nodes)|)
  }

  lemma {:induction false} NonePassExactly(passes: StaticNode -> bool, nodes: seq<StaticNode>)
    ensures Passing(passes, nodes) == 0 <==> forall n :: n in nodes ==> !passes(n)
  {
    if nodes != [] {
      var front, last := nodes[..|nodes| - 1], nodes[|nodes| - 1];
      NonePassExactly(passes, front);
      assert forall n :: n in nodes <==> n in front || n == last;
    }
  }

  lemma {:induction false} NoneEligibleExactly(filters: Filters, usage: seq<Usage>, nodes: seq<StaticNode>)
    ensures Views(filters, usage, nodes) == [] <==> forall n :: n in nodes ==> !Eligible(filters, usage, n)
  {
    if nodes != [] {
      var front, last := nodes[..|nodes| - 1], nodes[|nodes| - 1];
      NoneEligibleExactly(filters, usage, front);
      assert forall n :: n in nodes <==> n in front || n == last;
    }
  }

  method Build(filters: Filters, usage: seq<Usage>, nodes: seq<StaticNode>) returns (views: seq<View>, counts: Counts)
    ensures views == Sort(NodeLeq, Views(filters, usage, nodes)) && counts == CountsOf(filters, usage, nodes)
    ensures AllOffered(filters, usage, nodes, views) && ByName(views)
  {
    hide AllOffered, ByName;
    var byUid: map<string, Usage> := map[];
    for i := 0 to |usage|
      invariant forall uid :: EntryOf(usage[..i], uid) == if uid in byUid then Some(byUid[uid]) else None
    {
      assert usage[..i + 1][..i] == usage[..i];
      byUid := byUid[usage[i].uid := usage[i]];
    }
    assert usage[..|usage|] == usage;
    var result: seq<View>, selected: nat, placed: nat := [], 0, 0;
    for i := 0 to |nodes|
      invariant result == Views(filters, usage, nodes[..i])
      invariant selected == Passing(filters.selects, nodes[..i]) && placed == Passing(BothFilters(filters), nodes[..i])
    {
      assert nodes[..i + 1][..i] == nodes[..i];
      var node := nodes[i];
      if !filters.selects(node) {
        continue;
      }
      selected := selected + 1;
      if !filters.placed(node) {
        continue;
      }
      placed := placed + 1;
      var state := if node.uid in byUid then byUid[node.uid] else Usage(node.uid, false, map[]);
      if state.inUse {
        continue;
      }
      var available := SubtractAll(node.capacity, state.requested);
      result := result + [View(node.uid, node.name, node.domains, available)];
    }
    assert nodes[..|nodes|] == nodes;
    counts := Counts(selected, placed, |result|);
    views := Sort(NodeLeq, result);
    SortedAreOffered(filters, usage, nodes);
    SortedByName(result);
  }

  // ---- What a view says ----

  // The last entry of this UID.
  predicate IsLastUsage(usage: seq<Usage>, uid: string, p: int) {
    0 <= p < |usage| && usage[p].uid == uid && forall q :: p < q < |usage| ==> usage[q].uid != uid
  }

  predicate IsLastState(states: seq<NodeState>, uid: string, p: int) {
    0 <= p < |states| && states[p].uid == uid && forall q :: p < q < |states| ==> states[q].uid != uid
  }

  lemma {:induction false} EntryExactly(usage: seq<Usage>, uid: string)
    ensures EntryOf(usage, uid).None? <==> forall p :: !IsLastUsage(usage, uid, p)
    ensures forall p :: IsLastUsage(usage, uid, p) ==> EntryOf(usage, uid) == Some(usage[p])
  {
    if usage != [] {
      var front, last := usage[..|usage| - 1], |usage| - 1;
      EntryExactly(front, uid);
      if usage[last].uid == uid { assert IsLastUsage(usage, uid, last); }
      forall p ensures usage[last].uid != uid ==> (IsLastUsage(usage, uid, p) <==> IsLastUsage(front, uid, p)) {
        if usage[last].uid != uid { LastUsageOfFront(usage, uid, p); }
      }
    }
  }

  lemma LastUsageOfFront(usage: seq<Usage>, uid: string, p: int)
    requires usage != [] && usage[|usage| - 1].uid != uid
    ensures IsLastUsage(usage, uid, p) <==> IsLastUsage(usage[..|usage| - 1], uid, p)
  {
    var front := usage[..|usage| - 1];
    if IsLastUsage(usage, uid, p) {
      forall q | p < q < |front| ensures front[q].uid != uid { assert usage[q].uid != uid; }
    }
    if IsLastUsage(front, uid, p) {
      forall q | p < q < |usage| ensures usage[q].uid != uid { if q < |front| { assert front[q].uid != uid; } }
    }
  }

  lemma {:induction false} StateExactly(states: seq<NodeState>, uid: string)
    ensures StateOf(states, uid).None? <==> forall p :: !IsLastState(states, uid, p)
    ensures forall p :: IsLastState(states, uid, p) ==> StateOf(states, uid) == Some(states[p])
  {
    if states != [] {
      var front, last := states[..|states| - 1], |states| - 1;
      StateExactly(front, uid);
      if states[last].uid == uid { assert IsLastState(states, uid, last); }
      forall p ensures states[last].uid != uid ==> (IsLastState(states, uid, p) <==> IsLastState(front, uid, p)) {
        if states[last].uid != uid { LastStateOfFront(states, uid, p); }
      }
    }
  }

  lemma LastStateOfFront(states: seq<NodeState>, uid: string, p: int)
    requires states != [] && states[|states| - 1].uid != uid
    ensures IsLastState(states, uid, p) <==> IsLastState(states[..|states| - 1], uid, p)
  {
    var front := states[..|states| - 1];
    if IsLastState(states, uid, p) {
      forall q | p < q < |front| ensures front[q].uid != uid { assert states[q].uid != uid; }
    }
    if IsLastState(front, uid, p) {
      forall q | p < q < |states| ensures states[q].uid != uid { if q < |front| { assert front[q].uid != uid; } }
    }
  }

  // The capacity less what is requested, name by name and not below zero.
  ghost predicate IsRest(capacity: Resources, requested: Resources, rest: Resources) {
    && (forall name :: name in rest <==> name in capacity || name in requested)
    && (forall name :: name in rest && name !in requested ==> rest[name] == capacity[name])
    && (forall name :: name in rest && name in requested && name !in capacity ==> rest[name] == 0)
    && (forall name :: name in rest && name in requested && name in capacity ==>
          if requested[name] < capacity[name] then rest[name] + requested[name] == capacity[name] else rest[name] == 0)
  }

  lemma SubtractLeavesRest(capacity: Resources, requested: Resources)
    ensures IsRest(capacity, requested, Subtract(capacity, requested))
    ensures forall rest :: IsRest(capacity, requested, rest) ==> rest == Subtract(capacity, requested)
  {
    forall rest | IsRest(capacity, requested, rest) ensures rest == Subtract(capacity, requested) {
      assert rest.Keys == Subtract(capacity, requested).Keys;
    }
  }

  // The view of a Node that is not in use: its own fields, and what its entry, if any, leaves of its capacity.
  ghost predicate Offers(usage: seq<Usage>, n: StaticNode, v: View) {
    && v.uid == n.uid && v.name == n.name && v.domains == n.domains
    && if forall u :: u in usage ==> u.uid != n.uid then v.available == n.capacity
       else exists p :: IsLastUsage(usage, n.uid, p) && !usage[p].inUse && IsRest(n.capacity, usage[p].requested, v.available)
  }

  lemma OffersExactly(filters: Filters, usage: seq<Usage>, n: StaticNode, v: View)
    ensures filters.selects(n) && filters.placed(n) && Offers(usage, n, v) <==> Eligible(filters, usage, n) && v == ViewOf(usage, n)
  {
    hide IsRest, Subtract, IsLastUsage;
    EntryExactly(usage, n.uid);
    NothingRequested(n.capacity);
    if EntryOf(usage, n.uid).Some? {
      SubtractLeavesRest(n.capacity, EntryOf(usage, n.uid).value.requested);
    }
  }

  lemma NothingRequested(capacity: Resources)
    ensures Subtract(capacity, map[]) == capacity
  {
  }

  // The views are those of the Nodes that pass both filters and are not in use.
  ghost predicate AllOffered(filters: Filters, usage: seq<Usage>, nodes: seq<StaticNode>, views: seq<View>) {
    forall v :: v in views <==> exists n :: n in nodes && filters.selects(n) && filters.placed(n) && Offers(usage, n, v)
  }

  lemma {:induction false} ViewsAreOffered(filters: Filters, usage: seq<Usage>, nodes: seq<StaticNode>)
    ensures AllOffered(filters, usage, nodes, Views(filters, usage, nodes))
  {
    if nodes != [] {
      hide Offers, Eligible, ViewOf;
      var front, last := nodes[..|nodes| - 1], nodes[|nodes| - 1];
      ViewsAreOffered(filters, usage, front);
      assert forall n :: n in nodes <==> n in front || n == last;
      forall v ensures filters.selects(last) && filters.placed(last) && Offers(usage, last, v) <==> Eligible(filters, usage, last) && v == ViewOf(usage, last) {
        OffersExactly(filters, usage, last, v);
      }
    }
  }

  lemma SortedAreOffered(filters: Filters, usage: seq<Usage>, nodes: seq<StaticNode>)
    ensures AllOffered(filters, usage, nodes, Sort(NodeLeq, Views(filters, usage, nodes)))
  {
    ViewsAreOffered(filters, usage, nodes);
    SameElements(NodeLeq, Views(filters, usage, nodes));
  }

  // ---- The same from the scheduler state ----

  // Its last state says that it is ready and schedulable, and leaves room in what the snapshot says it can allocate.
  ghost predicate IsFree(m: StaticNode, states: seq<NodeState>, p: int) {
    IsLastState(states, m.uid, p) && states[p].ready && !states[p].unschedulable && Roomy(m.allocatable, states[p].requested)
  }

  // The view of a free Node: what its state, as far as it can be read, leaves of its capacity.
  ghost predicate IsFreeView(snapshot: seq<StaticNode>, states: seq<NodeState>, n: StaticNode, v: View) {
    && v.uid == n.uid && v.name == n.name && v.domains == n.domains
    && exists m, p :: m in snapshot && m.uid == n.uid && IsFree(m, states, p)
                      && IsRest(n.capacity, if states[p].requested.Some? then states[p].requestedAmounts else map[], v.available)
  }

  lemma UsageExactly(m: StaticNode, states: seq<NodeState>, p: int)
    requires IsLastState(states, m.uid, p)
    ensures var u := UsageOf(m, StateOf(states, m.uid));
            (!u.inUse <==> IsFree(m, states, p)) && u.requested == if states[p].requested.Some? then states[p].requestedAmounts else map[]
  {
    StateExactly(states, m.uid);
  }

  lemma UsageAt(snapshot: seq<StaticNode>, states: seq<NodeState>, usage: seq<Usage>, m: StaticNode, p: int)
    requires UniqueNodes(snapshot) && Normalized(snapshot, states, usage) && m in snapshot && IsLastUsage(usage, m.uid, p)
    ensures usage[p] == UsageOf(m, StateOf(states, m.uid))
  {
    var i :| 0 <= i < |snapshot| && snapshot[i] == m;
    assert usage[p] == UsageOf(snapshot[p], StateOf(states, snapshot[p].uid));
  }

  lemma HasUsage(snapshot: seq<StaticNode>, states: seq<NodeState>, usage: seq<Usage>, m: StaticNode)
    requires Normalized(snapshot, states, usage) && m in snapshot
    ensures (exists u :: u in usage && u.uid == m.uid) && exists p :: IsLastUsage(usage, m.uid, p)
  {
    var i :| 0 <= i < |snapshot| && snapshot[i] == m;
    assert usage[i] in usage && usage[i].uid == m.uid;
    EntryExactly(usage, m.uid);
  }

  lemma FreeViewExactly(snapshot: seq<StaticNode>, states: seq<NodeState>, usage: seq<Usage>, n: StaticNode, m: StaticNode, v: View)
    requires UniqueNodes(snapshot) && Normalized(snapshot, states, usage) && m in snapshot && m.uid == n.uid
    ensures Offers(usage, n, v) <==> IsFreeView(snapshot, states, n, v)
  {
    hide IsRest, Normalized, UniqueNodes, Roomy;
    HasUsage(snapshot, states, usage, m);
    var p :| IsLastUsage(usage, m.uid, p);
    UsageAt(snapshot, states, usage, m, p);
    OnlyOne(snapshot, m);
    EntryExactly(usage, m.uid);
    StateExactly(states, m.uid);
    forall q | IsLastState(states, m.uid, q)
      ensures (!usage[p].inUse <==> IsFree(m, states, q))
      ensures usage[p].requested == if states[q].requested.Some? then states[q].requestedAmounts else map[]
    {
      UsageExactly(m, states, q);
    }
    assert (forall q :: !IsLastState(states, m.uid, q)) ==> usage[p].inUse;
  }

  lemma OnlyOne(snapshot: seq<StaticNode>, m: StaticNode)
    requires UniqueNodes(snapshot) && m in snapshot
    ensures forall k :: k in snapshot && k.uid == m.uid ==> k == m
  {
  }

  // Main result: from the scheduler state, the Nodes that may be chosen are exactly those that pass both filters, are
  // known to the state, ready, schedulable and not full; and each offers what is left of it.
  lemma FreeNodesExactly(filters: Filters, snapshot: seq<StaticNode>, nodes: seq<StaticNode>, states: seq<NodeState>, usage: seq<Usage>, views: seq<View>)
    requires UniqueNodes(snapshot) && FromSnapshot(snapshot, nodes) && Normalized(snapshot, states, usage)
    requires AllOffered(filters, usage, nodes, views)
    ensures forall v :: v in views <==> exists n :: n in nodes && filters.selects(n) && filters.placed(n) && IsFreeView(snapshot, states, n, v)
  {
    hide Normalized, UniqueNodes, Offers, IsFreeView;
    forall n, v | n in nodes ensures Offers(usage, n, v) <==> IsFreeView(snapshot, states, n, v) {
      var m :| m in snapshot && m.uid == n.uid && m.name == n.name;
      FreeViewExactly(snapshot, states, usage, n, m, v);
    }
  }

  // ---- Eligible Nodes are known to the scheduler state ----

  predicate UniqueNodes(nodes: seq<StaticNode>) {
    forall i, j :: 0 <= i < j < |nodes| ==> nodes[i].uid != nodes[j].uid
  }

  lemma {:induction false} ViewsExactly(filters: Filters, usage: seq<Usage>, nodes: seq<StaticNode>)
    requires UniqueNodes(nodes)
    ensures forall v :: v in Views(filters, usage, nodes) <==> exists n :: n in nodes && Eligible(filters, usage, n) && v == ViewOf(usage, n)
    ensures DistinctUids(Views(filters, usage, nodes))
  {
    if nodes != [] {
      var front, last := nodes[..|nodes| - 1], nodes[|nodes| - 1];
      ViewsExactly(filters, usage, front);
      assert forall n :: n in nodes <==> n in front || n == last;
      forall v | v in Views(filters, usage, front) ensures v.uid != last.uid {
        var n :| n in front && v == ViewOf(usage, n);
        var i :| 0 <= i < |front| && nodes[i] == n;
      }
    }
  }

  lemma SortKeepsUids(views: seq<View>)
    requires DistinctUids(views)
    ensures DistinctUids(Sort(NodeLeq, views))
  {
    ApartByUid(views);
    SortKeepsDistinct(NodeLeq, views);
    SameElements(NodeLeq, views);
  }

  function ItemsOf(states: seq<NodeState>): seq<Item> {
    if states == [] then [] else ItemsOf(states[..|states| - 1]) + [Item(states[|states| - 1].uid, states[|states| - 1].name)]
  }

  // Both ends look up the same (last) entry of a UID.
  lemma {:induction false} KnownIsStateOf(states: seq<NodeState>, uid: string)
    ensures uid in Known(ItemsOf(states)) <==> StateOf(states, uid).Some?
    ensures StateOf(states, uid).Some? ==> Known(ItemsOf(states))[uid] == StateOf(states, uid).value.name
  {
    if states != [] {
      KnownIsStateOf(states[..|states| - 1], uid);
      var items := ItemsOf(states);
      assert items[..|items| - 1] == ItemsOf(states[..|states| - 1]);
    }
  }

  // The Nodes joined to the topology are Nodes of the snapshot, each once.
  ghost predicate FromSnapshot(snapshot: seq<StaticNode>, nodes: seq<StaticNode>) {
    && UniqueNodes(nodes)
    && forall n :: n in nodes ==> exists m :: m in snapshot && m.uid == n.uid && m.name == n.name
  }

  lemma EligibleHasState(filters: Filters, snapshot: seq<StaticNode>, states: seq<NodeState>, usage: seq<Usage>, n: StaticNode, m: StaticNode)
    requires Normalized(snapshot, states, usage) && m in snapshot && m.uid == n.uid && Eligible(filters, usage, n)
    ensures StateOf(states, n.uid).Some?
  {
    var i :| 0 <= i < |snapshot| && snapshot[i] == m;
    assert usage[i] in usage && usage[i].uid == n.uid;
    var entry := EntryOf(usage, n.uid).value;
    var k :| 0 <= k < |usage| && usage[k] == entry;
    assert usage[k] == UsageOf(snapshot[k], StateOf(states, snapshot[k].uid)) && snapshot[k].uid == n.uid;
  }

  // The snapshot and the scheduler state name a UID alike.
  predicate SameNames(snapshot: seq<StaticNode>, states: seq<NodeState>) {
    forall n, s :: n in snapshot && s in states && n.uid == s.uid ==> s.name == "" || s.name == n.name
  }

  // The state's (last) entry of this UID bears the Node's name, or none.
  predicate NamedBy(states: seq<NodeState>, n: StaticNode) {
    var state := StateOf(states, n.uid);
    state.Some? && (state.value.name == "" || state.value.name == n.name)
  }

  // Every eligible Node that has a domain at a grouped level is named by the state as the snapshot names it.
  ghost predicate EligibleNamed(filters: Filters, usage: seq<Usage>, nodes: seq<StaticNode>, states: seq<NodeState>, levels: seq<Level>, count: nat)
    requires count <= |levels|
  {
    forall n :: n in nodes && Eligible(filters, usage, n) && Grouped(levels, count, ViewOf(usage, n)) ==> NamedBy(states, n)
  }

  // On the schedulerState path every eligible Node is known to the state, and by its own name exactly when the state
  // names it so.
  lemma ViewsAreKnown(filters: Filters, snapshot: seq<StaticNode>, nodes: seq<StaticNode>, states: seq<NodeState>, usage: seq<Usage>,
                      views: seq<View>, levels: seq<Level>, count: nat)
    requires FromSnapshot(snapshot, nodes) && Normalized(snapshot, states, usage) && count <= |levels|
    requires views == Sort(NodeLeq, Views(filters, usage, nodes))
    ensures DistinctUids(views) && forall v :: v in views ==> v.uid in Known(ItemsOf(states))
    ensures NamesKnown(levels, views, count, ItemsOf(states)) <==> EligibleNamed(filters, usage, nodes, states, levels, count)
    ensures SameNames(snapshot, states) ==> EligibleNamed(filters, usage, nodes, states, levels, count)
  {
    hide Grouped, Known, Views, SameNames, Eligible, Normalized, DistinctUids, ItemsOf, NameKnown, NamedBy, Sort;
    ViewsExactly(filters, usage, nodes);
    SortKeepsUids(Views(filters, usage, nodes));
    SameElements(NodeLeq, Views(filters, usage, nodes));
    forall n | n in nodes && Eligible(filters, usage, n)
      ensures n.uid in Known(ItemsOf(states)) && (NameKnown(ViewOf(usage, n), ItemsOf(states)) <==> NamedBy(states, n))
      ensures SameNames(snapshot, states) ==> NamedBy(states, n)
    {
      var m :| m in snapshot && m.uid == n.uid && m.name == n.name;
      EligibleHasState(filters, snapshot, states, usage, n, m);
      StateNames(snapshot, states, usage, n, m);
    }
  }

  lemma StateNames(snapshot: seq<StaticNode>, states: seq<NodeState>, usage: seq<Usage>, n: StaticNode, m: StaticNode)
    requires m in snapshot && m.uid == n.uid && m.name == n.name && StateOf(states, n.uid).Some?
    ensures n.uid in Known(ItemsOf(states)) && (NameKnown(ViewOf(usage, n), ItemsOf(states)) <==> NamedBy(states, n))
    ensures SameNames(snapshot, states) ==> NamedBy(states, n)
  {
    hide Known, ItemsOf;
    KnownIsStateOf(states, n.uid);
  }

  // On the schedulerState path an answer passes every other check; the names of the Nodes answered decide.
  lemma AllocationNamesDecide(filters: Filters, snapshot: seq<StaticNode>, nodes: seq<StaticNode>, states: seq<NodeState>, usage: seq<Usage>,
                              views: seq<View>, scoring: Scoring, demand: Demand, levels: seq<Level>, count: nat,
                              result: seq<Candidate>, answer: seq<Answered>, identity: Identity)
    requires FromSnapshot(snapshot, nodes) && Normalized(snapshot, states, usage)
    requires views == Sort(NodeLeq, Views(filters, usage, nodes)) && count <= |levels|
    requires NarrowestFit(scoring, demand, GroupsUpTo(levels, views, count), result) && Answers(result, answer)
    ensures Identified(GroupsUpTo(levels, views, count))
    ensures Acceptable(ResponseOf(identity, answer), identity, ItemsOf(states)) <==> AnswerNamedAlike(ItemsOf(states), answer)
    ensures EligibleNamed(filters, usage, nodes, states, levels, count) ==> AnswerNamedAlike(ItemsOf(states), answer)
    ensures SameNames(snapshot, states) ==> AnswerNamedAlike(ItemsOf(states), answer)
  {
    hide NarrowestFit, Answers, Acceptable, Normalized, SameNames, FromSnapshot, Views, Identified, AnswerNamedAlike, NamesKnown, EligibleNamed,
         DistinctUids, ToldApart, Known, Grouped;
    ViewsAreKnown(filters, snapshot, nodes, states, usage, views, levels, count);
    ApartByUid(views);
    GroupsAreIdentified(levels, views, count);
    OnlyNamesDecide(scoring, demand, levels, views, count, result, answer, identity, ItemsOf(states));
  }

  // Main result: end to end on the schedulerState path, from a snapshot of distinct UIDs, the worker's answer passes
  // the controller's check, whatever the demand and the scores, exactly when the state names every eligible Node that
  // is in some group as the snapshot does. (Each of them having a domain at the narrowest level.)
  lemma AllocationIsAccepted(filters: Filters, snapshot: seq<StaticNode>, nodes: seq<StaticNode>, states: seq<NodeState>, usage: seq<Usage>,
                             levels: seq<Level>, count: nat)
    requires FromSnapshot(snapshot, nodes) && Normalized(snapshot, states, usage) && 0 < count <= |levels|
    requires NarrowestFirst(levels, Sort(NodeLeq, Views(filters, usage, nodes)), count)
    ensures AlwaysAccepted(levels, Sort(NodeLeq, Views(filters, usage, nodes)), count, ItemsOf(states))
            <==> EligibleNamed(filters, usage, nodes, states, levels, count)
  {
    hide AlwaysAccepted, NamesKnown, EligibleNamed, NarrowestFirst, Normalized, FromSnapshot, DistinctUids, Known, Views, SameNames;
    var views := Sort(NodeLeq, Views(filters, usage, nodes));
    ViewsAreKnown(filters, snapshot, nodes, states, usage, views, levels, count);
    AnswerIsAccepted(levels, views, count, ItemsOf(states));
  }
}
