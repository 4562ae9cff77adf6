/**
The controller's own check of an answer, validateResponse in prc/pkg/controller/prc_controller.go, and the proof that
it accepts what the pipeline returns.
*/
module ResponseCheck {
  import opened Wrappers
  import opened Text
  import opened Sorting
  import opened ResourcePool
  import opened TopologyResolution
  import opened TopologyGrouping
  import opened Allocation
  import opened Pipeline

  // What a request and its answer must agree on.
  datatype Identity = Identity(requestId: string, taskUid: string, demandUid: string, generation: int,
                               staticId: string, stateId: string, bootId: string)

  datatype Status = Success | Unsatisfiable | OtherStatus(text: string)
  datatype Response = Response(identity: Identity, status: Status, groups: seq<Answered>)

  // One schedulerState entry, as far as the check looks at it.
  datatype Item = Item(uid: string, name: string)

  // known[uid] = name; a later entry overrides an earlier one.
  function Known(state: seq<Item>): map<string, string> {
    if state == [] then map[] else Known(state[..|state| - 1])[state[|state| - 1].uid := state[|state| - 1].name]
  }

  // ---- What the check requires ----

  predicate NodeOk(known: map<string, string>, n: Scored) {
    0 <= n.score <= 100 && n.uid in known && (known[n.uid] == "" || n.name == known[n.uid])
  }

  // b may follow a.
  predicate NodeStep(a: Scored, b: Scored) {
    b.score < a.score || (b.score == a.score && Leq(a.name, b.name))
  }

  predicate GroupStep(a: Answered, b: Answered) {
    b.groupScore < a.groupScore || (b.groupScore == a.groupScore && Leq(a.groupId, b.groupId))
  }

  predicate GroupOk(known: map<string, string>, g: Answered, k: nat) {
    && g.groupId != "" && g.nodes != [] && g.rank == k + 1
    && (forall i :: 0 <= i < |g.nodes| ==> NodeOk(known, g.nodes[i]))
    && (forall i :: 0 < i < |g.nodes| ==> NodeStep(g.nodes[i - 1], g.nodes[i]))
  }

  function NodeUids(nodes: seq<Scored>): seq<string> {
    if nodes == [] then [] else NodeUids(nodes[..|nodes| - 1]) + [nodes[|nodes| - 1].uid]
  }

  function AllUids(groups: seq<Answered>): seq<string> {
    if groups == [] then [] else AllUids(groups[..|groups| - 1]) + NodeUids(groups[|groups| - 1].nodes)
  }

  predicate GroupsOk(known: map<string, string>, groups: seq<Answered>) {
    && (forall k :: 0 <= k < |groups| ==> GroupOk(known, groups[k], k))
    && (forall k :: 0 < k < |groups| ==> GroupStep(groups[k - 1], groups[k]))
  }

  ghost predicate Acceptable(r: Response, expected: Identity, state: seq<Item>) {
    && r.identity == expected
    && |r.groups| <= 3
    && (r.status == Success || r.status == Unsatisfiable)
    && (r.status == Success ==> r.groups != [])
    && GroupsOk(Known(state), r.groups)
    && Distinct(AllUids(r.groups))
  }

  // ---- The check ----

  // The Nodes of one group: each known and in range, none seen before.
  method CheckNodes(known: map<string, string>, nodes: seq<Scored>, ghost before: seq<string>, seenBefore: set<string>)
    returns (ok: bool, seen: set<string>)
    requires Distinct(before) && forall uid :: uid in before <==> uid in seenBefore
    ensures ok <==> (forall i :: 0 <= i < |nodes| ==> NodeOk(known, nodes[i])) && Distinct(before + NodeUids(nodes))
    ensures ok ==> forall uid :: uid in before + NodeUids(nodes) <==> uid in seen
  {
    seen := seenBefore;
    for i := 0 to |nodes|
      invariant forall k :: 0 <= k < i ==> NodeOk(known, nodes[k])
      invariant Distinct(before + NodeUids(nodes[..i]))
      invariant forall uid :: uid in before + NodeUids(nodes[..i]) <==> uid in seen
    {
      var node := nodes[i];
      if node.score < 0 || node.score > 100 {
        return false, seen;
      }
      if node.uid !in known {
        return false, seen;
      }
      if known[node.uid] != "" && node.name != known[node.uid] {
        return false, seen;
      }
      assert nodes[..i + 1][..i] == nodes[..i];
      OneMore(before + NodeUids(nodes[..i]), node.uid);
      assert before + NodeUids(nodes[..i + 1]) == before + NodeUids(nodes[..i]) + [node.uid];
      if node.uid in seen {
        PrefixOfUids(before, nodes, i + 1);
        return false, seen;
      }
      seen := seen + {node.uid};
    }
    assert nodes[..|nodes|] == nodes;
    ok := true;
  }

  lemma OneMore(uids: seq<string>, uid: string)
    requires Distinct(uids)
    ensures Distinct(uids + [uid]) <==> uid !in uids
  {
    if uid in uids {
      var i :| 0 <= i < |uids| && uids[i] == uid;
      assert (uids + [uid])[i] == (uids + [uid])[|uids|];
    }
  }

  // A repetition among the first Nodes stays one.
  lemma {:induction false} PrefixOfUids(before: seq<string>, nodes: seq<Scored>, i: nat)
    requires i <= |nodes| && !Distinct(before + NodeUids(nodes[..i]))
    ensures !Distinct(before + NodeUids(nodes))
    decreases |nodes| - i
  {
    if i == |nodes| {
      assert nodes[..i] == nodes;
    } else {
      assert nodes[..i + 1][..i] == nodes[..i];
      var a, b := before + NodeUids(nodes[..i]), before + NodeUids(nodes[..i + 1]);
      assert b == a + [nodes[i].uid];
      var j, k :| 0 <= j < k < |a| && a[j] == a[k];
      assert b[j] == b[k];
      PrefixOfUids(before, nodes, i + 1);
    }
  }

  method CheckGroup(known: map<string, string>, g: Answered, k: nat, ghost before: seq<string>, seenBefore: set<string>)
    returns (ok: bool, seen: set<string>)
    requires Distinct(before) && forall uid :: uid in before <==> uid in seenBefore
    ensures ok <==> GroupOk(known, g, k) && Distinct(before + NodeUids(g.nodes))
    ensures ok ==> forall uid :: uid in before + NodeUids(g.nodes) <==> uid in seen
  {
    seen := seenBefore;
    if g.groupId == "" || g.nodes == [] {
      return false, seen;
    }
    if g.rank != k + 1 {
      return false, seen;
    }
    ok, seen := CheckNodes(known, g.nodes, before, seenBefore);
    if !ok {
      return;
    }
    for i := 1 to |g.nodes|
      invariant forall j :: 0 < j < i ==> NodeStep(g.nodes[j - 1], g.nodes[j])
    {
      NameOrder(g.nodes[i - 1].name, g.nodes[i].name);
      if g.nodes[i].score > g.nodes[i - 1].score
         || (g.nodes[i].score == g.nodes[i - 1].score && Less(g.nodes[i].name, g.nodes[i - 1].name)) {
        return false, seen;
      }
    }
  }

  // Go's < on strings.
  predicate Less(a: string, b: string) {
    Leq(a, b) && a != b
  }

  lemma NameOrder(a: string, b: string)
    ensures Less(b, a) <==> !Leq(a, b)
  {
    LeqTotal(a, b);
    if Leq(a, b) && Leq(b, a) { LeqAntisymmetric(a, b); }
  }

  method CheckGroups(known: map<string, string>, groups: seq<Answered>) returns (ok: bool)
    ensures ok <==> GroupsOk(known, groups) && Distinct(AllUids(groups))
  {
    var seen: set<string> := {};
    for k := 0 to |groups|
      invariant forall j :: 0 <= j < k ==> GroupOk(known, groups[j], j)
      invariant forall j :: 0 < j < k ==> GroupStep(groups[j - 1], groups[j])
      invariant Distinct(AllUids(groups[..k])) && forall uid :: uid in AllUids(groups[..k]) <==> uid in seen
    {
      if k > 0 {
        NameOrder(groups[k - 1].groupId, groups[k].groupId);
        if groups[k].groupScore > groups[k - 1].groupScore
           || (groups[k].groupScore == groups[k - 1].groupScore && Less(groups[k].groupId, groups[k - 1].groupId)) {
          return false;
        }
      }
      assert groups[..k + 1][..k] == groups[..k];
      ok, seen := CheckGroup(known, groups[k], k, AllUids(groups[..k]), seen);
      if !ok {
        if !Distinct(AllUids(groups[..k + 1])) { PrefixOfGroups(groups, k + 1); }
        return;
      }
    }
    assert groups[..|groups|] == groups;
    ok := true;
  }

  lemma {:induction false} PrefixOfGroups(groups: seq<Answered>, i: nat)
    requires i <= |groups| && !Distinct(AllUids(groups[..i]))
    ensures !Distinct(AllUids(groups))
    decreases |groups| - i
  {
    if i == |groups| {
      assert groups[..i] == groups;
    } else {
      assert groups[..i + 1][..i] == groups[..i];
      var a, b := AllUids(groups[..i]), AllUids(groups[..i + 1]);
      var j, k :| 0 <= j < k < |a| && a[j] == a[k];
      assert b[j] == b[k];
      PrefixOfGroups(groups, i + 1);
    }
  }

  method ValidateResponse(r: Response, expected: Identity, state: seq<Item>) returns (ok: bool)
    ensures ok <==> Acceptable(r, expected, state)
    ensures ok <==> Verified(r, expected, state)
    ensures ok ==> r.identity == expected && |r.groups| <= 3 && (r.status == Success ==> r.groups != [])
    ensures ok ==> forall k, i :: 0 <= k < |r.groups| && 0 <= i < |r.groups[k].nodes| ==> 0 <= r.groups[k].nodes[i].score <= 100
  {
    AcceptableExactly(r, expected, state);
    if r.identity != expected || |r.groups| > 3 {
      return false;
    }
    if r.status != Success && r.status != Unsatisfiable {
      return false;
    }
    if r.status == Success && r.groups == [] {
      return false;
    }
    var known: map<string, string> := map[];
    for i := 0 to |state|
      invariant known == Known(state[..i])
    {
      assert state[..i + 1][..i] == state[..i];
      known := known[state[i].uid := state[i].name];
    }
    assert state[..|state|] == state;
    ok := CheckGroups(known, r.groups);
  }

  // ---- What acceptance means ----

  // The last entry of the Node's UID, which there is, bears its name or none.
  ghost predicate Recognized(state: seq<Item>, n: Scored) {
    exists p :: IsLastOf(state, n.uid, p) && (state[p].name == "" || state[p].name == n.name)
  }

  predicate IsLastOf(state: seq<Item>, uid: string, p: int) {
    0 <= p < |state| && state[p].uid == uid && forall q :: p < q < |state| ==> state[q].uid != uid
  }

  // No UID twice, in one group or in two.
  ghost predicate UidsApart(groups: seq<Answered>) {
    forall k, i, l, j :: IsAt(groups, k, i) && IsAt(groups, l, j) && groups[k].nodes[i].uid == groups[l].nodes[j].uid ==> k == l && i == j
  }

  predicate IsAt(groups: seq<Answered>, k: int, i: int) {
    0 <= k < |groups| && 0 <= i < |groups[k].nodes|
  }

  // The Nodes of a group are in range, recognized and in the order of their scores, then of their names.
  ghost predicate NodesVerified(nodes: seq<Scored>, state: seq<Item>) {
    && (forall i :: 0 <= i < |nodes| ==> 0 <= nodes[i].score <= 100 && Recognized(state, nodes[i]))
    && (forall i, j :: 0 <= i < j < |nodes| ==>
          nodes[i].score > nodes[j].score || (nodes[i].score == nodes[j].score && Leq(nodes[i].name, nodes[j].name)))
  }

  // All that the controller may rely on, pair by pair.
  ghost predicate Verified(r: Response, expected: Identity, state: seq<Item>) {
    && r.identity == expected && |r.groups| <= 3
    && (r.status == Unsatisfiable || (r.status == Success && r.groups != []))
    && (forall k :: 0 <= k < |r.groups| ==>
          r.groups[k].rank == k + 1 && r.groups[k].groupId != "" && r.groups[k].nodes != [] && NodesVerified(r.groups[k].nodes, state))
    && (forall k, l :: 0 <= k < l < |r.groups| ==>
          Before(r.groups[k].groupScore, r.groups[k].groupId, r.groups[l].groupScore, r.groups[l].groupId))
    && UidsApart(r.groups)
  }

  lemma {:induction false} KnownExactly(state: seq<Item>, uid: string)
    ensures uid in Known(state) <==> exists p :: IsLastOf(state, uid, p)
    ensures forall p :: IsLastOf(state, uid, p) ==> uid in Known(state) && Known(state)[uid] == state[p].name
  {
    if state != [] {
      var front, last := state[..|state| - 1], |state| - 1;
      KnownExactly(front, uid);
      if state[last].uid == uid { assert IsLastOf(state, uid, last); }
      forall p ensures state[last].uid != uid ==> (IsLastOf(state, uid, p) <==> IsLastOf(front, uid, p)) {
        if state[last].uid != uid { LastOfFront(state, uid, p); }
      }
    }
  }

  lemma LastOfFront(state: seq<Item>, uid: string, p: int)
    requires state != [] && state[|state| - 1].uid != uid
    ensures IsLastOf(state, uid, p) <==> IsLastOf(state[..|state| - 1], uid, p)
  {
    var front := state[..|state| - 1];
    if IsLastOf(state, uid, p) {
      forall q | p < q < |front| ensures front[q].uid != uid { assert state[q].uid != uid; }
    }
    if IsLastOf(front, uid, p) {
      forall q | p < q < |state| ensures state[q].uid != uid { if q < |front| { assert front[q].uid != uid; } }
    }
  }

  lemma NodeOkExactly(state: seq<Item>, n: Scored)
    ensures NodeOk(Known(state), n) <==> 0 <= n.score <= 100 && Recognized(state, n)
  {
    hide Known;
    KnownExactly(state, n.uid);
  }

  lemma {:induction false} NodeUidsAt(nodes: seq<Scored>)
    ensures |NodeUids(nodes)| == |nodes| && forall i :: 0 <= i < |nodes| ==> NodeUids(nodes)[i] == nodes[i].uid
  {
    if nodes != [] { NodeUidsAt(nodes[..|nodes| - 1]); }
  }

  ghost predicate HasUid(groups: seq<Answered>, uid: string) {
    exists k, i :: IsAt(groups, k, i) && groups[k].nodes[i].uid == uid
  }

  lemma {:induction false} AllUidsHas(groups: seq<Answered>)
    ensures forall uid :: uid in AllUids(groups) <==> HasUid(groups, uid)
  {
    if groups != [] {
      var front := groups[..|groups| - 1];
      AllUidsHas(front);
      AllUidsNext(groups);
      hide AllUids, NodeUids;
      forall uid ensures uid in AllUids(groups) <==> HasUid(groups, uid) {
        UidIsAt(groups, uid);
      }
    }
  }

  // A UID of the groups is one of the groups in front or one of the last group.
  lemma UidIsAt(groups: seq<Answered>, uid: string)
    requires groups != []
    ensures HasUid(groups, uid) <==> HasUid(groups[..|groups| - 1], uid) || uid in NodeUids(groups[|groups| - 1].nodes)
  {
    var front, last := groups[..|groups| - 1], |groups| - 1;
    NodeUidsAt(groups[last].nodes);
    hide NodeUids;
    if uid in NodeUids(groups[last].nodes) {
      var i :| 0 <= i < |groups[last].nodes| && NodeUids(groups[last].nodes)[i] == uid;
      assert IsAt(groups, last, i);
    }
    if k, i :| IsAt(front, k, i) && front[k].nodes[i].uid == uid {
      assert IsAt(groups, k, i) && groups[k] == front[k];
    }
    if k, i :| IsAt(groups, k, i) && groups[k].nodes[i].uid == uid {
      if k < last {
        assert IsAt(front, k, i) && front[k] == groups[k];
      } else {
        assert NodeUids(groups[last].nodes)[i] in NodeUids(groups[last].nodes);
      }
    }
  }

  lemma DistinctSplit(a: seq<string>, b: seq<string>)
    ensures Distinct(a + b) <==> Distinct(a) && Distinct(b) && forall x :: x in a ==> x !in b
  {
    if Distinct(a + b) {
      forall i, j | 0 <= i < j < |a| ensures a[i] != a[j] { assert (a + b)[i] == a[i] && (a + b)[j] == a[j]; }
      forall i, j | 0 <= i < j < |b| ensures b[i] != b[j] { assert (a + b)[|a| + i] == b[i] && (a + b)[|a| + j] == b[j]; }
      forall i, j | 0 <= i < |a| && 0 <= j < |b| ensures a[i] != b[j] { assert (a + b)[i] == a[i] && (a + b)[|a| + j] == b[j]; }
    }
    if Distinct(a) && Distinct(b) && forall x :: x in a ==> x !in b {
      forall i, j | 0 <= i < j < |a + b| ensures (a + b)[i] != (a + b)[j] {
        if i < |a| <= j { assert a[i] in a && b[j - |a|] in b; }
      }
    }
  }

  lemma {:induction false} DistinctExactly(groups: seq<Answered>)
    ensures Distinct(AllUids(groups)) <==> UidsApart(groups)
  {
    if groups != [] {
      hide Distinct, UidsApart, AllUids, NodeUids;
      var front, last := groups[..|groups| - 1], groups[|groups| - 1];
      DistinctExactly(front);
      DistinctSplit(AllUids(front), NodeUids(last.nodes));
      LastApart(groups);
      assert AllUids(groups) == AllUids(front) + NodeUids(last.nodes) by { AllUidsNext(groups); }
    } else {
      NoUids(groups);
    }
  }

  lemma NoUids(groups: seq<Answered>)
    requires groups == []
    ensures Distinct(AllUids(groups)) && UidsApart(groups)
  {
  }

  lemma AllUidsNext(groups: seq<Answered>)
    requires groups != []
    ensures AllUids(groups) == AllUids(groups[..|groups| - 1]) + NodeUids(groups[|groups| - 1].nodes)
  {
  }

  lemma LastApart(groups: seq<Answered>)
    requires groups != []
    ensures var front, uids := groups[..|groups| - 1], NodeUids(groups[|groups| - 1].nodes);
            UidsApart(groups) <==> UidsApart(front) && Distinct(uids) && forall x :: x in AllUids(front) ==> x !in uids
  {
    var front, nodes := groups[..|groups| - 1], groups[|groups| - 1].nodes;
    var uids := NodeUids(nodes);
    AllUidsHas(front);
    NodeUidsAt(nodes);
    if UidsApart(groups) { ApartSplits(groups); }
    if UidsApart(front) && Distinct(uids) && forall x :: x in AllUids(front) ==> x !in uids { ApartJoins(groups); }
  }

  lemma ApartSplits(groups: seq<Answered>)
    requires groups != [] && UidsApart(groups)
    ensures var front, uids := groups[..|groups| - 1], NodeUids(groups[|groups| - 1].nodes);
            UidsApart(front) && Distinct(uids) && forall x :: x in AllUids(front) ==> x !in uids
  {
    hide AllUids;
    var last := |groups| - 1;
    var front, nodes := groups[..last], groups[last].nodes;
    AllUidsHas(front);
    NodeUidsAt(nodes);
    forall i, j | 0 <= i < j < |nodes| ensures nodes[i].uid != nodes[j].uid { assert IsAt(groups, last, i) && IsAt(groups, last, j); }
    ApartFront(groups, last);
    forall x | x in AllUids(front) ensures x !in NodeUids(nodes) {
      var k, i :| IsAt(front, k, i) && front[k].nodes[i].uid == x;
      assert IsAt(groups, k, i);
    }
  }

  lemma ApartFront(groups: seq<Answered>, last: nat)
    requires last < |groups| && UidsApart(groups)
    ensures UidsApart(groups[..last])
  {
    var front := groups[..last];
    forall k, i, l, j | IsAt(front, k, i) && IsAt(front, l, j) && front[k].nodes[i].uid == front[l].nodes[j].uid ensures k == l && i == j {
      assert IsAt(groups, k, i) && IsAt(groups, l, j);
    }
  }

  lemma ApartJoins(groups: seq<Answered>)
    requires groups != []
    requires var front, uids := groups[..|groups| - 1], NodeUids(groups[|groups| - 1].nodes);
             UidsApart(front) && Distinct(uids) && forall x :: x in AllUids(front) ==> x !in uids
    ensures UidsApart(groups)
  {
    hide AllUids;
    var last := |groups| - 1;
    var front, nodes := groups[..last], groups[last].nodes;
    AllUidsHas(front);
    NodeUidsAt(nodes);
    forall k, i, l, j | IsAt(groups, k, i) && IsAt(groups, l, j) && groups[k].nodes[i].uid == groups[l].nodes[j].uid
      ensures k == l && i == j
    {
      if k < last { assert IsAt(front, k, i) && front[k].nodes[i].uid in AllUids(front); } else { assert NodeUids(nodes)[i] in NodeUids(nodes); }
      if l < last { assert IsAt(front, l, j) && front[l].nodes[j].uid in AllUids(front); } else { assert NodeUids(nodes)[j] in NodeUids(nodes); }
    }
  }

  // Steps in order make every pair ordered.
  lemma {:induction false} NodesOrdered(nodes: seq<Scored>, i: nat, j: nat)
    requires i < j < |nodes| && forall k :: 0 < k < |nodes| ==> NodeStep(nodes[k - 1], nodes[k])
    ensures nodes[i].score > nodes[j].score || (nodes[i].score == nodes[j].score && Leq(nodes[i].name, nodes[j].name))
    decreases j
  {
    if i < j - 1 {
      NodesOrdered(nodes, i, j - 1);
      if nodes[i].score == nodes[j].score { LeqTransitive(nodes[i].name, nodes[j - 1].name, nodes[j].name); }
    }
  }

  lemma {:induction false} GroupsOrdered(groups: seq<Answered>, i: nat, j: nat)
    requires i < j < |groups| && forall k :: 0 < k < |groups| ==> GroupStep(groups[k - 1], groups[k])
    ensures Before(groups[i].groupScore, groups[i].groupId, groups[j].groupScore, groups[j].groupId)
    decreases j
  {
    if i < j - 1 {
      GroupsOrdered(groups, i, j - 1);
      if groups[i].groupScore == groups[j].groupScore { LeqTransitive(groups[i].groupId, groups[j - 1].groupId, groups[j].groupId); }
    }
  }

  lemma NodesExactly(nodes: seq<Scored>, state: seq<Item>)
    ensures (forall i :: 0 <= i < |nodes| ==> NodeOk(Known(state), nodes[i])) && (forall i :: 0 < i < |nodes| ==> NodeStep(nodes[i - 1], nodes[i]))
            <==> NodesVerified(nodes, state)
  {
    hide Known, Recognized;
    forall i | 0 <= i < |nodes| ensures NodeOk(Known(state), nodes[i]) <==> 0 <= nodes[i].score <= 100 && Recognized(state, nodes[i]) {
      NodeOkExactly(state, nodes[i]);
    }
    if forall i :: 0 < i < |nodes| ==> NodeStep(nodes[i - 1], nodes[i]) {
      forall i, j | 0 <= i < j < |nodes| ensures nodes[i].score > nodes[j].score || (nodes[i].score == nodes[j].score && Leq(nodes[i].name, nodes[j].name)) {
        NodesOrdered(nodes, i, j);
      }
    }
  }

  // Main result: the check accepts exactly the responses of which all this holds.
  lemma AcceptableExactly(r: Response, expected: Identity, state: seq<Item>)
    ensures Acceptable(r, expected, state) <==> Verified(r, expected, state)
  {
    hide NodesVerified, NodeOk, NodeStep, Known, UidsApart, Distinct, AllUids;
    DistinctExactly(r.groups);
    forall k | 0 <= k < |r.groups|
      ensures GroupOk(Known(state), r.groups[k], k) <==>
              r.groups[k].rank == k + 1 && r.groups[k].groupId != "" && r.groups[k].nodes != [] && NodesVerified(r.groups[k].nodes, state)
    {
      NodesExactly(r.groups[k].nodes, state);
    }
    if forall k :: 0 < k < |r.groups| ==> GroupStep(r.groups[k - 1], r.groups[k]) {
      forall i, j | 0 <= i < j < |r.groups| ensures Before(r.groups[i].groupScore, r.groups[i].groupId, r.groups[j].groupScore, r.groups[j].groupId) {
        GroupsOrdered(r.groups, i, j);
      }
    }
  }
}
