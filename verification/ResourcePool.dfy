/**
Choosing the Nodes of one group: _select_resource_pool_nodes, _satisfies and _sum_resources in
algorithm_server/python/algorithm_worker/algorithms/loadbalance.py.
*/
module ResourcePool {
  type Resources = map<string, nat>

  datatype Scored = Scored(uid: string, name: string, score: int, available: Resources)

  // The diagnostic code; Feasible is the empty code.
  datatype Code = Feasible | QuotaPreventsMinimum | MaxNodesPreventsMinimum | InsufficientResources

  function Get(r: Resources, name: string): nat {
    if name in r then r[name] else 0
  }

  predicate Satisfies(values: Resources, minimum: Resources) {
    forall name :: name in minimum ==> Get(values, name) >= minimum[name]
  }

  predicate Exceeds(values: Resources, quota: Resources) {
    exists name :: name in quota && Get(values, name) > quota[name]
  }

  // proposed: rebuilt from the names this Node reports, so a total it does not report is dropped.
  function Added(totals: Resources, available: Resources): Resources {
    map name | name in available :: Get(totals, name) + available[name]
  }

  // ranked[:maxNodes], which counts a negative bound from the end.
  function Slice(ranked: seq<Scored>, maxNodes: int): seq<Scored> {
    if maxNodes >= |ranked| then ranked
    else if maxNodes >= 0 then ranked[..maxNodes]
    else if |ranked| + maxNodes >= 0 then ranked[..|ranked| + maxNodes]
    else []
  }

  // ---- True sums ----

  function Sum(nodes: seq<Scored>, name: string): nat {
    if nodes == [] then 0 else Sum(nodes[..|nodes| - 1], name) + Get(nodes[|nodes| - 1].available, name)
  }

  predicate Meets(nodes: seq<Scored>, minimum: Resources) {
    forall name :: name in minimum ==> Sum(nodes, name) >= minimum[name]
  }

  predicate Subsequence(s: seq<Scored>, t: seq<Scored>) {
    s == [] || (t != [] && (Subsequence(s, t[..|t| - 1]) || (s[|s| - 1] == t[|t| - 1] && Subsequence(s[..|s| - 1], t[..|t| - 1]))))
  }

  lemma {:induction false} SubsequenceSum(s: seq<Scored>, t: seq<Scored>, name: string)
    requires Subsequence(s, t)
    ensures Sum(s, name) <= Sum(t, name) && |s| <= |t|
  {
    if s == [] || t == [] {
    } else if Subsequence(s, t[..|t| - 1]) {
      SubsequenceSum(s, t[..|t| - 1], name);
    } else {
      assert Subsequence(s[..|s| - 1], t[..|t| - 1]) && s[|s| - 1] == t[|t| - 1];
      SubsequenceSum(s[..|s| - 1], t[..|t| - 1], name);
    }
  }

  lemma {:induction false} PrefixIsSubsequence(t: seq<Scored>, k: nat)
    requires k <= |t|
    ensures Subsequence(t[..k], t)
  {
    if k == |t| {
      assert t[..k] == t;
      if k != 0 {
        PrefixIsSubsequence(t[..k - 1], k - 1);
        assert t[..k - 1][..k - 1] == t[..k - 1];
      }
    } else {
      PrefixIsSubsequence(t[..|t| - 1], k);
      assert t[..|t| - 1][..k] == t[..k];
    }
  }

  method SumResources(nodes: seq<Scored>) returns (totals: Resources)
    ensures forall name :: Get(totals, name) == Sum(nodes, name)
  {
    totals := map[];
    for i := 0 to |nodes|
      invariant forall name :: Get(totals, name) == Sum(nodes[..i], name)
    {
      assert nodes[..i + 1][..i] == nodes[..i];
      var before, todo := totals, nodes[i].available.Keys;
      while todo != {}
        invariant todo <= nodes[i].available.Keys
        invariant forall name :: Get(totals, name) == Get(before, name) + if name in todo then 0 else Get(nodes[i].available, name)
        decreases todo
      {
        var name :| name in todo;
        totals := totals[name := Get(totals, name) + nodes[i].available[name]];
        todo := todo - {name};
      }
    }
    assert nodes[..|nodes|] == nodes;
  }

  // ---- The greedy choice ----

  // The state of the loop: what is chosen so far, its (rebuilt) totals, the Nodes passed over, and whether the
  // minimum was reached.
  datatype Pick = Pick(selected: seq<Scored>, totals: Resources, rejected: nat, stopped: bool)

  // The limits of a demand.
  datatype Limits = Limits(maxNodes: int, minimum: Resources, quota: Resources)

  function Next(p: Pick, node: Scored, limits: Limits): Pick {
    var proposed := Added(p.totals, node.available);
    if p.stopped || |p.selected| >= limits.maxNodes then p
    else if Exceeds(proposed, limits.quota) then p.(rejected := p.rejected + 1)
    else Pick(p.selected + [node], proposed, p.rejected, limits.minimum != map[] && Satisfies(proposed, limits.minimum))
  }

  // The state after the Nodes given.
  function Picked(nodes: seq<Scored>, limits: Limits): Pick {
    if nodes == [] then Pick([], map[], 0, false) else Next(Picked(nodes[..|nodes| - 1], limits), nodes[|nodes| - 1], limits)
  }

  predicate IsFeasible(ranked: seq<Scored>, limits: Limits) {
    limits.minimum == map[] || Satisfies(Picked(ranked, limits).totals, limits.minimum)
  }

  function Selection(ranked: seq<Scored>, limits: Limits): seq<Scored> {
    if IsFeasible(ranked, limits) then Picked(ranked, limits).selected else []
  }

  function Diagnosis(ranked: seq<Scored>, limits: Limits): Code {
    if IsFeasible(ranked, limits) then Feasible
    else if limits.quota != map[] && Meets(Slice(ranked, limits.maxNodes), limits.minimum) then QuotaPreventsMinimum
    else if limits.maxNodes < |ranked| && Meets(ranked, limits.minimum) then MaxNodesPreventsMinimum
    else InsufficientResources
  }

  method Diagnose(ranked: seq<Scored>, limits: Limits) returns (code: Code)
    ensures code == if limits.quota != map[] && Meets(Slice(ranked, limits.maxNodes), limits.minimum) then QuotaPreventsMinimum
                    else if limits.maxNodes < |ranked| && Meets(ranked, limits.minimum) then MaxNodesPreventsMinimum
                    else InsufficientResources
  {
    var withoutQuota := SumResources(Slice(ranked, limits.maxNodes));
    var all := SumResources(ranked);
    if limits.quota != map[] && Satisfies(withoutQuota, limits.minimum) {
      return QuotaPreventsMinimum;
    }
    if limits.maxNodes < |ranked| && Satisfies(all, limits.minimum) {
      return MaxNodesPreventsMinimum;
    }
    code := InsufficientResources;
  }

  method Choose(ranked: seq<Scored>, limits: Limits) returns (selected: seq<Scored>, totals: Resources, rejected: nat)
    ensures var p := Picked(ranked, limits); selected == p.selected && totals == p.totals && rejected == p.rejected
  {
    selected, totals, rejected := [], map[], 0;
    var i := 0;
    while i < |ranked|
      invariant i <= |ranked|
      invariant Picked(ranked[..i], limits) == Pick(selected, totals, rejected, false)
    {
      if |selected| >= limits.maxNodes {
        Unchanged(ranked, i, limits);
        return;
      }
      PickedStep(ranked, i, limits);
      var proposed := Added(totals, ranked[i].available);
      if Exceeds(proposed, limits.quota) {
        rejected, i := rejected + 1, i + 1;
        continue;
      }
      selected, totals, i := selected + [ranked[i]], proposed, i + 1;
      if limits.minimum != map[] && Satisfies(totals, limits.minimum) {
        Unchanged(ranked, i, limits);
        return;
      }
    }
    assert ranked[..|ranked|] == ranked;
  }

  lemma PickedStep(ranked: seq<Scored>, i: nat, limits: Limits)
    requires i < |ranked|
    ensures Picked(ranked[..i + 1], limits) == Next(Picked(ranked[..i], limits), ranked[i], limits)
  {
    assert ranked[..i + 1][..i] == ranked[..i];
  }

  method SelectResourcePoolNodes(ranked: seq<Scored>, limits: Limits) returns (result: seq<Scored>, code: Code, count: nat, rejected: nat)
    ensures result == Selection(ranked, limits) && code == Diagnosis(ranked, limits)
    ensures count == |Picked(ranked, limits).selected| && rejected == Picked(ranked, limits).rejected
  {
    var selected, totals;
    selected, totals, rejected := Choose(ranked, limits);
    count := |selected|;
    if limits.minimum != map[] && !Satisfies(totals, limits.minimum) {
      code := Diagnose(ranked, limits);
      return [], code, count, rejected;
    }
    result, code := selected, Feasible;
  }

  lemma {:induction false} Unchanged(ranked: seq<Scored>, i: nat, limits: Limits)
    requires i <= |ranked|
    requires var p := Picked(ranked[..i], limits); p.stopped || |p.selected| >= limits.maxNodes
    ensures Picked(ranked, limits) == Picked(ranked[..i], limits)
    decreases |ranked| - i
  {
    if i == |ranked| {
      assert ranked[..i] == ranked;
    } else {
      assert ranked[..i + 1][..i] == ranked[..i];
      Unchanged(ranked, i + 1, limits);
    }
  }

  // ---- Soundness ----

  lemma {:induction false} PickedInOrder(nodes: seq<Scored>, limits: Limits)
    ensures Subsequence(Picked(nodes, limits).selected, nodes)
    ensures |Picked(nodes, limits).selected| <= if limits.maxNodes < 0 then 0 else limits.maxNodes
  {
    if nodes != [] {
      PickedInOrder(nodes[..|nodes| - 1], limits);
    }
  }

  // The rebuilt totals never exceed the true sums.
  lemma {:induction false} TotalsBelow(nodes: seq<Scored>, limits: Limits, name: string)
    ensures Get(Picked(nodes, limits).totals, name) <= Sum(Picked(nodes, limits).selected, name)
  {
    if nodes != [] {
      var before, after := Picked(nodes[..|nodes| - 1], limits), Picked(nodes, limits);
      TotalsBelow(nodes[..|nodes| - 1], limits, name);
      if after.selected != before.selected {
        assert after.selected[..|after.selected| - 1] == before.selected;
      }
    }
  }

  predicate Reports(nodes: seq<Scored>, names: set<string>) {
    forall n, name :: n in nodes && name in names ==> name in n.available
  }

  // When every Node reports the name they are the true sums.
  lemma {:induction false} TotalsExact(nodes: seq<Scored>, limits: Limits, name: string)
    requires Reports(nodes, {name})
    ensures Get(Picked(nodes, limits).totals, name) == Sum(Picked(nodes, limits).selected, name)
  {
    if nodes != [] {
      var before, after := Picked(nodes[..|nodes| - 1], limits), Picked(nodes, limits);
      TotalsExact(nodes[..|nodes| - 1], limits, name);
      if after.selected != before.selected {
        assert after.selected[..|after.selected| - 1] == before.selected;
        assert nodes[|nodes| - 1] in nodes;
      }
    }
  }

  // Main result: whatever the Nodes report, a returned selection keeps the ranked order, stays within maxNodes and
  // truly meets the minimum.
  lemma SelectionIsSound(ranked: seq<Scored>, limits: Limits)
    ensures Subsequence(Selection(ranked, limits), ranked)
    ensures |Selection(ranked, limits)| <= if limits.maxNodes < 0 then 0 else limits.maxNodes
    ensures IsFeasible(ranked, limits) ==> Meets(Selection(ranked, limits), limits.minimum)
  {
    PickedInOrder(ranked, limits);
    forall name ensures Get(Picked(ranked, limits).totals, name) <= Sum(Picked(ranked, limits).selected, name) {
      TotalsBelow(ranked, limits, name);
    }
  }

  // While the loop goes on, what is chosen so far falls short.
  lemma {:induction false} NotYet(nodes: seq<Scored>, limits: Limits)
    requires Reports(nodes, limits.minimum.Keys)
    requires exists name :: name in limits.minimum && limits.minimum[name] > 0
    ensures var p := Picked(nodes, limits);
            (p.stopped ==> p.selected != [] && Satisfies(p.totals, limits.minimum)) && (!p.stopped ==> !Meets(p.selected, limits.minimum))
  {
    var wanted :| wanted in limits.minimum && limits.minimum[wanted] > 0;
    if nodes == [] {
      assert Sum([], wanted) == 0;
    } else {
      NotYet(nodes[..|nodes| - 1], limits);
      var before, after := Picked(nodes[..|nodes| - 1], limits), Picked(nodes, limits);
      if after.selected != before.selected && !after.stopped {
        var short :| short in limits.minimum && Get(after.totals, short) < limits.minimum[short];
        TotalsExact(nodes, limits, short);
      }
    }
  }

  // Main result: when Nodes report every resource the minimum names, a non-zero minimum is met by the last Node
  // chosen: without it the selection falls short.
  lemma {:induction false} LastIsNeeded(nodes: seq<Scored>, limits: Limits)
    requires Reports(nodes, limits.minimum.Keys)
    requires exists name :: name in limits.minimum && limits.minimum[name] > 0
    ensures var chosen := Picked(nodes, limits).selected;
            chosen != [] ==> !Meets(chosen[..|chosen| - 1], limits.minimum)
  {
    if nodes != [] {
      var front := nodes[..|nodes| - 1];
      LastIsNeeded(front, limits);
      NotYet(front, limits);
      var before, after := Picked(front, limits).selected, Picked(nodes, limits).selected;
      if after != before {
        assert after[..|after| - 1] == before;
      }
    }
  }

  // ---- No Node is passed over without reason ----

  lemma {:induction false} PickedGrows(ranked: seq<Scored>, limits: Limits, i: nat)
    requires i <= |ranked|
    ensures Picked(ranked[..i], limits).selected <= Picked(ranked, limits).selected
    decreases |ranked| - i
  {
    if i == |ranked| {
      assert ranked[..i] == ranked;
    } else {
      PickedStep(ranked, i, limits);
      PickedGrows(ranked, limits, i + 1);
    }
  }

  // Main result: each Node is chosen after those chosen before it, unless these are enough, or truly meet the
  // minimum, or would exceed a quota together with it.
  lemma PassedOverForReason(ranked: seq<Scored>, limits: Limits, i: nat) returns (j: nat)
    requires i < |ranked|
    ensures j <= |Picked(ranked, limits).selected| && j == |Picked(ranked[..i], limits).selected|
    ensures var chosen := Picked(ranked, limits).selected;
            || (j < |chosen| && chosen[j] == ranked[i])
            || j >= limits.maxNodes
            || (limits.minimum != map[] && Meets(chosen[..j], limits.minimum))
            || exists name :: name in limits.quota && Sum(chosen[..j], name) + Get(ranked[i].available, name) > limits.quota[name]
  {
    var before := Picked(ranked[..i], limits);
    j := |before.selected|;
    PickedGrows(ranked, limits, i);
    PickedGrows(ranked, limits, i + 1);
    PickedStep(ranked, i, limits);
    assert Picked(ranked, limits).selected[..j] == before.selected;
    forall name ensures Get(before.totals, name) <= Sum(before.selected, name) { TotalsBelow(ranked[..i], limits, name); }
    StoppedSatisfies(ranked[..i], limits);
    var proposed := Added(before.totals, ranked[i].available);
    if !before.stopped && j < limits.maxNodes && Exceeds(proposed, limits.quota) {
      var name :| name in limits.quota && Get(proposed, name) > limits.quota[name];
      assert Sum(before.selected, name) + Get(ranked[i].available, name) > limits.quota[name];
    }
  }

  // ---- What the diagnosis looks at ----

  // A non-negative bound takes that many from the front, a negative one leaves that many off the end.
  lemma SliceExactly(ranked: seq<Scored>, maxNodes: int)
    ensures Slice(ranked, maxNodes) <= ranked
    ensures maxNodes >= 0 ==> |Slice(ranked, maxNodes)| == if maxNodes <= |ranked| then maxNodes else |ranked|
    ensures maxNodes < 0 ==> |Slice(ranked, maxNodes)| == if -maxNodes <= |ranked| then |ranked| + maxNodes else 0
  {
  }

  // The Nodes looked at are those chosen and those passed over; the loop then went through all or stopped.
  lemma {:induction false} SeenAreChosenOrRejected(nodes: seq<Scored>, limits: Limits)
    ensures var p := Picked(nodes, limits);
            && |p.selected| + p.rejected <= |nodes|
            && (|p.selected| + p.rejected < |nodes| ==>
                  |p.selected| >= limits.maxNodes || (limits.minimum != map[] && Meets(p.selected, limits.minimum)))
            && (limits.quota == map[] ==> p.rejected == 0)
  {
    if nodes != [] {
      var front := nodes[..|nodes| - 1];
      SeenAreChosenOrRejected(front, limits);
      StoppedSatisfies(front, limits);
      forall name ensures Get(Picked(front, limits).totals, name) <= Sum(Picked(front, limits).selected, name) { TotalsBelow(front, limits, name); }
    }
  }

  // ---- Quota ----

  // No Node that lacks the name stands between two that report it.
  predicate Contiguous(reports: seq<bool>) {
    forall i, j, k :: 0 <= i < j < k < |reports| && reports[i] && reports[k] ==> reports[j]
  }

  predicate HasPattern(ranked: seq<Scored>, name: string, reports: seq<bool>) {
    |ranked| == |reports| && forall i :: 0 <= i < |ranked| ==> (name in ranked[i].available <==> reports[i])
  }

  lemma {:induction false} NobodyReports(nodes: seq<Scored>, limits: Limits, name: string)
    requires forall n :: n in nodes ==> name !in n.available
    ensures Sum(Picked(nodes, limits).selected, name) == 0
  {
    if nodes != [] {
      var before, after := Picked(nodes[..|nodes| - 1], limits), Picked(nodes, limits);
      NobodyReports(nodes[..|nodes| - 1], limits, name);
      if after.selected != before.selected {
        assert after.selected[..|after.selected| - 1] == before.selected;
        assert nodes[|nodes| - 1] in nodes;
      }
    }
  }

  lemma SumOfNext(p: Pick, node: Scored, limits: Limits, name: string)
    ensures Sum(Next(p, node, limits).selected, name)
            == Sum(p.selected, name) + if Next(p, node, limits).selected == p.selected then 0 else Get(node.available, name)
  {
    assert (p.selected + [node])[..|p.selected|] == p.selected;
  }

  // The total of a name is the true one as long as a Node that reports it is still to come.
  lemma WithinStep(p: Pick, node: Scored, limits: Limits, name: string, later: bool)
    requires name in limits.quota && Sum(p.selected, name) <= limits.quota[name]
    requires name in node.available || later ==> Get(p.totals, name) == Sum(p.selected, name)
    requires name !in node.available && later ==> Sum(p.selected, name) == 0
    ensures var q := Next(p, node, limits);
            Sum(q.selected, name) <= limits.quota[name] && (later ==> Get(q.totals, name) == Sum(q.selected, name))
  {
    SumOfNext(p, node, limits, name);
  }

  predicate StillToCome(reports: seq<bool>, i: nat) {
    exists k :: i <= k < |reports| && reports[k]
  }

  lemma {:induction false} WithinQuota(ranked: seq<Scored>, limits: Limits, name: string, reports: seq<bool>, i: nat)
    requires i <= |ranked| && HasPattern(ranked, name, reports) && Contiguous(reports) && name in limits.quota
    ensures var p := Picked(ranked[..i], limits);
            Sum(p.selected, name) <= limits.quota[name] && (StillToCome(reports, i) ==> Get(p.totals, name) == Sum(p.selected, name))
  {
    if i == 0 {
      assert Sum([], name) == 0;
    } else {
      WithinQuota(ranked, limits, name, reports, i - 1);
      PickedStep(ranked, i - 1, limits);
      var later := StillToCome(reports, i);
      if !reports[i - 1] && later {
        assert forall k :: 0 <= k < i - 1 ==> !reports[k];
        NobodyReports(ranked[..i - 1], limits, name);
      }
      WithinStep(Picked(ranked[..i - 1], limits), ranked[i - 1], limits, name, later);
    }
  }

  // Each Node once, by its UID.
  ghost predicate OwnUids(ranked: seq<Scored>) {
    forall i, j :: 0 <= i < j < |ranked| ==> ranked[i].uid != ranked[j].uid
  }

  // The quota of a name holds for every selection from Nodes that report it in this pattern.
  ghost predicate AlwaysWithin(name: string, reports: seq<bool>) {
    forall ranked: seq<Scored>, limits: Limits :: OwnUids(ranked) && HasPattern(ranked, name, reports) && name in limits.quota ==>
      Sum(Selection(ranked, limits), name) <= limits.quota[name]
  }

  // The UIDs (and names) of the Nodes made up below: "", "n", "nn", ..., which is also their ranked order.
  function MadeUid(m: nat): (uid: string)
    ensures |uid| == m
  {
    seq(m, k => 'n')
  }

  // The m-th Node, which reports the name with this amount, or not at all.
  function Sample(m: nat, name: string, reported: bool, amount: nat): Scored {
    Scored(MadeUid(m), MadeUid(m), 0, if reported then map[name := amount] else map[])
  }

  // One unit at i and at k, none elsewhere.
  function Samples(name: string, reports: seq<bool>, i: nat, k: nat): seq<Scored> {
    if reports == [] then []
    else
      var last := |reports| - 1;
      Samples(name, reports[..last], i, k) + [Sample(last, name, reports[last], Amount(last, i, k))]
  }

  lemma {:induction false} SamplesAt(name: string, reports: seq<bool>, i: nat, k: nat)
    ensures HasPattern(Samples(name, reports, i, k), name, reports)
    ensures forall m :: 0 <= m < |reports| ==> Samples(name, reports, i, k)[m].uid == MadeUid(m)
    ensures OwnUids(Samples(name, reports, i, k))
  {
    if reports != [] { SamplesAt(name, reports[..|reports| - 1], i, k); }
  }

  // With a quota of one unit, a Node that adds at most one to nothing, or nothing to one, is chosen.
  lemma SampleChosen(p: Pick, m: nat, name: string, reported: bool, amount: nat, limits: Limits)
    requires limits.minimum == map[] && limits.quota == map[name := 1] && |p.selected| < limits.maxNodes && !p.stopped
    requires reported ==> Get(p.totals, name) + amount <= 1
    ensures var q := Next(p, Sample(m, name, reported, amount), limits);
            q.selected == p.selected + [Sample(m, name, reported, amount)] && !q.stopped
            && Get(q.totals, name) == if reported then Get(p.totals, name) + amount else 0
  {
    var proposed := Added(p.totals, Sample(m, name, reported, amount).available);
    assert Get(proposed, name) <= 1;
    assert !Exceeds(proposed, limits.quota);
  }

  function Amount(m: nat, i: nat, k: nat): nat {
    if m == i || m == k then 1 else 0
  }

  // The rebuilt total after m samples, at most: the unit of i is dropped at j.
  function Cap(m: nat, i: nat, j: nat, k: nat): nat {
    if m <= i || j < m <= k then 0 else 1
  }

  ghost predicate AllChosen(p: Pick, samples: seq<Scored>, name: string, cap: nat) {
    p.selected == samples && !p.stopped && Get(p.totals, name) <= cap
  }

  lemma ChosenStep(front: seq<Scored>, m: nat, sample: Scored, limits: Limits, name: string, reported: bool, amount: nat, cap: nat, nextCap: nat)
    requires limits.minimum == map[] && limits.quota == map[name := 1] && limits.maxNodes > |front|
    requires AllChosen(Picked(front, limits), front, name, cap) && sample == Sample(m, name, reported, amount)
    requires reported ==> cap + amount <= 1 && cap + amount <= nextCap
    ensures AllChosen(Picked(front + [sample], limits), front + [sample], name, nextCap)
  {
    SampleChosen(Picked(front, limits), m, name, reported, amount, limits);
    assert (front + [sample])[..|front|] == front;
  }

  lemma {:induction false} SamplesLength(name: string, reports: seq<bool>, i: nat, k: nat)
    ensures |Samples(name, reports, i, k)| == |reports|
  {
    if reports != [] { SamplesLength(name, reports[..|reports| - 1], i, k); }
  }

  lemma CapStep(m: nat, i: nat, j: nat, k: nat)
    requires i < j < k && m != j
    ensures Cap(m, i, j, k) + Amount(m, i, k) <= 1 && Cap(m, i, j, k) + Amount(m, i, k) <= Cap(m + 1, i, j, k)
  {
  }

  // All samples are chosen.
  lemma {:induction false} SamplesChosen(name: string, reports: seq<bool>, i: nat, j: nat, k: nat, limits: Limits)
    requires i < j < k && (j < |reports| ==> !reports[j])
    requires limits.minimum == map[] && limits.quota == map[name := 1] && limits.maxNodes >= |reports|
    ensures AllChosen(Picked(Samples(name, reports, i, k), limits), Samples(name, reports, i, k), name, Cap(|reports|, i, j, k))
  {
    if reports != [] {
      var last := |reports| - 1;
      SamplesChosen(name, reports[..last], i, j, k, limits);
      SamplesLength(name, reports[..last], i, k);
      if reports[last] { CapStep(last, i, j, k); }
      assert reports[..last] < reports;
      ChosenStep(Samples(name, reports[..last], i, k), last, Sample(last, name, reports[last], Amount(last, i, k)), limits, name,
                 reports[last], Amount(last, i, k), Cap(last, i, j, k), Cap(last + 1, i, j, k));
    }
  }

  // Two units are among them.
  lemma {:induction false} SamplesSum(name: string, reports: seq<bool>, i: nat, k: nat)
    requires i < k && (i < |reports| ==> reports[i]) && (k < |reports| ==> reports[k])
    ensures Sum(Samples(name, reports, i, k), name) == (if i < |reports| then 1 else 0) + (if k < |reports| then 1 else 0)
  {
    if reports != [] {
      var last := |reports| - 1;
      SamplesSum(name, reports[..last], i, k);
      assert Samples(name, reports, i, k)[..|Samples(name, reports, i, k)| - 1] == Samples(name, reports[..last], i, k);
    }
  }

  lemma ContiguousIsWithin(name: string, reports: seq<bool>)
    requires Contiguous(reports)
    ensures AlwaysWithin(name, reports)
  {
    forall ranked: seq<Scored>, limits: Limits | OwnUids(ranked) && HasPattern(ranked, name, reports) && name in limits.quota
      ensures Sum(Selection(ranked, limits), name) <= limits.quota[name]
    {
      WithinQuota(ranked, limits, name, reports, |ranked|);
      assert ranked[..|ranked|] == ranked;
    }
  }

  lemma GapExceeds(name: string, reports: seq<bool>, i: nat, j: nat, k: nat)
    requires i < j < k < |reports| && reports[i] && reports[k] && !reports[j]
    ensures !AlwaysWithin(name, reports)
  {
    var ranked, limits := Samples(name, reports, i, k), Limits(|reports|, map[], map[name := 1]);
    SamplesAt(name, reports, i, k);
    SamplesChosen(name, reports, i, j, k, limits);
    SamplesSum(name, reports, i, k);
    assert Sum(Selection(ranked, limits), name) == 2 > limits.quota[name];
  }

  // Main result: the quota of a name is respected, whatever the amounts and the other limits, exactly when no
  // ranked Node that lacks the name stands between two that report it. (Totals forget what a Node does not report.)
  lemma QuotaRespectedExactly(name: string, reports: seq<bool>)
    ensures AlwaysWithin(name, reports) <==> Contiguous(reports)
  {
    if Contiguous(reports) {
      ContiguousIsWithin(name, reports);
    } else {
      var i, j, k :| 0 <= i < j < k < |reports| && reports[i] && reports[k] && !reports[j];
      GapExceeds(name, reports, i, j, k);
    }
  }

  // In particular when every Node reports it.
  lemma ReportedQuotaRespected(ranked: seq<Scored>, limits: Limits, name: string)
    requires name in limits.quota && Reports(ranked, {name})
    ensures Sum(Selection(ranked, limits), name) <= limits.quota[name]
    ensures Sum(Picked(ranked, limits).selected, name) <= limits.quota[name]
  {
    var reports := seq(|ranked|, i => true);
    WithinQuota(ranked, limits, name, reports, |ranked|);
    assert ranked[..|ranked|] == ranked;
  }

  // ---- Diagnosis ----

  lemma {:induction false} WithoutQuota(nodes: seq<Scored>, limits: Limits)
    requires limits.quota == map[] && limits.maxNodes >= 0
    ensures var p := Picked(nodes, limits);
            p.selected <= nodes && |p.selected| <= limits.maxNodes
            && (!p.stopped ==> p.selected == Slice(nodes, limits.maxNodes))
  {
    if nodes != [] {
      var front := nodes[..|nodes| - 1];
      WithoutQuota(front, limits);
      assert front <= nodes;
      assert !Exceeds(Added(Picked(front, limits).totals, nodes[|nodes| - 1].available), limits.quota);
    }
  }

  lemma ShortOfMinimum(ranked: seq<Scored>, limits: Limits)
    requires limits.minimum != map[]
    ensures !Meets(ranked, limits.minimum) ==> !IsFeasible(ranked, limits)
  {
    if IsFeasible(ranked, limits) {
      SelectionIsSound(ranked, limits);
      forall name | name in limits.minimum ensures Sum(ranked, name) >= limits.minimum[name] {
        SubsequenceSum(Picked(ranked, limits).selected, ranked, name);
      }
    }
  }

  // ---- Which reporting makes the minimum exact ----

  function ReportsOf(ranked: seq<Scored>): seq<set<string>> {
    seq(|ranked|, i requires 0 <= i < |ranked| => ranked[i].available.Keys)
  }

  // From the first Node that reports a name up to the last Node that reports any of the names, every Node reports it.
  predicate Unbroken(names: set<string>, reports: seq<set<string>>) {
    forall a, b, i, j, k :: a in names && b in names && 0 <= i <= j <= k < |reports| && a in reports[i] && b in reports[k] ==>
      a in reports[j]
  }

  // Once somebody reports the name, everybody does: then the rebuilt total is the true sum.
  lemma {:induction false} TailExact(nodes: seq<Scored>, limits: Limits, name: string)
    requires forall i, j :: 0 <= i <= j < |nodes| && name in nodes[i].available ==> name in nodes[j].available
    ensures Get(Picked(nodes, limits).totals, name) == Sum(Picked(nodes, limits).selected, name)
  {
    if nodes != [] {
      var last := |nodes| - 1;
      TailExact(nodes[..last], limits, name);
      SumOfNext(Picked(nodes[..last], limits), nodes[last], limits, name);
      if name !in nodes[last].available {
        assert forall n :: n in nodes ==> name !in n.available;
        NobodyReports(nodes, limits, name);
        TotalsBelow(nodes, limits, name);
      }
    }
  }

  // With no quota nothing is passed over, so what is chosen first is everything; it stops if that satisfies.
  lemma StopsWhenSatisfied(nodes: seq<Scored>, limits: Limits)
    requires limits.quota == map[] && nodes != [] && |nodes| <= limits.maxNodes && limits.minimum != map[]
    requires forall name :: name in limits.minimum ==> Get(Picked(nodes, limits).totals, name) == Sum(Picked(nodes, limits).selected, name)
    requires Meets(nodes, limits.minimum)
    ensures Picked(nodes, limits).stopped
  {
    var front := nodes[..|nodes| - 1];
    WithoutQuota(nodes, limits);
    WithoutQuota(front, limits);
    var p := Picked(nodes, limits);
    if !Picked(front, limits).stopped {
      assert !Exceeds(Added(Picked(front, limits).totals, nodes[|nodes| - 1].available), limits.quota);
      assert p.selected == nodes;
    }
  }

  // The last of the first m Nodes that reports any of the names, plus one.
  function LastReporter(names: set<string>, reports: seq<set<string>>, m: nat): (k: nat)
    requires m <= |reports|
    ensures k <= m && forall i :: k <= i < m ==> Silent(names, reports[i])
    ensures k > 0 ==> !Silent(names, reports[k - 1])
  {
    if m == 0 then 0 else if Silent(names, reports[m - 1]) then LastReporter(names, reports, m - 1) else m
  }

  predicate Silent(names: set<string>, reported: set<string>) {
    forall name :: name in names ==> name !in reported
  }

  lemma {:induction false} SilentSum(ranked: seq<Scored>, k: nat, m: nat, name: string)
    requires k <= m <= |ranked| && forall i :: k <= i < m ==> name !in ranked[i].available
    ensures Sum(ranked[..k], name) == Sum(ranked[..m], name)
  {
    if k < m {
      SilentSum(ranked, k, m - 1, name);
      assert ranked[..m][..m - 1] == ranked[..m - 1];
    }
  }

  lemma UnbrokenIsFeasible(ranked: seq<Scored>, limits: Limits)
    requires limits.quota == map[] && limits.maxNodes >= 0 && Unbroken(limits.minimum.Keys, ReportsOf(ranked))
    requires Meets(Slice(ranked, limits.maxNodes), limits.minimum)
    ensures IsFeasible(ranked, limits)
  {
    hide Unbroken, Picked, IsFeasible;
    var names, reports, top := limits.minimum.Keys, ReportsOf(ranked), Slice(ranked, limits.maxNodes);
    var k := LastReporter(names, reports, |top|);
    var first := ranked[..k];
    assert top == ranked[..|top|];
    forall name | name in names
      ensures Sum(first, name) == Sum(top, name)
      ensures Get(Picked(first, limits).totals, name) == Sum(Picked(first, limits).selected, name)
    {
      assert forall i :: k <= i < |top| ==> Silent(names, reports[i]) && name !in ranked[i].available;
      SilentSum(ranked, k, |top|, name);
      ReportedOnwards(ranked, names, k, name);
      TailExact(first, limits, name);
    }
    EnoughFirst(ranked, limits, k);
  }

  lemma EnoughFirst(ranked: seq<Scored>, limits: Limits, k: nat)
    requires limits.quota == map[] && k <= |ranked| && k <= limits.maxNodes && Meets(ranked[..k], limits.minimum)
    requires forall name :: name in limits.minimum ==>
               Get(Picked(ranked[..k], limits).totals, name) == Sum(Picked(ranked[..k], limits).selected, name)
    ensures IsFeasible(ranked, limits)
  {
    if k == 0 {
      assert forall name :: name in limits.minimum ==> limits.minimum[name] == 0;
    } else if limits.minimum != map[] {
      StopsWhenSatisfied(ranked[..k], limits);
      Unchanged(ranked, k, limits);
      StoppedSatisfies(ranked, limits);
    }
  }

  lemma ReportedOnwards(ranked: seq<Scored>, names: set<string>, k: nat, name: string)
    requires Unbroken(names, ReportsOf(ranked)) && k <= |ranked| && name in names
    requires k > 0 ==> !Silent(names, ReportsOf(ranked)[k - 1])
    ensures forall i, j :: 0 <= i <= j < k && name in ranked[..k][i].available ==> name in ranked[..k][j].available
  {
    if k > 0 {
      var reports := ReportsOf(ranked);
      var b :| b in names && b in reports[k - 1];
      forall i, j | 0 <= i <= j < k && name in reports[i] ensures name in reports[j] {
        assert name in reports[i] && b in reports[k - 1];
      }
      assert forall i :: 0 <= i < k ==> ranked[..k][i].available.Keys == reports[i];
    }
  }

  // Whatever is chosen is part of the top, so with no quota feasible means that the top suffices.
  lemma FeasibleIsEnough(ranked: seq<Scored>, limits: Limits)
    requires limits.quota == map[] && limits.maxNodes >= 0 && IsFeasible(ranked, limits)
    ensures Meets(Slice(ranked, limits.maxNodes), limits.minimum)
  {
    var p, top := Picked(ranked, limits), Slice(ranked, limits.maxNodes);
    WithoutQuota(ranked, limits);
    assert p.selected <= top && p.selected == top[..|p.selected|];
    PrefixIsSubsequence(top, |p.selected|);
    forall name | name in limits.minimum ensures Sum(top, name) >= limits.minimum[name] {
      TotalsBelow(ranked, limits, name);
      SubsequenceSum(p.selected, top, name);
    }
  }

  // Without a quota the choice fails exactly when the top maxNodes fall short.
  lemma NoQuotaExactly(ranked: seq<Scored>, limits: Limits)
    requires limits.quota == map[] && limits.maxNodes >= 0 && Unbroken(limits.minimum.Keys, ReportsOf(ranked))
    ensures IsFeasible(ranked, limits) <==> Meets(Slice(ranked, limits.maxNodes), limits.minimum)
  {
    hide Unbroken, IsFeasible, Meets;
    if IsFeasible(ranked, limits) { FeasibleIsEnough(ranked, limits); }
    if Meets(Slice(ranked, limits.maxNodes), limits.minimum) { UnbrokenIsFeasible(ranked, limits); }
  }

  // For every amounts and limits: without a quota a minimum of these names is reached exactly when the top Nodes have it.
  ghost predicate MinimumExact(names: set<string>, reports: seq<set<string>>) {
    forall ranked: seq<Scored>, limits: Limits ::
      OwnUids(ranked) && ReportsOf(ranked) == reports && limits.minimum.Keys == names && limits.quota == map[] && limits.maxNodes >= 0 ==>
        (IsFeasible(ranked, limits) <==> Meets(Slice(ranked, limits.maxNodes), limits.minimum))
  }

  // For every amounts and limits: INSUFFICIENT_RESOURCES means that all Nodes together fall short.
  ghost predicate DiagnosisExact(names: set<string>, reports: seq<set<string>>) {
    forall ranked: seq<Scored>, limits: Limits :: OwnUids(ranked) && ReportsOf(ranked) == reports && limits.minimum.Keys == names ==>
      (Diagnosis(ranked, limits) == InsufficientResources <==> !Meets(ranked, limits.minimum))
  }

  // ---- The counterexample: a unit of a at i, a unit of b at k, and at j nobody reports a ----

  datatype Broken = Broken(a: string, i: nat, j: nat, b: string, k: nat)

  predicate Breaks(x: Broken, names: set<string>, reports: seq<set<string>>) {
    && x.a in names && x.b in names && x.i <= x.j <= x.k < |reports|
    && x.a in reports[x.i] && x.b in reports[x.k] && x.a !in reports[x.j]
  }

  function Unit(x: Broken, m: nat, name: string): nat {
    (if m == x.i && name == x.a then 1 else 0) + (if m == x.k && name == x.b then 1 else 0)
  }

  function Want(x: Broken, name: string): nat {
    (if name == x.a then 1 else 0) + (if name == x.b then 1 else 0)
  }

  function UnitNode(x: Broken, m: nat, reported: set<string>): Scored {
    Scored(MadeUid(m), MadeUid(m), 0, map name | name in reported :: Unit(x, m, name))
  }

  function Units(x: Broken, reports: seq<set<string>>): (nodes: seq<Scored>)
    ensures |nodes| == |reports| && forall m :: 0 <= m < |nodes| ==> nodes[m] == UnitNode(x, m, reports[m])
  {
    if reports == [] then [] else Units(x, reports[..|reports| - 1]) + [UnitNode(x, |reports| - 1, reports[|reports| - 1])]
  }

  // The units among the first m Nodes.
  lemma {:induction false} UnitSum(x: Broken, names: set<string>, reports: seq<set<string>>, m: nat, name: string)
    requires Breaks(x, names, reports) && m <= |reports|
    ensures Sum(Units(x, reports)[..m], name)
            == (if x.i < m && name == x.a then 1 else 0) + (if x.k < m && name == x.b then 1 else 0)
  {
    if m > 0 {
      var nodes := Units(x, reports);
      UnitSum(x, names, reports, m - 1, name);
      assert nodes[..m][..m - 1] == nodes[..m - 1];
    }
  }

  // Without a quota a Node is chosen as long as nothing stops the loop.
  lemma ChosenNext(nodes: seq<Scored>, limits: Limits)
    requires nodes != [] && limits.quota == map[] && limits.maxNodes >= |nodes| && !Picked(nodes[..|nodes| - 1], limits).stopped
    ensures Picked(nodes, limits).totals == Added(Picked(nodes[..|nodes| - 1], limits).totals, nodes[|nodes| - 1].available)
  {
    var front, last := nodes[..|nodes| - 1], nodes[|nodes| - 1];
    WithoutQuota(front, limits);
    assert Picked(nodes, limits) == Next(Picked(front, limits), last, limits);
    hide Picked, Satisfies, Added;
    assert !Exceeds(Added(Picked(front, limits).totals, last.available), limits.quota);
  }

  // The unit of a at i is lost at j.
  lemma {:induction false} UnitLost(x: Broken, names: set<string>, reports: seq<set<string>>, m: nat, limits: Limits)
    requires Breaks(x, names, reports) && x.j < m <= |reports|
    requires limits.quota == map[] && limits.maxNodes >= |reports| && !Picked(Units(x, reports)[..m - 1], limits).stopped
    ensures Get(Picked(Units(x, reports)[..m], limits).totals, x.a) + 1 <= Sum(Units(x, reports)[..m], x.a)
  {
    hide Picked, Units, MadeUid;
    var nodes := Units(x, reports);
    assert nodes[..m][..m - 1] == nodes[..m - 1];
    ChosenNext(nodes[..m], limits);
    UnitSum(x, names, reports, m, x.a);
    if m - 1 > x.j {
      StoppedStays(nodes, m - 2, limits);
      UnitLost(x, names, reports, m - 1, limits);
      UnitSum(x, names, reports, m - 1, x.a);
    }
  }

  lemma StoppedStays(nodes: seq<Scored>, m: nat, limits: Limits)
    requires m < |nodes| && !Picked(nodes[..m + 1], limits).stopped
    ensures !Picked(nodes[..m], limits).stopped
  {
    PickedStep(nodes, m, limits);
  }

  // The loop goes through all Nodes: before k the units of b are missing, from j on a unit of a is.
  lemma {:induction false} NeverSatisfied(x: Broken, names: set<string>, reports: seq<set<string>>, m: nat, limits: Limits)
    requires Breaks(x, names, reports) && m <= |reports|
    requires limits.quota == map[] && limits.maxNodes >= |reports|
    requires limits.minimum.Keys == names && forall name :: name in names ==> limits.minimum[name] == Want(x, name)
    ensures !Picked(Units(x, reports)[..m], limits).stopped && !Satisfies(Picked(Units(x, reports)[..m], limits).totals, limits.minimum)
  {
    var nodes := Units(x, reports);
    if m == 0 {
      assert Get(map[], x.a) < limits.minimum[x.a];
    } else {
      NeverSatisfied(x, names, reports, m - 1, limits);
      PickedStep(nodes, m - 1, limits);
      WithoutQuota(nodes[..m - 1], limits);
      assert !Exceeds(Added(Picked(nodes[..m - 1], limits).totals, nodes[m - 1].available), limits.quota);
      if m <= x.k {
        TotalsBelow(nodes[..m], limits, x.b);
        PickedInOrder(nodes[..m], limits);
        SubsequenceSum(Picked(nodes[..m], limits).selected, nodes[..m], x.b);
        UnitSum(x, names, reports, m, x.b);
      } else {
        UnitLost(x, names, reports, m, limits);
        UnitSum(x, names, reports, m, x.a);
      }
    }
  }

  function Wants(x: Broken, names: set<string>): Resources {
    map name | name in names :: Want(x, name)
  }

  lemma UnitsReport(x: Broken, reports: seq<set<string>>)
    ensures ReportsOf(Units(x, reports)) == reports && OwnUids(Units(x, reports))
  {
    hide Units, Unit, MadeUid;
    forall m | 0 <= m < |reports| ensures ReportsOf(Units(x, reports))[m] == reports[m] {
      assert UnitNode(x, m, reports[m]).available.Keys == reports[m];
    }
  }

  lemma BrokenMisleads(x: Broken, names: set<string>, reports: seq<set<string>>)
    requires Breaks(x, names, reports)
    ensures !MinimumExact(names, reports) && !DiagnosisExact(names, reports)
  {
    hide Picked, Units;
    var ranked, limits := Units(x, reports), Limits(|reports|, Wants(x, names), map[]);
    assert ranked[..|ranked|] == ranked;
    NeverSatisfied(x, names, reports, |reports|, limits);
    forall name | name in names ensures Sum(ranked, name) == limits.minimum[name] {
      UnitSum(x, names, reports, |reports|, name);
    }
    assert x.a in limits.minimum;
    UnitsReport(x, reports);
    assert Meets(ranked, limits.minimum);
    assert Slice(ranked, limits.maxNodes) == ranked;
    assert limits.minimum != map[] && !IsFeasible(ranked, limits);
  }

  // Main result: whatever the amounts and limits, a minimum of these names is reached without a quota exactly when the
  // top Nodes have it, and INSUFFICIENT_RESOURCES is told exactly when all Nodes fall short, if and only if every Node
  // from the first that reports a name up to the last that reports any of them reports it.
  lemma MinimumExactly(names: set<string>, reports: seq<set<string>>)
    ensures MinimumExact(names, reports) <==> Unbroken(names, reports)
    ensures DiagnosisExact(names, reports) <==> Unbroken(names, reports)
  {
    if Unbroken(names, reports) {
      hide Unbroken, IsFeasible, Meets, Diagnosis, Slice;
      forall ranked: seq<Scored>, limits: Limits | OwnUids(ranked) && ReportsOf(ranked) == reports && limits.minimum.Keys == names
        ensures limits.quota == map[] && limits.maxNodes >= 0 ==> (IsFeasible(ranked, limits) <==> Meets(Slice(ranked, limits.maxNodes), limits.minimum))
        ensures Diagnosis(ranked, limits) == InsufficientResources <==> !Meets(ranked, limits.minimum)
      {
        if limits.quota == map[] && limits.maxNodes >= 0 { NoQuotaExactly(ranked, limits); }
        InsufficientExactly(ranked, limits);
      }
    } else {
      var a, b, i, j, k :| a in names && b in names && 0 <= i <= j <= k < |reports| && a in reports[i] && b in reports[k] && a !in reports[j];
      BrokenMisleads(Broken(a, i, j, b, k), names, reports);
    }
  }

  // A negative maxNodes chooses nothing, and so does zero.
  lemma {:induction false} NoNodesAllowed(ranked: seq<Scored>, limits: Limits)
    requires limits.maxNodes <= 0
    ensures Picked(ranked, limits) == Pick([], map[], 0, false)
    ensures IsFeasible(ranked, limits) <==> forall name :: name in limits.minimum ==> limits.minimum[name] == 0
  {
    if ranked != [] {
      NoNodesAllowed(ranked[..|ranked| - 1], limits);
    }
  }

  lemma {:induction false} StoppedSatisfies(nodes: seq<Scored>, limits: Limits)
    ensures Picked(nodes, limits).stopped ==> limits.minimum != map[] && Satisfies(Picked(nodes, limits).totals, limits.minimum)
  {
    if nodes != [] {
      StoppedSatisfies(nodes[..|nodes| - 1], limits);
    }
  }

  lemma InsufficientExactly(ranked: seq<Scored>, limits: Limits)
    requires Unbroken(limits.minimum.Keys, ReportsOf(ranked))
    ensures Diagnosis(ranked, limits) == InsufficientResources <==> !Meets(ranked, limits.minimum)
  {
    hide Unbroken;
    ShortSlice(ranked, limits.maxNodes, limits.minimum);
    if !Meets(ranked, limits.minimum) {
      assert limits.minimum != map[];
      ShortOfMinimum(ranked, limits);
    } else if limits.maxNodes >= |ranked| && limits.quota == map[] {
      NoQuotaExactly(ranked, limits);
    }
  }

  // Main result: the diagnosis is exact when the Nodes report the minimum's names unbroken.
  lemma DiagnosisIsExact(ranked: seq<Scored>, limits: Limits)
    requires Unbroken(limits.minimum.Keys, ReportsOf(ranked))
    ensures var code, top := Diagnosis(ranked, limits), Slice(ranked, limits.maxNodes);
            && (code == InsufficientResources <==> !Meets(ranked, limits.minimum))
            && (code == InsufficientResources <==> forall s :: Subsequence(s, ranked) ==> !Meets(s, limits.minimum))
    ensures limits.maxNodes >= 0 ==>
              var code, top := Diagnosis(ranked, limits), Slice(ranked, limits.maxNodes);
              && (code == MaxNodesPreventsMinimum <==> Meets(ranked, limits.minimum) && !Meets(top, limits.minimum) && !IsFeasible(ranked, limits))
              && (code == QuotaPreventsMinimum <==> Meets(top, limits.minimum) && !IsFeasible(ranked, limits))
              && (code == QuotaPreventsMinimum ==> limits.quota != map[] && IsFeasible(ranked, limits.(quota := map[])))
  {
    hide Unbroken, Subsequence;
    InsufficientExactly(ranked, limits);
    SubsetsFallShort(ranked, limits.minimum);
    if limits.maxNodes >= 0 {
      NoQuotaExactly(ranked, limits.(quota := map[]));
      ShortSlice(ranked, limits.maxNodes, limits.minimum);
      if limits.quota == map[] { assert limits == limits.(quota := map[]); }
    }
  }

  lemma ShortSlice(ranked: seq<Scored>, maxNodes: int, minimum: Resources)
    ensures Meets(Slice(ranked, maxNodes), minimum) ==> Meets(ranked, minimum)
    ensures maxNodes >= |ranked| ==> Slice(ranked, maxNodes) == ranked
  {
    var top := Slice(ranked, maxNodes);
    PrefixIsSubsequence(ranked, |top|);
    assert top == ranked[..|top|];
    forall name ensures Sum(top, name) <= Sum(ranked, name) { SubsequenceSum(top, ranked, name); }
  }

  lemma SubsetsFallShort(ranked: seq<Scored>, minimum: Resources)
    ensures !Meets(ranked, minimum) <==> forall s :: Subsequence(s, ranked) ==> !Meets(s, minimum)
  {
    PrefixIsSubsequence(ranked, |ranked|);
    assert ranked[..|ranked|] == ranked;
    forall s | Subsequence(s, ranked) && Meets(s, minimum) ensures Meets(ranked, minimum) {
      forall name | name in minimum ensures Sum(ranked, name) >= minimum[name] { SubsequenceSum(s, ranked, name); }
    }
  }
}
