/** Why a demand got no group: _unsatisfied_failure in algorithm_server/python/algorithm_worker/worker.py. */
module UnsatisfiedFailure {
  import opened Wrappers
  import opened Text
  import opened Sorting
  import opened ResourcePool
  import opened TopologyGrouping
  import opened Allocation
  import opened UsageStates

  datatype Failure =
    | NodeSelectorNoMatch
    | NoNodesInTopologyScope
    | AllMatchingNodesUnavailable
    | Resources(diagnostic: Diagnostic)
    | NoTopologyGroup
    | NoFeasibleNodeGroup

  // (-selectedNodeCount, groupId)
  predicate CloserLeq(a: Diagnostic, b: Diagnostic) {
    a.count > b.count || (a.count == b.count && Leq(a.groupId, b.groupId))
  }

  lemma CloserOrder()
    ensures TotalOrder(CloserLeq)
  {
    forall a, b ensures CloserLeq(a, b) || CloserLeq(b, a) { LeqTotal(a.groupId, b.groupId); }
    forall a, b, c | CloserLeq(a, b) && CloserLeq(b, c) ensures CloserLeq(a, c) {
      if Leq(a.groupId, b.groupId) && Leq(b.groupId, c.groupId) { LeqTransitive(a.groupId, b.groupId, c.groupId); }
    }
  }

  // The group that came closest, among those the limits ruled out: it took most Nodes, or as many and has the least id.
  ghost predicate Closest(diagnostics: seq<Diagnostic>, d: Diagnostic) {
    && d in diagnostics && d.code != Feasible
    && forall e :: e in diagnostics && e.code != Feasible ==> d.count >= e.count && (d.count == e.count ==> Leq(d.groupId, e.groupId))
  }

  // Each failure exactly in its case; a resource failure reports the group that came closest.
  ghost predicate Explains(counts: Counts, diagnostics: seq<Diagnostic>, groups: seq<Group>, failure: Failure) {
    var some := counts.selected != 0 && counts.placed != 0 && counts.eligible != 0;
    var ruledOut := exists d :: d in diagnostics && d.code != Feasible;
    && (failure == NodeSelectorNoMatch <==> counts.selected == 0)
    && (failure == NoNodesInTopologyScope <==> counts.selected != 0 && counts.placed == 0)
    && (failure == AllMatchingNodesUnavailable <==> counts.selected != 0 && counts.placed != 0 && counts.eligible == 0)
    && (failure.Resources? <==> some && ruledOut)
    && (failure.Resources? ==> Closest(diagnostics, failure.diagnostic))
    && (failure == NoTopologyGroup <==> some && !ruledOut && groups == [])
    && (failure == NoFeasibleNodeGroup <==> some && !ruledOut && groups != [])
  }

  method Explain(counts: Counts, diagnostics: seq<Diagnostic>, groups: seq<Group>) returns (failure: Failure)
    ensures Explains(counts, diagnostics, groups, failure)
  {
    if counts.selected == 0 {
      return NodeSelectorNoMatch;
    }
    if counts.placed == 0 {
      return NoNodesInTopologyScope;
    }
    if counts.eligible == 0 {
      return AllMatchingNodesUnavailable;
    }
    var failures: seq<Diagnostic> := [];
    for i := 0 to |diagnostics|
      invariant forall d :: d in failures <==> d in diagnostics[..i] && d.code != Feasible
    {
      assert forall d :: d in diagnostics[..i + 1] <==> d in diagnostics[..i] || d == diagnostics[i];
      if diagnostics[i].code != Feasible {
        failures := failures + [diagnostics[i]];
      }
    }
    assert diagnostics[..|diagnostics|] == diagnostics;
    if failures != [] {
      FirstIsClosest(failures);
      SortKeeps(CloserLeq, failures);
      return Resources(Sort(CloserLeq, failures)[0]);
    }
    assert forall d :: d in diagnostics && d.code != Feasible ==> d in failures;
    failure := if groups == [] then NoTopologyGroup else NoFeasibleNodeGroup;
  }

  lemma FirstIsClosest(failures: seq<Diagnostic>)
    requires failures != []
    ensures |Sort(CloserLeq, failures)| == |failures|
    ensures Sort(CloserLeq, failures)[0] in failures
    ensures forall e :: e in failures ==> CloserLeq(Sort(CloserLeq, failures)[0], e)
  {
    CloserOrder();
    SortKeeps(CloserLeq, failures);
    SortOrders(CloserLeq, failures);
    SameElements(CloserLeq, failures);
    var sorted := Sort(CloserLeq, failures);
    forall e | e in failures ensures CloserLeq(sorted[0], e) {
      var k :| 0 <= k < |sorted| && sorted[k] == e;
      assert CloserLeq(e, e) by { LeqTotal(e.groupId, e.groupId); }
    }
  }

  // The Nodes of a group report the names of the minimum unbroken.
  predicate Reporting(scoring: Scoring, demand: Demand, g: Group) {
    Unbroken(demand.minimum.Keys, ReportsOf(Ranked(scoring, g)))
  }

  // What a code says about the ranked Nodes: no subset suffices; all of them do, but not the first maxNodes; the first
  // maxNodes do, and would be chosen from without the quota.
  ghost predicate Truth(code: Code, ranked: seq<Scored>, limits: Limits) {
    match code
    case Feasible => IsFeasible(ranked, limits)
    case InsufficientResources => forall s :: Subsequence(s, ranked) ==> !Meets(s, limits.minimum)
    case MaxNodesPreventsMinimum =>
      Meets(ranked, limits.minimum) && (limits.maxNodes >= 0 ==> !Meets(Slice(ranked, limits.maxNodes), limits.minimum))
    case QuotaPreventsMinimum =>
      && Meets(Slice(ranked, limits.maxNodes), limits.minimum) && limits.quota != map[] && !IsFeasible(ranked, limits)
      && (limits.maxNodes >= 0 ==> IsFeasible(ranked, limits.(quota := map[])))
  }

  lemma DiagnosisIsTrue(ranked: seq<Scored>, limits: Limits)
    requires Unbroken(limits.minimum.Keys, ReportsOf(ranked))
    ensures Truth(Diagnosis(ranked, limits), ranked, limits)
  {
    hide Unbroken, Meets, Subsequence, IsFeasible, Slice;
    DiagnosisIsExact(ranked, limits);
  }

  // Main result: the resource explanation tells the truth. The group reported was really ruled out, and where its Nodes
  // report the minimum's names unbroken, what the code says holds of its ranked Nodes.
  lemma ExplanationIsTrue(scoring: Scoring, demand: Demand, groups: seq<Group>, diagnostics: seq<Diagnostic>, d: Diagnostic)
    requires Recorded(scoring, demand, groups, diagnostics) && Closest(diagnostics, d)
    ensures exists g :: g in groups && d == DiagnosticOf(scoring, demand, g) && Chosen(scoring, demand, g) == [] && TriedFor(scoring, demand, g, d)
    ensures forall g :: g in groups && d == DiagnosticOf(scoring, demand, g) && Reporting(scoring, demand, g) ==>
              Truth(d.code, Ranked(scoring, g), LimitsOf(demand, |Ranked(scoring, g)|))
  {
    hide Ranked, Diagnosis, Truth, Unbroken, TriedFor;
    var h :| h in groups && d == DiagnosticOf(scoring, demand, h);
    ReportedIsRuledOut(scoring, demand, diagnostics, d, h);
    forall g | g in groups && d == DiagnosticOf(scoring, demand, g) && Reporting(scoring, demand, g)
      ensures Truth(d.code, Ranked(scoring, g), LimitsOf(demand, |Ranked(scoring, g)|))
    {
      var ranked := Ranked(scoring, g);
      DiagnosisIsTrue(ranked, LimitsOf(demand, |ranked|));
    }
  }

  // The diagnostic of a group bears its id and counts the Nodes that were tried in vain.
  ghost predicate TriedFor(scoring: Scoring, demand: Demand, g: Group, d: Diagnostic) {
    d.groupId == GroupId(g.level, g.domain) && Fails(scoring, demand, g) && exists nodes :: Keeps(scoring, demand, g, nodes) && |nodes| == d.count
  }

  lemma ReportedIsRuledOut(scoring: Scoring, demand: Demand, diagnostics: seq<Diagnostic>, d: Diagnostic, g: Group)
    requires Closest(diagnostics, d) && d == DiagnosticOf(scoring, demand, g)
    ensures Chosen(scoring, demand, g) == [] && TriedFor(scoring, demand, g, d)
  {
    hide Keeps, Fails, Ranked, Picked;
    assert Chosen(scoring, demand, g) == [];
    NoneChosenFails(scoring, demand, g);
    TriedKeeps(scoring, demand, g);
    assert |Tried(scoring, demand, g)| == d.count;
  }
}
