/**
One allocation from request to answer: the schedulerState path of algorithm_server/go/algorithm/service.go,
AlgorithmWorker.calculate in algorithm_server/python/algorithm_worker/worker.py and PipelineRunner.run in pipeline.py.
*/
module Worker {
  import opened Wrappers
  import opened Sorting
  import opened LeafDomains
  import opened ResourcePool
  import opened TopologyResolution
  import opened TopologyGrouping
  import opened Allocation
  import opened Pipeline
  import opened ResponseCheck
  import opened AnswerAccepted
  import opened UsageStates
  import opened UnsatisfiedFailure
  import RequiredSame
  import TopologySource

  datatype Request = Request(identity: Identity, mode: Mode, constraints: set<Level>, filters: Filters, demand: Demand)

  // Refused: the constraints name a level that the mode does not have.
  datatype Result = Refused | Answer(response: Response, failure: Option<Failure>)

  // The groups that a request makes of these Nodes.
  ghost function GroupsOf(request: Request, nodes: seq<StaticNode>, usage: seq<Usage>): seq<Group>
    requires forall level :: level in request.constraints ==> Order(request.mode, level).Some?
  {
    GroupsUpTo(Levels(request.mode), Sort(NodeLeq, Views(request.filters, usage, nodes)), MaxOrder(request.mode, request.constraints) + 1)
  }

  predicate SomeEligible(request: Request, nodes: seq<StaticNode>, usage: seq<Usage>) {
    exists n :: n in nodes && Eligible(request.filters, usage, n)
  }

  ghost predicate SomeRuledOut(scoring: Scoring, demand: Demand, groups: seq<Group>) {
    exists g :: g in groups && DiagnosticOf(scoring, demand, g).code != Feasible
  }

  // Which failure is reported, in terms of the Nodes and the groups.
  ghost predicate Justified(scoring: Scoring, request: Request, nodes: seq<StaticNode>, usage: seq<Usage>, groups: seq<Group>, failure: Failure) {
    && (failure == NodeSelectorNoMatch <==> forall n :: n in nodes ==> !request.filters.selects(n))
    && (failure == NoNodesInTopologyScope <==>
          (exists n :: n in nodes && request.filters.selects(n)) && forall n :: n in nodes ==> !BothFilters(request.filters)(n))
    && (failure == AllMatchingNodesUnavailable <==>
          (exists n :: n in nodes && BothFilters(request.filters)(n)) && !SomeEligible(request, nodes, usage))
    && (failure.Resources? <==> SomeEligible(request, nodes, usage) && SomeRuledOut(scoring, request.demand, groups))
    && (failure.Resources? ==>
          exists diagnostics :: Recorded(scoring, request.demand, groups, diagnostics) && Closest(diagnostics, failure.diagnostic))
    && (failure == NoTopologyGroup <==> SomeEligible(request, nodes, usage) && groups == [])
    && (failure == NoFeasibleNodeGroup <==>
          SomeEligible(request, nodes, usage) && groups != [] && !SomeRuledOut(scoring, request.demand, groups))
  }

  lemma IsJustified(scoring: Scoring, request: Request, nodes: seq<StaticNode>, usage: seq<Usage>, groups: seq<Group>,
                    diagnostics: seq<Diagnostic>, failure: Failure)
    requires Recorded(scoring, request.demand, groups, diagnostics)
    requires Explains(CountsOf(request.filters, usage, nodes), diagnostics, groups, failure)
    ensures Justified(scoring, request, nodes, usage, groups, failure)
  {
    hide DiagnosticOf, Closest, Views, Passing;
    NonePassExactly(request.filters.selects, nodes);
    NonePassExactly(BothFilters(request.filters), nodes);
    NoneEligibleExactly(request.filters, usage, nodes);
    RuledOutExactly(scoring, request.demand, groups, diagnostics);
  }

  lemma RuledOutExactly(scoring: Scoring, demand: Demand, groups: seq<Group>, diagnostics: seq<Diagnostic>)
    requires Recorded(scoring, demand, groups, diagnostics)
    ensures SomeRuledOut(scoring, demand, groups) <==> exists d :: d in diagnostics && d.code != Feasible
  {
    hide DiagnosticOf;
    if SomeRuledOut(scoring, demand, groups) {
      var g :| g in groups && DiagnosticOf(scoring, demand, g).code != Feasible;
      assert DiagnosticOf(scoring, demand, g) in diagnostics;
    }
  }

  // The answer is the top of the narrowest feasible level and serves the demand; every answered group keeps to one domain of each level
  // that the grouped levels nest in; without an answer the failure explains why.
  ghost predicate Correct(scoring: Scoring, request: Request, nodes: seq<StaticNode>, usage: seq<Usage>, response: Response, failure: Option<Failure>)
    requires forall level :: level in request.constraints ==> Order(request.mode, level).Some?
  {
    var groups, views := GroupsOf(request, nodes, usage), Sort(NodeLeq, Views(request.filters, usage, nodes));
    && (exists candidates :: NarrowestFit(scoring, request.demand, groups, candidates) && Answers(candidates, response.groups))
    && Serves(scoring, request.demand, groups, response.groups)
    && (forall wide :: AllNest(request, views, wide) ==> AnswerShares(scoring, views, wide, response.groups))
    && response == ResponseOf(request.identity, response.groups)
    && (failure.Some? <==> response.groups == [])
    && (failure.Some? ==> Justified(scoring, request, nodes, usage, groups, failure.value))
  }

  // Each grouped level nests in this one.
  ghost predicate AllNest(request: Request, views: seq<View>, wide: Level)
    requires forall level :: level in request.constraints ==> Order(request.mode, level).Some?
  {
    forall k :: 0 <= k <= MaxOrder(request.mode, request.constraints) ==> Nests(views, Levels(request.mode)[k], wide)
  }

  lemma IsCorrect(scoring: Scoring, request: Request, nodes: seq<StaticNode>, usage: seq<Usage>, response: Response, failure: Option<Failure>,
                  candidates: seq<Candidate>, diagnostics: seq<Diagnostic>)
    requires forall level :: level in request.constraints ==> Order(request.mode, level).Some?
    requires DistinctUids(Sort(NodeLeq, Views(request.filters, usage, nodes)))
    requires NarrowestFit(scoring, request.demand, GroupsOf(request, nodes, usage), candidates) && Answers(candidates, response.groups)
    requires response == ResponseOf(request.identity, response.groups)
    requires failure.Some? <==> response.groups == []
    requires failure.Some? ==> Recorded(scoring, request.demand, GroupsOf(request, nodes, usage), diagnostics)
    requires failure.Some? ==> Explains(CountsOf(request.filters, usage, nodes), diagnostics, GroupsOf(request, nodes, usage), failure.value)
    ensures Correct(scoring, request, nodes, usage, response, failure)
  {
    hide NarrowestFit, Answers, Recorded, Explains, Justified, AnswerShares, Nests, MaxOrder, DistinctUids, GroupsUpTo, Order, Serves;
    AnswerServesDemand(scoring, request.demand, GroupsOf(request, nodes, usage), candidates, response.groups);
    var views := Sort(NodeLeq, Views(request.filters, usage, nodes));
    forall wide | AllNest(request, views, wide) ensures AnswerShares(scoring, views, wide, response.groups) {
      AnswerSharesDomain(scoring, request.demand, Levels(request.mode), views, MaxOrder(request.mode, request.constraints) + 1,
                         candidates, response.groups, wide);
    }
    if failure.Some? {
      IsJustified(scoring, request, nodes, usage, GroupsOf(request, nodes, usage), diagnostics, failure.value);
    }
  }

  lemma NoAnswerNoCandidate(candidates: seq<Candidate>, answer: seq<Answered>)
    requires Answers(candidates, answer)
    ensures answer == [] <==> candidates == []
  {
    if candidates != [] {
      var order: nat :| Least(candidates, order) && Ranks(Top(Sort(AnswerLeq, OfOrder(candidates, order))), answer);
      var c :| c in candidates && c.order == order;
      OfOrderHas(candidates, order, c);
      SortKeeps(AnswerLeq, OfOrder(candidates, order));
    }
  }

  lemma {:induction false} OfOrderHas(candidates: seq<Candidate>, order: nat, c: Candidate)
    requires c in candidates && c.order == order
    ensures OfOrder(candidates, order) != []
  {
    var front, last := candidates[..|candidates| - 1], candidates[|candidates| - 1];
    if last.order != order {
      assert c in front;
      OfOrderHas(front, order, c);
    }
  }

  // The eligible Nodes, sorted; those of them in some group; and whether the state names these rightly.
  ghost function ViewsOf(request: Request, nodes: seq<StaticNode>, usage: seq<Usage>): seq<View> {
    Sort(NodeLeq, Views(request.filters, usage, nodes))
  }

  ghost predicate NamedRightly(request: Request, nodes: seq<StaticNode>, usage: seq<Usage>, states: seq<NodeState>)
    requires forall level :: level in request.constraints ==> Order(request.mode, level).Some?
  {
    EligibleNamed(request.filters, usage, nodes, states, Levels(request.mode), MaxOrder(request.mode, request.constraints) + 1)
  }

  ghost predicate LeafDomainsFirst(request: Request, nodes: seq<StaticNode>, usage: seq<Usage>)
    requires forall level :: level in request.constraints ==> Order(request.mode, level).Some?
  {
    NarrowestFirst(Levels(request.mode), ViewsOf(request, nodes, usage), MaxOrder(request.mode, request.constraints) + 1)
  }

  // The answered Nodes are Nodes of the request that pass both filters and are free.
  ghost predicate AnsweredAreFree(scoring: Scoring, filters: Filters, snapshot: seq<StaticNode>, nodes: seq<StaticNode>, states: seq<NodeState>,
                                  answer: seq<Answered>)
  {
    forall k, a :: 0 <= k < |answer| && a in answer[k].nodes ==>
      exists n, v :: n in nodes && filters.selects(n) && filters.placed(n) && IsFreeView(snapshot, states, n, v) && IsNode(scoring, v, a)
  }

  lemma AnsweredAreViews(scoring: Scoring, demand: Demand, levels: seq<Level>, views: seq<View>, count: nat, answer: seq<Answered>, k: nat, a: Scored)
    requires count <= |levels| && Serves(scoring, demand, GroupsUpTo(levels, views, count), answer)
    requires k < |answer| && a in answer[k].nodes
    ensures exists v :: v in views && IsNode(scoring, v, a)
  {
    hide GroupsUpTo, IsNode, LeftOut, Ordered;
    GroupsExactly(levels, views, count);
    var g :| g in GroupsUpTo(levels, views, count) && AnsweredFor(scoring, demand, g, answer[k]);
  }

  lemma FreeAnswer(scoring: Scoring, request: Request, snapshot: seq<StaticNode>, nodes: seq<StaticNode>, states: seq<NodeState>,
                   usage: seq<Usage>, views: seq<View>, answer: seq<Answered>)
    requires forall level :: level in request.constraints ==> Order(request.mode, level).Some?
    requires UniqueNodes(snapshot) && FromSnapshot(snapshot, nodes) && Normalized(snapshot, states, usage)
    requires AllOffered(request.filters, usage, nodes, views) && views == ViewsOf(request, nodes, usage)
    requires Serves(scoring, request.demand, GroupsOf(request, nodes, usage), answer)
    ensures AnsweredAreFree(scoring, request.filters, snapshot, nodes, states, answer)
  {
    hide FromSnapshot, Normalized, Serves, UniqueNodes, IsNode, IsFreeView, AllOffered, GroupsUpTo, ViewsOf, Order, MaxOrder, Levels;
    FreeNodesExactly(request.filters, snapshot, nodes, states, usage, views);
    forall k, a | 0 <= k < |answer| && a in answer[k].nodes
      ensures exists n, v :: n in nodes && request.filters.selects(n) && request.filters.placed(n) && IsFreeView(snapshot, states, n, v) && IsNode(scoring, v, a)
    {
      SameGroups(request, nodes, usage);
      AnsweredAreViews(scoring, request.demand, Levels(request.mode), views, MaxOrder(request.mode, request.constraints) + 1, answer, k, a);
    }
  }

  lemma SameGroups(request: Request, nodes: seq<StaticNode>, usage: seq<Usage>)
    requires forall level :: level in request.constraints ==> Order(request.mode, level).Some?
    ensures GroupsOf(request, nodes, usage) ==
            GroupsUpTo(Levels(request.mode), ViewsOf(request, nodes, usage), MaxOrder(request.mode, request.constraints) + 1)
  {
  }

  // Main result: from a snapshot of distinct UIDs and any scheduler state, every answer is the best the narrowest
  // feasible level has, or comes with the failure that applies; and the controller accepts it if the state names the
  // eligible Nodes as the snapshot does (see AcceptedExactly), or at least those answered.
  method Calculate(scoring: Scoring, request: Request, snapshot: seq<StaticNode>, nodes: seq<StaticNode>, states: seq<NodeState>)
    returns (result: Result)
    requires FromSnapshot(snapshot, nodes)
    ensures result.Refused? <==> exists level :: level in request.constraints && Order(request.mode, level).None?
    ensures result.Answer? ==>
              (Acceptable(result.response, request.identity, ItemsOf(states)) <==> AnswerNamedAlike(ItemsOf(states), result.response.groups))
    ensures result.Answer? && SameNames(snapshot, states) ==> AnswerNamedAlike(ItemsOf(states), result.response.groups)
    ensures result.Answer? && UniqueNodes(snapshot) ==> AnsweredAreFree(scoring, request.filters, snapshot, nodes, states, result.response.groups)
    ensures result.Answer? ==>
              exists usage ::
                && Normalized(snapshot, states, usage) && Correct(scoring, request, nodes, usage, result.response, result.failure)
                && (NamedRightly(request, nodes, usage, states) ==> Acceptable(result.response, request.identity, ItemsOf(states)))
  {
    hide Acceptable, NarrowestFit, Answers, Normalized, Recorded, Explains, EligibleNamed, NamesKnown, DistinctUids, ToldApart, Known,
         GroupsUpTo, MaxOrder, Order, Correct, FromSnapshot, SameNames, Identified, AnswerNamedAlike, CountsOf, AllOffered, AllGrouped,
         AnsweredAreFree, Serves, UniqueNodes, Answering;
    var usage := NormalizeSchedulerState(snapshot, states);
    var views, counts := Build(request.filters, usage, nodes);
    var grouped := Execute(request.mode, views, request.constraints);
    if grouped.None? {
      return Refused;
    }
    ghost var levels, count := Levels(request.mode), MaxOrder(request.mode, request.constraints) + 1;
    ViewsAreKnown(request.filters, snapshot, nodes, states, usage, views, levels, count);
    ApartByUid(views);
    GroupsAreIdentified(levels, views, count);
    var candidates, diagnostics := ExecuteScore(scoring, request.demand, grouped.value);
    var groups := Run(candidates);
    AllocationNamesDecide(request.filters, snapshot, nodes, states, usage, views, scoring, request.demand, levels, count,
                          candidates, groups, request.identity);
    NoAnswerNoCandidate(candidates, groups);
    var failure: Option<Failure> := None;
    if groups == [] {
      var explanation := Explain(counts, diagnostics, grouped.value);
      failure := Some(explanation);
    }
    var response := Response(request.identity, if groups == [] then Unsatisfiable else Success, groups);
    IsCorrect(scoring, request, nodes, usage, response, failure, candidates, diagnostics);
    AnswerServesDemand(scoring, request.demand, GroupsOf(request, nodes, usage), candidates, groups);
    if UniqueNodes(snapshot) {
      FreeAnswer(scoring, request, snapshot, nodes, states, usage, views, groups);
    }
    result := Answer(response, failure);
  }

  // Whatever is asked for and however it is scored, what Calculate returns is accepted.
  ghost predicate AnswersAccepted(request: Request, nodes: seq<StaticNode>, usage: seq<Usage>, states: seq<NodeState>)
    requires forall level :: level in request.constraints ==> Order(request.mode, level).Some?
  {
    forall scoring, demand, response, failure :: Correct(scoring, request.(demand := demand), nodes, usage, response, failure) ==>
      Acceptable(response, request.identity, ItemsOf(states))
  }

  lemma CorrectIsAccepted(scoring: Scoring, request: Request, nodes: seq<StaticNode>, usage: seq<Usage>, states: seq<NodeState>,
                          response: Response, failure: Option<Failure>)
    requires forall level :: level in request.constraints ==> Order(request.mode, level).Some?
    requires AlwaysAccepted(Levels(request.mode), ViewsOf(request, nodes, usage), MaxOrder(request.mode, request.constraints) + 1, ItemsOf(states))
    requires Correct(scoring, request, nodes, usage, response, failure)
    ensures Acceptable(response, request.identity, ItemsOf(states))
  {
    hide NarrowestFit, Answers, Acceptable, Serves, AnswerShares, Justified, AllNest, GroupsUpTo, Order, MaxOrder, Levels, Views;
    var candidates :| NarrowestFit(scoring, request.demand, GroupsOf(request, nodes, usage), candidates) && Answers(candidates, response.groups);
  }

  // Main result: for requests that differ in what they ask for only, every answer is accepted exactly when the state
  // names the eligible Nodes in some group as the snapshot does, each of them having a leaf domain if any.
  lemma AcceptedExactly(request: Request, snapshot: seq<StaticNode>, nodes: seq<StaticNode>, states: seq<NodeState>, usage: seq<Usage>)
    requires forall level :: level in request.constraints ==> Order(request.mode, level).Some?
    requires FromSnapshot(snapshot, nodes) && Normalized(snapshot, states, usage) && LeafDomainsFirst(request, nodes, usage)
    ensures AnswersAccepted(request, nodes, usage, states) <==> NamedRightly(request, nodes, usage, states)
  {
    hide AlwaysAccepted, EligibleNamed, NamesKnown, Correct, Acceptable, FromSnapshot, Normalized, Views, MaxOrder, Order, Levels, DistinctUids, Known,
         NarrowestFit, Answers, GroupsUpTo, NameKnown, Grouped, SameNames;
    var levels, views, count := Levels(request.mode), ViewsOf(request, nodes, usage), MaxOrder(request.mode, request.constraints) + 1;
    ViewsAreKnown(request.filters, snapshot, nodes, states, usage, views, levels, count);
    AllocationIsAccepted(request.filters, snapshot, nodes, states, usage, levels, count);
    if NamedRightly(request, nodes, usage, states) {
      forall scoring, demand, response, failure | Correct(scoring, request.(demand := demand), nodes, usage, response, failure)
        ensures Acceptable(response, request.identity, ItemsOf(states))
      {
        CorrectIsAccepted(scoring, request.(demand := demand), nodes, usage, states, response, failure);
      }
    } else {
      RefusedSomehow(request, nodes, usage, states);
    }
  }

  // That hypothesis holds of Nodes joined to leaves that have a leaf domain.
  lemma JoinedHaveLeafDomains(request: Request, nodes: seq<StaticNode>, usage: seq<Usage>, cache: TopologySource.Cache, text: Id -> string)
    requires forall level :: level in request.constraints ==> Order(request.mode, level).Some?
    requires RequiredSame.Rendering(text)
    requires forall v :: v in ViewsOf(request, nodes, usage) ==>
               exists id :: HasLeafDomain(cache, id) && RequiredSame.LiesAt(cache.byLeaf, text, v, id)
    ensures LeafDomainsFirst(request, nodes, usage)
  {
    hide Views;
    forall v | v in ViewsOf(request, nodes, usage) ensures Field(v, LeafDomain) != "" {
      var id :| HasLeafDomain(cache, id) && RequiredSame.LiesAt(cache.byLeaf, text, v, id);
      assert Field(v, LeafDomain) == text(cache.byLeaf[id].leafDomain);
    }
  }

  lemma RefusedSomehow(request: Request, nodes: seq<StaticNode>, usage: seq<Usage>, states: seq<NodeState>)
    requires forall level :: level in request.constraints ==> Order(request.mode, level).Some?
    requires DistinctUids(ViewsOf(request, nodes, usage)) && LeafDomainsFirst(request, nodes, usage)
    requires !NamesKnown(Levels(request.mode), ViewsOf(request, nodes, usage), MaxOrder(request.mode, request.constraints) + 1, ItemsOf(states))
    ensures !AnswersAccepted(request, nodes, usage, states)
  {
    hide Correct, Acceptable, Views, MaxOrder, Order, Levels, DistinctUids, Known, NarrowestFit, Answers, GroupsUpTo, NameKnown, Grouped, Recorded, Explains;
    var levels, views, count := Levels(request.mode), ViewsOf(request, nodes, usage), MaxOrder(request.mode, request.constraints) + 1;
    var v :| v in views && Grouped(levels, count, v) && !NameKnown(v, ItemsOf(states));
    var result, answer := MisnamedIsRefused(levels, views, count, ItemsOf(states), v);
    var asked := request.(demand := Unlimited);
    IsCorrect(Favouring(v), asked, nodes, usage, ResponseOf(request.identity, answer), None, result, []);
    assert !Acceptable(ResponseOf(request.identity, answer), request.identity, ItemsOf(states));
  }
}
