/**
The SCORE stage and the pipeline around it: LoadBalanceAlgorithm.execute in
algorithm_server/python/algorithm_worker/algorithms/loadbalance.py and PipelineRunner.run in pipeline.py.
*/
module Allocation {
  import opened Wrappers
  import opened Text
  import opened Sorting
  import opened ResourcePool
  import opened TopologyResolution
  import opened TopologyGrouping

  // The two numeric parts left abstract: a Node's weighted score rounded to an integer, and a group's score from the
  // Nodes chosen and their topology quality.
  datatype Scoring = Scoring(nodeScore: View -> int, groupScore: (seq<Scored>, seq<View>) -> real)

  // maxNodes defaults to the size of the group.
  datatype Demand = Demand(maxNodes: Option<int>, minimum: Resources, quota: Resources)

  datatype Candidate = Candidate(level: Level, order: nat, domain: string, groupScore: real, nodes: seq<Scored>)

  function Prefix(level: Level): string {
    match level
    case LeafDomain => "leaf-domain"
    case SpineDomain => "spine-domain"
    case BorderDomain => "border-domain"
    case UplinkDomain => "uplink-domain"
    case Room => "room"
    case DataCenter => "data-center"
    case Unknown(name) => name
  }

  function GroupId(level: Level, domain: string): string {
    Prefix(level) + ":" + domain
  }

  // The ids of two groups of the levels there are differ.
  lemma GroupIdsApart(a: Level, b: Level, domainA: string, domainB: string)
    requires !a.Unknown? && !b.Unknown? && GroupId(a, domainA) == GroupId(b, domainB)
    ensures a == b && domainA == domainB
  {
    var s, t := GroupId(a, domainA), GroupId(b, domainB);
    assert s[|Prefix(a)|] == ':' && t[|Prefix(b)|] == ':';
    assert s[|Prefix(a)| + 1..] == domainA && t[|Prefix(b)| + 1..] == domainB;
    assert s[..|Prefix(a)|] == Prefix(a) && t[..|Prefix(b)|] == Prefix(b);
    NoColon(a);
    NoColon(b);
  }

  lemma NoColon(a: Level)
    requires !a.Unknown?
    ensures forall i :: 0 <= i < |Prefix(a)| ==> Prefix(a)[i] != ':'
    ensures forall b: Level :: !b.Unknown? && Prefix(b) == Prefix(a) ==> a == b
  {
    assert |Prefix(LeafDomain)| == 11 && |Prefix(SpineDomain)| == 12 && |Prefix(BorderDomain)| == 13 && |Prefix(UplinkDomain)| == 13;
    assert Prefix(BorderDomain)[0] != Prefix(UplinkDomain)[0] && |Prefix(Room)| == 4 && |Prefix(DataCenter)| == 11;
    assert Prefix(LeafDomain)[0] != Prefix(DataCenter)[0];
  }

  function Clamp(x: int): int {
    if x < 0 then 0 else if x > 100 then 100 else x
  }

  function ScoreNode(scoring: Scoring, v: View): Scored {
    Scored(v.uid, v.name, Clamp(scoring.nodeScore(v)), v.available)
  }

  function LimitsOf(demand: Demand, size: nat): Limits {
    Limits(if demand.maxNodes.Some? then demand.maxNodes.value else size, demand.minimum, demand.quota)
  }

  // (-score, nodeName, nodeUID)
  predicate ScoredLeq(a: Scored, b: Scored) {
    a.score > b.score || (a.score == b.score && if a.name != b.name then Leq(a.name, b.name) else Leq(a.uid, b.uid))
  }

  // (-groupScore, groupId); before it the order, when the candidates come from the SCORE stage.
  predicate IdLeq(a: Candidate, b: Candidate) {
    Leq(GroupId(a.level, a.domain), GroupId(b.level, b.domain))
  }

  predicate AnswerLeq(a: Candidate, b: Candidate) {
    a.groupScore > b.groupScore || (a.groupScore == b.groupScore && IdLeq(a, b))
  }

  predicate CandidateLeq(a: Candidate, b: Candidate) {
    a.groupScore > b.groupScore || (a.groupScore == b.groupScore && (a.order < b.order || (a.order == b.order && IdLeq(a, b))))
  }

  // ---- What the stage computes, scoring every Node afresh in every group ----

  function ScoreAll(scoring: Scoring, nodes: seq<View>): seq<Scored> {
    if nodes == [] then [] else ScoreAll(scoring, nodes[..|nodes| - 1]) + [ScoreNode(scoring, nodes[|nodes| - 1])]
  }

  function Ranked(scoring: Scoring, g: Group): seq<Scored> {
    Sort(ScoredLeq, ScoreAll(scoring, g.nodes))
  }

  function ChosenFrom(demand: Demand, ranked: seq<Scored>): seq<Scored> {
    Selection(ranked, LimitsOf(demand, |ranked|))
  }

  function Chosen(scoring: Scoring, demand: Demand, g: Group): seq<Scored> {
    ChosenFrom(demand, Ranked(scoring, g))
  }

  function UidsOf(nodes: seq<Scored>): set<string> {
    set n | n in nodes :: n.uid
  }

  function Sources(nodes: seq<View>, uids: set<string>): seq<View> {
    if nodes == [] then []
    else Sources(nodes[..|nodes| - 1], uids) + if nodes[|nodes| - 1].uid in uids then [nodes[|nodes| - 1]] else []
  }

  function MakeCandidate(scoring: Scoring, g: Group, chosen: seq<Scored>): Candidate {
    Candidate(g.level, g.order, g.domain, scoring.groupScore(chosen, Sources(g.nodes, UidsOf(chosen))), chosen)
  }

  function CandidateOf(scoring: Scoring, demand: Demand, g: Group): Candidate {
    MakeCandidate(scoring, g, Chosen(scoring, demand, g))
  }

  // The feasible groups among these, as candidates.
  function CandidatesOf(scoring: Scoring, demand: Demand, groups: seq<Group>): seq<Candidate> {
    if groups == [] then []
    else
      var g := groups[|groups| - 1];
      CandidatesOf(scoring, demand, groups[..|groups| - 1]) + if Chosen(scoring, demand, g) != [] then [CandidateOf(scoring, demand, g)] else []
  }

  lemma {:induction false} ScoreAllAt(scoring: Scoring, nodes: seq<View>)
    ensures |ScoreAll(scoring, nodes)| == |nodes|
    ensures forall i :: 0 <= i < |nodes| ==> ScoreAll(scoring, nodes)[i] == ScoreNode(scoring, nodes[i])
  {
    if nodes != [] {
      ScoreAllAt(scoring, nodes[..|nodes| - 1]);
    }
  }

  lemma {:induction false} SubsequenceOrdered(le: (Scored, Scored) -> bool, s: seq<Scored>, t: seq<Scored>)
    requires Subsequence(s, t) && Ordered(le, t)
    ensures Ordered(le, s) && forall x :: x in s ==> x in t
  {
    if s == [] {
    } else if Subsequence(s, t[..|t| - 1]) {
      SubsequenceOrdered(le, s, t[..|t| - 1]);
      assert forall x :: x in t[..|t| - 1] ==> x in t;
    } else {
      assert Subsequence(s[..|s| - 1], t[..|t| - 1]) && s[|s| - 1] == t[|t| - 1];
      SubsequenceOrdered(le, s[..|s| - 1], t[..|t| - 1]);
      assert forall x :: x in s ==> x in s[..|s| - 1] || x == s[|s| - 1];
      forall i | 0 <= i < |s| - 1 ensures le(s[i], s[|s| - 1]) {
        assert s[..|s| - 1][i] in t[..|t| - 1];
      }
    }
  }

  lemma ScoredOrder()
    ensures TotalOrder(ScoredLeq)
  {
    forall a, b ensures ScoredLeq(a, b) || ScoredLeq(b, a) { LeqTotal(a.name, b.name); LeqTotal(a.uid, b.uid); }
    forall a, b, c | ScoredLeq(a, b) && ScoredLeq(b, c) ensures ScoredLeq(a, c) { ScoredTransitive(a, b, c); }
  }

  lemma ScoredTransitive(a: Scored, b: Scored, c: Scored)
    requires ScoredLeq(a, b) && ScoredLeq(b, c)
    ensures ScoredLeq(a, c)
  {
    if a.score == b.score == c.score {
      if a.name != b.name && b.name != c.name {
        LeqTransitive(a.name, b.name, c.name);
        if a.name == c.name { LeqAntisymmetric(a.name, b.name); }
      } else if a.name == b.name == c.name {
        LeqTransitive(a.uid, b.uid, c.uid);
      }
    }
  }

  // ---- What a demand can rely on ----

  // The Node's own UID, name and resources, and its score as far as it is in range.
  predicate IsNode(scoring: Scoring, v: View, n: Scored) {
    && n.uid == v.uid && n.name == v.name && n.available == v.available
    && 0 <= n.score <= 100 && (0 <= scoring.nodeScore(v) <= 100 ==> n.score == scoring.nodeScore(v))
  }

  // Why a Node is not taken after these: there are enough of them, they meet the minimum, or it would break a quota.
  predicate Excluded(demand: Demand, before: seq<Scored>, n: Scored) {
    || (demand.maxNodes.Some? && |before| >= demand.maxNodes.value)
    || (demand.minimum != map[] && ResourcePool.Meets(before, demand.minimum))
    || exists name :: name in demand.quota && Sum(before, name) + Get(n.available, name) > demand.quota[name]
  }

  predicate LeftOut(demand: Demand, nodes: seq<Scored>, n: Scored) {
    exists j :: 0 <= j <= |nodes| && Excluded(demand, nodes[..j], n)
  }

  // The Nodes tried of a group: within maxNodes and a quota that all Nodes of the group report; each a Node of the
  // group, best first; and no Node of the group left out without reason.
  ghost predicate Keeps(scoring: Scoring, demand: Demand, g: Group, nodes: seq<Scored>) {
    && (demand.maxNodes.Some? ==> |nodes| <= if demand.maxNodes.value < 0 then 0 else demand.maxNodes.value)
    && (forall name :: name in demand.quota && (forall v :: v in g.nodes ==> name in v.available) ==> Sum(nodes, name) <= demand.quota[name])
    && (forall n :: n in nodes ==> exists v :: v in g.nodes && IsNode(scoring, v, n))
    && Ordered(ScoredLeq, nodes)
    && (forall v :: v in g.nodes ==> exists n :: IsNode(scoring, v, n) && (n in nodes || LeftOut(demand, nodes, n)))
  }

  // They truly meet the minimum, so they are taken; or they do not, as far as the Nodes of the group report its names.
  ghost predicate Respects(scoring: Scoring, demand: Demand, g: Group, nodes: seq<Scored>) {
    nodes != [] && Keeps(scoring, demand, g, nodes) && ResourcePool.Meets(nodes, demand.minimum)
  }

  ghost predicate Fails(scoring: Scoring, demand: Demand, g: Group) {
    exists nodes :: Keeps(scoring, demand, g, nodes) && (nodes == [] || FallsShort(demand, g, nodes))
  }

  predicate FallsShort(demand: Demand, g: Group, nodes: seq<Scored>) {
    && demand.minimum != map[]
    && ((forall v :: v in g.nodes ==> demand.minimum.Keys <= v.available.Keys) ==> !ResourcePool.Meets(nodes, demand.minimum))
  }

  lemma RankedOfGroup(scoring: Scoring, g: Group)
    ensures Ordered(ScoredLeq, Ranked(scoring, g))
    ensures forall n :: n in Ranked(scoring, g) ==> exists v :: v in g.nodes && n == ScoreNode(scoring, v)
    ensures forall v :: v in g.nodes ==> ScoreNode(scoring, v) in Ranked(scoring, g)
  {
    var scored := ScoreAll(scoring, g.nodes);
    ScoredOrder();
    SortOrders(ScoredLeq, scored);
    SameElements(ScoredLeq, scored);
    ScoreAllAt(scoring, g.nodes);
    forall n | n in scored ensures exists v :: v in g.nodes && n == ScoreNode(scoring, v) {
      var i :| 0 <= i < |scored| && scored[i] == n;
      assert g.nodes[i] in g.nodes;
    }
    forall v | v in g.nodes ensures ScoreNode(scoring, v) in scored {
      var i :| 0 <= i < |g.nodes| && g.nodes[i] == v;
      assert scored[i] in scored;
    }
  }

  lemma NodeOfScore(scoring: Scoring, v: View)
    ensures IsNode(scoring, v, ScoreNode(scoring, v))
  {
  }

  // The limits of the pool are those of the demand.
  lemma NoneLeftOut(scoring: Scoring, demand: Demand, g: Group, n: Scored, nodes: seq<Scored>)
    requires n in Ranked(scoring, g) && nodes == Tried(scoring, demand, g)
    ensures n in nodes || LeftOut(demand, nodes, n)
  {
    hide Ranked, Picked, ResourcePool.Meets, Subsequence;
    var ranked := Ranked(scoring, g);
    var limits := LimitsOf(demand, |ranked|);
    var i :| 0 <= i < |ranked| && ranked[i] == n;
    var j := PassedOverForReason(ranked, limits, i);
    if n !in nodes {
      FewerThanSeen(ranked[..i], limits);
      assert Excluded(demand, nodes[..j], n);
    }
  }

  lemma FewerThanSeen(nodes: seq<Scored>, limits: Limits)
    ensures |Picked(nodes, limits).selected| <= |nodes|
  {
    PickedInOrder(nodes, limits);
    SubsequenceSum(Picked(nodes, limits).selected, nodes, "");
  }

  ghost function Tried(scoring: Scoring, demand: Demand, g: Group): seq<Scored> {
    Picked(Ranked(scoring, g), LimitsOf(demand, |Ranked(scoring, g)|)).selected
  }

  lemma TriedKeeps(scoring: Scoring, demand: Demand, g: Group)
    ensures Keeps(scoring, demand, g, Tried(scoring, demand, g))
  {
    hide Ranked, Picked, LeftOut, IsNode, ScoreNode;
    var ranked := Ranked(scoring, g);
    var limits := LimitsOf(demand, |ranked|);
    var nodes := Tried(scoring, demand, g);
    RankedOfGroup(scoring, g);
    PickedInOrder(ranked, limits);
    SubsequenceOrdered(ScoredLeq, nodes, ranked);
    forall name | name in demand.quota && forall v :: v in g.nodes ==> name in v.available ensures Sum(nodes, name) <= demand.quota[name] {
      AllReport(scoring, g, {name});
      ReportedQuotaRespected(ranked, limits, name);
    }
    forall n | n in nodes ensures exists v :: v in g.nodes && IsNode(scoring, v, n) {
      var v :| v in g.nodes && n == ScoreNode(scoring, v);
      NodeOfScore(scoring, v);
    }
    forall v | v in g.nodes ensures exists n :: IsNode(scoring, v, n) && (n in nodes || LeftOut(demand, nodes, n)) {
      NodeOfScore(scoring, v);
      NoneLeftOut(scoring, demand, g, ScoreNode(scoring, v), nodes);
    }
  }

  lemma AllReport(scoring: Scoring, g: Group, names: set<string>)
    requires forall v :: v in g.nodes ==> names <= v.available.Keys
    ensures Reports(Ranked(scoring, g), names)
  {
    hide Ranked;
    RankedOfGroup(scoring, g);
  }

  lemma ChosenRespects(scoring: Scoring, demand: Demand, g: Group)
    requires Chosen(scoring, demand, g) != []
    ensures Respects(scoring, demand, g, Chosen(scoring, demand, g))
  {
    hide Ranked, Keeps, Picked;
    TriedKeeps(scoring, demand, g);
    SelectionIsSound(Ranked(scoring, g), LimitsOf(demand, |Ranked(scoring, g)|));
  }

  lemma NoneChosenFails(scoring: Scoring, demand: Demand, g: Group)
    requires Chosen(scoring, demand, g) == []
    ensures Fails(scoring, demand, g)
  {
    hide Ranked, Keeps, Picked;
    TriedKeeps(scoring, demand, g);
    var ranked := Ranked(scoring, g);
    var limits := LimitsOf(demand, |ranked|);
    var nodes := Tried(scoring, demand, g);
    if nodes != [] && forall v :: v in g.nodes ==> demand.minimum.Keys <= v.available.Keys {
      AllReport(scoring, g, demand.minimum.Keys);
      forall name | name in demand.minimum ensures Get(Picked(ranked, limits).totals, name) == Sum(nodes, name) {
        TotalsExact(ranked, limits, name);
      }
    }
    assert nodes == [] || FallsShort(demand, g, nodes);
  }

  // The Nodes of the group with these UIDs.
  ghost predicate Backs(g: Group, nodes: seq<Scored>, sources: seq<View>) {
    forall v :: v in sources <==> v in g.nodes && exists n :: n in nodes && n.uid == v.uid
  }

  // A candidate stands for a group, respects the demand there, and is scored for the Nodes taken.
  ghost predicate StandsFor(scoring: Scoring, demand: Demand, g: Group, c: Candidate) {
    && c.level == g.level && c.order == g.order && c.domain == g.domain && Respects(scoring, demand, g, c.nodes)
    && exists sources :: Backs(g, c.nodes, sources) && c.groupScore == scoring.groupScore(c.nodes, sources)
  }

  ghost predicate Stands(scoring: Scoring, demand: Demand, groups: seq<Group>, c: Candidate) {
    exists g :: g in groups && StandsFor(scoring, demand, g, c)
  }

  lemma {:induction false} SourcesExactly(nodes: seq<View>, uids: set<string>)
    ensures forall v :: v in Sources(nodes, uids) <==> v in nodes && v.uid in uids
  {
    if nodes != [] {
      SourcesExactly(nodes[..|nodes| - 1], uids);
      assert forall v :: v in nodes <==> v in nodes[..|nodes| - 1] || v == nodes[|nodes| - 1];
    }
  }

  lemma CandidateStands(scoring: Scoring, demand: Demand, g: Group)
    requires Chosen(scoring, demand, g) != []
    ensures StandsFor(scoring, demand, g, CandidateOf(scoring, demand, g))
  {
    hide Respects, Chosen;
    ChosenRespects(scoring, demand, g);
    var chosen := Chosen(scoring, demand, g);
    SourcesExactly(g.nodes, UidsOf(chosen));
    assert Backs(g, chosen, Sources(g.nodes, UidsOf(chosen)));
  }

  lemma {:induction false} CandidatesStand(scoring: Scoring, demand: Demand, groups: seq<Group>, some: seq<Group>)
    requires forall g :: g in some ==> g in groups
    ensures forall c :: c in CandidatesOf(scoring, demand, some) ==> Stands(scoring, demand, groups, c)
    ensures forall g :: g in some ==> Fails(scoring, demand, g) || exists c :: c in CandidatesOf(scoring, demand, some) && StandsFor(scoring, demand, g, c)
  {
    hide StandsFor, Chosen, Fails;
    if some != [] {
      var front, last := some[..|some| - 1], some[|some| - 1];
      CandidatesStand(scoring, demand, groups, front);
      if Chosen(scoring, demand, last) != [] {
        CandidateStands(scoring, demand, last);
        assert Stands(scoring, demand, groups, CandidateOf(scoring, demand, last));
      } else {
        NoneChosenFails(scoring, demand, last);
      }
      assert forall g :: g in some ==> g in front || g == last;
    }
  }

  // Each candidate stands for a group; and no group is passed over that could do: each that is as narrow has a
  // candidate or fails.
  ghost predicate Answering(scoring: Scoring, demand: Demand, groups: seq<Group>, candidates: seq<Candidate>) {
    && (forall c :: c in candidates ==> Stands(scoring, demand, groups, c))
    && (forall g :: g in groups && (forall c :: c in candidates ==> g.order <= c.order) ==>
          Fails(scoring, demand, g) || exists c :: c in candidates && StandsFor(scoring, demand, g, c))
  }

  lemma LevelAnswers(scoring: Scoring, demand: Demand, groups: seq<Group>, order: nat)
    ensures forall c :: c in CandidatesAt(scoring, demand, groups, order) ==> c.order == order && Stands(scoring, demand, groups, c)
    ensures forall g :: g in groups && g.order == order ==>
              Fails(scoring, demand, g) || exists c :: c in CandidatesAt(scoring, demand, groups, order) && StandsFor(scoring, demand, g, c)
  {
    hide Respects, Fails, Backs;
    AtOrderExactly(groups, order);
    CandidatesStand(scoring, demand, AtOrder(groups, order), AtOrder(groups, order));
    CandidatesStand(scoring, demand, groups, AtOrder(groups, order));
  }

  // Main result: whatever the stage returns respects the demand, and what it leaves out could not.
  lemma FitAnswers(scoring: Scoring, demand: Demand, groups: seq<Group>, result: seq<Candidate>)
    requires NarrowestFit(scoring, demand, groups, result)
    ensures Answering(scoring, demand, groups, result)
  {
    hide Stands, StandsFor, Fails, CandidatesAt;
    if result != [] || exists order :: FitsAt(scoring, demand, groups, order, result) {
      var order: nat :| FitsAt(scoring, demand, groups, order, result);
      SameElements(CandidateLeq, CandidatesAt(scoring, demand, groups, order));
      SortKeeps(CandidateLeq, CandidatesAt(scoring, demand, groups, order));
      LevelAnswers(scoring, demand, groups, order);
      assert result[0] in result;
    }
    forall g | g in groups && forall c :: c in result ==> g.order <= c.order
      ensures Fails(scoring, demand, g) || exists c :: c in result && StandsFor(scoring, demand, g, c)
    {
      LevelAnswers(scoring, demand, groups, g.order);
    }
  }

  // What is recorded about a group: its code and how many Nodes the greedy choice took.
  datatype Diagnostic = Diagnostic(groupId: string, code: Code, count: nat)

  function DiagnosticOf(scoring: Scoring, demand: Demand, g: Group): Diagnostic {
    var ranked := Ranked(scoring, g);
    var limits := LimitsOf(demand, |ranked|);
    Diagnostic(GroupId(g.level, g.domain), Diagnosis(ranked, limits), |Picked(ranked, limits).selected|)
  }

  // These are the diagnostics of exactly the groups given.
  ghost predicate Recorded(scoring: Scoring, demand: Demand, groups: seq<Group>, diagnostics: seq<Diagnostic>) {
    forall d :: d in diagnostics <==> exists g :: g in groups && d == DiagnosticOf(scoring, demand, g)
  }

  function AtOrder(groups: seq<Group>, order: nat): seq<Group> {
    if groups == [] then []
    else AtOrder(groups[..|groups| - 1], order) + if groups[|groups| - 1].order == order then [groups[|groups| - 1]] else []
  }

  function CandidatesAt(scoring: Scoring, demand: Demand, groups: seq<Group>, order: nat): seq<Candidate> {
    CandidatesOf(scoring, demand, AtOrder(groups, order))
  }

  // The narrowest level with a feasible group, all of whose feasible groups are the result, best first.
  ghost predicate NarrowestFit(scoring: Scoring, demand: Demand, groups: seq<Group>, result: seq<Candidate>) {
    || (result == [] && forall order :: CandidatesAt(scoring, demand, groups, order) == [])
    || (exists order :: FitsAt(scoring, demand, groups, order, result))
  }

  ghost predicate FitsAt(scoring: Scoring, demand: Demand, groups: seq<Group>, order: nat, result: seq<Candidate>) {
    && CandidatesAt(scoring, demand, groups, order) != []
    && (forall o :: 0 <= o < order ==> CandidatesAt(scoring, demand, groups, o) == [])
    && result == Sort(CandidateLeq, CandidatesAt(scoring, demand, groups, order))
  }

  // ---- How the stage computes it: every Node scored once per UID ----

  // A UID names one Node; static snapshots with duplicate UIDs are refused on upload.
  ghost predicate Identified(groups: seq<Group>) {
    forall g, h, m, n :: g in groups && h in groups && m in g.nodes && n in h.nodes && m.uid == n.uid ==> m == n
  }

  // The Nodes of the first groups all have an entry, and every entry is a Node of some group.
  ghost predicate Sourced(groups: seq<Group>, done: seq<Group>, sources: map<string, View>) {
    && (forall g, n :: g in done && n in g.nodes ==> n.uid in sources)
    && (forall uid :: uid in sources ==> sources[uid].uid == uid && exists g :: g in groups && sources[uid] in g.nodes)
  }

  method SourceByUid(groups: seq<Group>) returns (sources: map<string, View>)
    ensures Sourced(groups, groups, sources)
  {
    sources := map[];
    for i := 0 to |groups|
      invariant Sourced(groups, groups[..i], sources)
    {
      var nodes := groups[i].nodes;
      for k := 0 to |nodes|
        invariant Sourced(groups, groups[..i], sources)
        invariant forall m :: 0 <= m < k ==> nodes[m].uid in sources
      {
        if nodes[k].uid !in sources {
          assert groups[i] in groups && nodes[k] in groups[i].nodes;
          sources := sources[nodes[k].uid := nodes[k]];
        }
      }
      assert forall g :: g in groups[..i + 1] ==> g in groups[..i] || g == groups[i];
    }
    assert groups[..|groups|] == groups;
  }

  // The cache holds every Node's own score.
  ghost predicate Cached(scoring: Scoring, groups: seq<Group>, scores: map<string, Scored>) {
    forall g, n :: g in groups && n in g.nodes ==> n.uid in scores && scores[n.uid] == ScoreNode(scoring, n)
  }

  method ScoreByUid(scoring: Scoring, groups: seq<Group>) returns (scores: map<string, Scored>)
    requires Identified(groups)
    ensures Cached(scoring, groups, scores)
  {
    hide ScoreNode, Identified, Sourced;
    var sources := SourceByUid(groups);
    scores := map uid | uid in sources :: ScoreNode(scoring, sources[uid]);
    forall g, n | g in groups && n in g.nodes ensures n.uid in scores && scores[n.uid] == ScoreNode(scoring, n) {
      SourceIsNode(groups, sources, g, n);
    }
  }

  lemma SourceIsNode(groups: seq<Group>, sources: map<string, View>, g: Group, n: View)
    requires Identified(groups) && Sourced(groups, groups, sources) && g in groups && n in g.nodes
    ensures n.uid in sources && sources[n.uid] == n
  {
    var h :| h in groups && sources[n.uid] in h.nodes;
  }

  method RankGroup(scoring: Scoring, g: Group, scores: map<string, Scored>) returns (ranked: seq<Scored>)
    requires forall n :: n in g.nodes ==> n.uid in scores && scores[n.uid] == ScoreNode(scoring, n)
    ensures ranked == Ranked(scoring, g)
  {
    var nodes: seq<Scored> := [];
    for k := 0 to |g.nodes|
      invariant nodes == ScoreAll(scoring, g.nodes[..k])
    {
      assert g.nodes[..k + 1][..k] == g.nodes[..k];
      nodes := nodes + [scores[g.nodes[k].uid]];
    }
    assert g.nodes[..|g.nodes|] == g.nodes;
    ranked := Sort(ScoredLeq, nodes);
  }

  // One group: its chosen Nodes and its diagnostic.
  method ChooseFrom(scoring: Scoring, demand: Demand, g: Group, scores: map<string, Scored>) returns (chosen: seq<Scored>, diagnostic: Diagnostic)
    requires forall n :: n in g.nodes ==> n.uid in scores && scores[n.uid] == ScoreNode(scoring, n)
    ensures chosen == Chosen(scoring, demand, g) && diagnostic == DiagnosticOf(scoring, demand, g)
  {
    var ranked := RankGroup(scoring, g, scores);
    var code, count, rejected;
    chosen, code, count, rejected := SelectResourcePoolNodes(ranked, LimitsOf(demand, |ranked|));
    diagnostic := Diagnostic(GroupId(g.level, g.domain), code, count);
  }

  method LevelCandidates(scoring: Scoring, demand: Demand, groups: seq<Group>, scores: map<string, Scored>)
    returns (candidates: seq<Candidate>, diagnostics: seq<Diagnostic>)
    requires Cached(scoring, groups, scores)
    ensures candidates == CandidatesOf(scoring, demand, groups) && Recorded(scoring, demand, groups, diagnostics)
    ensures forall c :: c in candidates ==> Stands(scoring, demand, groups, c)
    ensures forall g :: g in groups ==> Fails(scoring, demand, g) || exists c :: c in candidates && StandsFor(scoring, demand, g, c)
  {
    hide Chosen, DiagnosticOf, StandsFor, Fails;
    candidates, diagnostics := [], [];
    for i := 0 to |groups|
      invariant candidates == CandidatesOf(scoring, demand, groups[..i])
      invariant Recorded(scoring, demand, groups[..i], diagnostics)
    {
      RecordedStep(scoring, demand, groups, i, diagnostics);
      CandidatesStep(scoring, demand, groups, i);
      assert groups[i] in groups;
      var chosen, diagnostic := ChooseFrom(scoring, demand, groups[i], scores);
      diagnostics := diagnostics + [diagnostic];
      if chosen != [] {
        candidates := candidates + [MakeCandidate(scoring, groups[i], chosen)];
      }
    }
    assert groups[..|groups|] == groups;
    CandidatesStand(scoring, demand, groups, groups);
  }

  lemma CandidatesStep(scoring: Scoring, demand: Demand, groups: seq<Group>, i: nat)
    requires i < |groups|
    ensures CandidatesOf(scoring, demand, groups[..i + 1]) == CandidatesOf(scoring, demand, groups[..i])
            + if Chosen(scoring, demand, groups[i]) != [] then [CandidateOf(scoring, demand, groups[i])] else []
  {
    assert groups[..i + 1][..i] == groups[..i];
  }

  lemma RecordedStep(scoring: Scoring, demand: Demand, groups: seq<Group>, i: nat, diagnostics: seq<Diagnostic>)
    requires i < |groups| && Recorded(scoring, demand, groups[..i], diagnostics)
    ensures Recorded(scoring, demand, groups[..i + 1], diagnostics + [DiagnosticOf(scoring, demand, groups[i])])
  {
    assert forall g :: g in groups[..i + 1] <==> g in groups[..i] || g == groups[i];
  }

  method GroupedByOrder(groups: seq<Group>) returns (grouped: map<nat, seq<Group>>)
    ensures GroupedAll(groups, grouped)
  {
    grouped := map[];
    for i := 0 to |groups|
      invariant forall order :: order in grouped ==> grouped[order] == AtOrder(groups[..i], order)
      invariant forall order :: order !in grouped ==> AtOrder(groups[..i], order) == []
    {
      assert groups[..i + 1][..i] == groups[..i];
      var order := groups[i].order;
      var before := if order in grouped then grouped[order] else [];
      grouped := grouped[order := before + [groups[i]]];
    }
    assert groups[..|groups|] == groups;
  }

  ghost predicate LeastOf(s: set<nat>, x: nat) {
    x in s && forall y :: y in s ==> x <= y
  }

  // The next order in ascending sequence.
  method TakeLeast(s: set<nat>) returns (x: nat)
    requires s != {}
    ensures LeastOf(s, x)
  {
    x :| x in s;
    var todo := s - {x};
    while todo != {}
      invariant todo <= s && x in s
      invariant forall y :: y in s ==> y in todo || x <= y
      decreases todo
    {
      var y :| y in todo;
      todo := todo - {y};
      if y < x {
        x := y;
      }
    }
  }

  lemma {:induction false} AtOrderExactly(groups: seq<Group>, order: nat)
    ensures forall g :: g in AtOrder(groups, order) <==> g in groups && g.order == order
  {
    if groups != [] {
      AtOrderExactly(groups[..|groups| - 1], order);
      assert forall g :: g in groups <==> g in groups[..|groups| - 1] || g == groups[|groups| - 1];
    }
  }

  // The diagnostics of the groups at these orders.
  ghost predicate RecordedBefore(scoring: Scoring, demand: Demand, groups: seq<Group>, orders: set<nat>, diagnostics: seq<Diagnostic>) {
    forall d :: d in diagnostics <==> exists g :: g in groups && g.order in orders && d == DiagnosticOf(scoring, demand, g)
  }

  lemma RecordedLevel(scoring: Scoring, demand: Demand, groups: seq<Group>, orders: set<nat>, diagnostics: seq<Diagnostic>, order: nat, more: seq<Diagnostic>)
    requires RecordedBefore(scoring, demand, groups, orders, diagnostics) && Recorded(scoring, demand, AtOrder(groups, order), more)
    ensures RecordedBefore(scoring, demand, groups, orders + {order}, diagnostics + more)
  {
    AtOrderExactly(groups, order);
  }

  // The scan has been through these orders and found nothing.
  ghost predicate Scanned(scoring: Scoring, demand: Demand, groups: seq<Group>, orders: set<nat>, diagnostics: seq<Diagnostic>) {
    && (forall o :: o in orders ==> CandidatesAt(scoring, demand, groups, o) == [])
    && RecordedBefore(scoring, demand, groups, orders, diagnostics)
  }

  lemma ScanOne(scoring: Scoring, demand: Demand, groups: seq<Group>, orders: set<nat>, diagnostics: seq<Diagnostic>, order: nat, more: seq<Diagnostic>)
    requires Scanned(scoring, demand, groups, orders, diagnostics) && CandidatesAt(scoring, demand, groups, order) == []
    requires Recorded(scoring, demand, AtOrder(groups, order), more)
    ensures Scanned(scoring, demand, groups, orders + {order}, diagnostics + more)
  {
    RecordedLevel(scoring, demand, groups, orders, diagnostics, order, more);
  }

  ghost predicate GroupedAll(groups: seq<Group>, grouped: map<nat, seq<Group>>) {
    && (forall order :: order in grouped ==> grouped[order] == AtOrder(groups, order))
    && (forall order :: order !in grouped ==> AtOrder(groups, order) == [])
  }

  lemma ScanEnds(scoring: Scoring, demand: Demand, groups: seq<Group>, grouped: map<nat, seq<Group>>, diagnostics: seq<Diagnostic>)
    requires GroupedAll(groups, grouped) && Scanned(scoring, demand, groups, grouped.Keys, diagnostics)
    ensures NarrowestFit(scoring, demand, groups, []) && Recorded(scoring, demand, groups, diagnostics)
  {
    forall g | g in groups ensures g.order in grouped {
      AtOrderExactly(groups, g.order);
    }
  }

  lemma FitFound(scoring: Scoring, demand: Demand, groups: seq<Group>, grouped: map<nat, seq<Group>>, done: set<nat>, diagnostics: seq<Diagnostic>,
                 order: nat, result: seq<Candidate>)
    requires GroupedAll(groups, grouped) && Scanned(scoring, demand, groups, done, diagnostics)
    requires LeastOf(grouped.Keys - done, order)
    requires CandidatesAt(scoring, demand, groups, order) != [] && result == Sort(CandidateLeq, CandidatesAt(scoring, demand, groups, order))
    ensures NarrowestFit(scoring, demand, groups, result) && result != []
  {
    SortKeeps(CandidateLeq, CandidatesAt(scoring, demand, groups, order));
    forall o | 0 <= o < order ensures CandidatesAt(scoring, demand, groups, o) == [] {
      if o in grouped { assert o !in grouped.Keys - done; }
    }
    assert FitsAt(scoring, demand, groups, order, result);
  }

  lemma LevelIsCached(scoring: Scoring, groups: seq<Group>, scores: map<string, Scored>, order: nat)
    requires Cached(scoring, groups, scores)
    ensures Cached(scoring, AtOrder(groups, order), scores)
  {
    AtOrderExactly(groups, order);
  }

  // Main result: reusing one score per UID gives what scoring every Node afresh in every group gives, and the
  // candidates are all the feasible groups of the narrowest level that has one.
  method ExecuteScore(scoring: Scoring, demand: Demand, groups: seq<Group>) returns (candidates: seq<Candidate>, diagnostics: seq<Diagnostic>)
    requires Identified(groups)
    ensures NarrowestFit(scoring, demand, groups, candidates) && Answering(scoring, demand, groups, candidates)
    ensures candidates == [] ==> Recorded(scoring, demand, groups, diagnostics)
  {
    hide Answering, Recorded, NarrowestFit, Cached;
    var scores := ScoreByUid(scoring, groups);
    var grouped := GroupedByOrder(groups);
    candidates, diagnostics := [], [];
    var todo := grouped.Keys;
    ghost var done: set<nat> := {};
    while todo != {}
      invariant todo + done == grouped.Keys && todo !! done
      invariant Scanned(scoring, demand, groups, done, diagnostics)
      decreases todo
    {
      var order := TakeLeast(todo);
      assert grouped.Keys - done == todo;
      LevelIsCached(scoring, groups, scores, order);
      var level, more := LevelCandidates(scoring, demand, grouped[order], scores);
      if level != [] {
        candidates := Sort(CandidateLeq, level);
        FitFound(scoring, demand, groups, grouped, done, diagnostics, order, candidates);
        FitAnswers(scoring, demand, groups, candidates);
        diagnostics := diagnostics + more;
        return;
      }
      ScanOne(scoring, demand, groups, done, diagnostics, order, more);
      diagnostics := diagnostics + more;
      todo, done := todo - {order}, done + {order};
    }
    ScanEnds(scoring, demand, groups, grouped, diagnostics);
    FitAnswers(scoring, demand, groups, candidates);
  }
}
