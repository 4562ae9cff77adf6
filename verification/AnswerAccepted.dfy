/** The answer of the pipeline passes the controller's check: stages of the worker against validateResponse. */
module AnswerAccepted {
  import opened Wrappers
  import opened Text
  import opened Sorting
  import opened ResourcePool
  import opened TopologyResolution
  import opened TopologyGrouping
  import opened Allocation
  import opened Pipeline
  import opened ResponseCheck

  // Each UID once: what staticCache.put demands of a snapshot.
  ghost predicate DistinctUids(views: seq<View>) {
    forall i, j :: 0 <= i < j < |views| ==> views[i].uid != views[j].uid
  }

  // Elements without repetition that a UID tells apart.
  ghost predicate ToldApart(views: seq<View>) {
    Distinct(views) && forall m, n :: m in views && n in views && m.uid == n.uid ==> m == n
  }

  ghost predicate ScoredApart(nodes: seq<Scored>) {
    Distinct(nodes) && forall m, n :: m in nodes && n in nodes && m.uid == n.uid ==> m == n
  }

  // ---- Groups ----

  lemma {:induction false} MembersApart(nodes: seq<View>, level: Level, domain: string)
    requires ToldApart(nodes)
    ensures ToldApart(Members(nodes, level, domain))
  {
    MembersExactly(nodes, level, domain);
    if nodes != [] {
      var front := nodes[..|nodes| - 1];
      MembersApart(front, level, domain);
      MembersExactly(front, level, domain);
      assert nodes[|nodes| - 1] !in front;
    }
  }

  // A group of distinct Nodes, each of the Nodes given and of the group's domain.
  ghost predicate GoodGroup(views: seq<View>, level: Level, g: Group) {
    && ToldApart(g.nodes) && g.level == level && g.domain != ""
    && forall n :: n in g.nodes ==> n in views && Field(n, level) == g.domain
  }

  lemma GroupIsGood(views: seq<View>, level: Level, order: nat, domain: string)
    requires ToldApart(views) && domain != ""
    ensures GoodGroup(views, level, GroupOf(views, level, order, domain))
  {
    var members := Members(views, level, domain);
    MembersApart(views, level, domain);
    MembersExactly(views, level, domain);
    SortKeepsDistinct(NodeLeq, members);
    SameElements(NodeLeq, members);
  }

  // The groups of one level: good, and of different domains.
  ghost predicate GoodLevel(views: seq<View>, level: Level, order: nat, groups: seq<Group>) {
    && (forall k :: 0 <= k < |groups| ==> GoodGroup(views, level, groups[k]) && groups[k].order == order)
    && (forall j, k :: 0 <= j < k < |groups| ==> groups[j].domain != groups[k].domain)
  }

  lemma LevelIsGood(views: seq<View>, level: Level, order: nat)
    requires ToldApart(views)
    ensures GoodLevel(views, level, order, GroupsAt(views, level, order))
  {
    var domains := Sort(Leq, Seen(views, level));
    EachAt(Grouper(views, level, order), domains);
    SortedDomains(views, level);
    SeenExactly(views, level);
    forall k | 0 <= k < |domains| ensures GoodGroup(views, level, GroupsAt(views, level, order)[k]) {
      assert domains[k] in Seen(views, level);
      GroupIsGood(views, level, order, domains[k]);
    }
  }

  lemma {:induction false} AtOrderConcat(a: seq<Group>, b: seq<Group>, order: nat)
    ensures AtOrder(a + b, order) == AtOrder(a, order) + AtOrder(b, order)
  {
    if b == [] {
      assert a + b == a;
    } else {
      AtOrderConcat(a, b[..|b| - 1], order);
      assert (a + b)[..|a + b| - 1] == a + b[..|b| - 1];
    }
  }

  lemma {:induction false} AtOrderUniform(groups: seq<Group>, order: nat, all: nat)
    requires forall k :: 0 <= k < |groups| ==> groups[k].order == all
    ensures AtOrder(groups, order) == if order == all then groups else []
  {
    if groups != [] {
      AtOrderUniform(groups[..|groups| - 1], order, all);
    }
  }

  lemma {:induction false} AtOrderJoined(at: nat -> seq<Group>, count: nat, order: nat)
    requires forall k, i :: 0 <= k < count && 0 <= i < |at(k)| ==> at(k)[i].order == k
    ensures AtOrder(Joined(at, count), order) == if order < count then at(order) else []
  {
    if count != 0 {
      AtOrderJoined(at, count - 1, order);
      AtOrderUniform(at(count - 1), order, count - 1);
      AtOrderConcat(Joined(at, count - 1), at(count - 1), order);
    }
  }

  // What was grouped at an order is that level's groups.
  lemma AtOrderIsLevel(levels: seq<Level>, views: seq<View>, count: nat, order: nat)
    requires ToldApart(views) && count <= |levels|
    ensures AtOrder(GroupsUpTo(levels, views, count), order) == if order < count then GroupsAt(views, levels[order], order) else []
  {
    hide GroupsAt;
    var at := Layer(levels, views);
    forall k, i | 0 <= k < count && 0 <= i < |at(k)| ensures at(k)[i].order == k {
      LevelIsGood(views, levels[k], k);
    }
    AtOrderJoined(at, count, order);
    UpToIsJoined(levels, views, count);
  }

  ghost predicate GroupFrom(views: seq<View>, g: Group) {
    forall n :: n in g.nodes ==> n in views
  }

  ghost predicate NodesFrom(views: seq<View>, groups: seq<Group>) {
    forall k :: 0 <= k < |groups| ==> GroupFrom(views, groups[k])
  }

  lemma LevelNodesFrom(views: seq<View>, level: Level, order: nat)
    requires ToldApart(views)
    ensures NodesFrom(views, GroupsAt(views, level, order))
  {
    LevelIsGood(views, level, order);
    var groups := GroupsAt(views, level, order);
    forall k | 0 <= k < |groups| ensures GroupFrom(views, groups[k]) {
      assert GoodGroup(views, level, groups[k]);
    }
  }

  lemma ConcatNodesFrom(views: seq<View>, a: seq<Group>, b: seq<Group>)
    requires NodesFrom(views, a) && NodesFrom(views, b)
    ensures NodesFrom(views, a + b)
  {
    forall k | 0 <= k < |a + b| ensures GroupFrom(views, (a + b)[k]) {
      assert k >= |a| ==> (a + b)[k] == b[k - |a|];
    }
  }

  lemma {:induction false} JoinedNodesFrom(views: seq<View>, at: nat -> seq<Group>, count: nat)
    requires forall k :: 0 <= k < count ==> NodesFrom(views, at(k))
    ensures NodesFrom(views, Joined(at, count))
  {
    if count != 0 {
      JoinedNodesFrom(views, at, count - 1);
      ConcatNodesFrom(views, Joined(at, count - 1), at(count - 1));
    }
  }

  // The hypothesis of the SCORE stage holds of the groups of distinct Nodes.
  lemma GroupsAreIdentified(levels: seq<Level>, views: seq<View>, count: nat)
    requires ToldApart(views) && count <= |levels|
    ensures Identified(GroupsUpTo(levels, views, count))
  {
    hide GroupsAt;
    var at := Layer(levels, views);
    forall k | 0 <= k < count ensures NodesFrom(views, at(k)) {
      LevelNodesFrom(views, levels[k], k);
    }
    JoinedNodesFrom(views, at, count);
    UpToIsJoined(levels, views, count);
    FromIsIdentified(views, Joined(at, count));
  }

  lemma FromIsIdentified(views: seq<View>, groups: seq<Group>)
    requires ToldApart(views) && NodesFrom(views, groups)
    ensures Identified(groups)
  {
    forall g, n | g in groups && n in g.nodes ensures n in views {
      var k :| 0 <= k < |groups| && groups[k] == g;
      assert GroupFrom(views, groups[k]);
    }
  }

  // ---- The Nodes of one candidate ----

  lemma ScoresApart(scoring: Scoring, nodes: seq<View>)
    requires ToldApart(nodes)
    ensures ScoredApart(ScoreAll(scoring, nodes))
  {
    ScoreAllAt(scoring, nodes);
    var scored := ScoreAll(scoring, nodes);
    forall i, j | 0 <= i < j < |scored| ensures scored[i].uid != scored[j].uid {
      assert nodes[i] in nodes && nodes[j] in nodes && nodes[i] != nodes[j];
    }
  }

  predicate OtherUid(a: Scored, b: Scored) {
    a.uid != b.uid
  }

  // In rank order, each UID once, each the score of a Node of the group.
  ghost predicate GoodChoice(scoring: Scoring, nodes: seq<View>, chosen: seq<Scored>) {
    && Ordered(ScoredLeq, chosen) && Ordered(OtherUid, chosen)
    && forall s :: s in chosen ==> exists v :: v in nodes && s == ScoreNode(scoring, v)
  }

  lemma RankedIsGood(scoring: Scoring, g: Group)
    requires ToldApart(g.nodes)
    ensures GoodChoice(scoring, g.nodes, Ranked(scoring, g))
  {
    var scored := ScoreAll(scoring, g.nodes);
    ScoresApart(scoring, g.nodes);
    ScoreAllAt(scoring, g.nodes);
    ScoredOrder();
    SortOrders(ScoredLeq, scored);
    SortKeepsDistinct(ScoredLeq, scored);
    SameElements(ScoredLeq, scored);
  }

  lemma ChosenIsGood(scoring: Scoring, demand: Demand, g: Group)
    requires ToldApart(g.nodes)
    ensures GoodChoice(scoring, g.nodes, Chosen(scoring, demand, g))
  {
    var ranked := Ranked(scoring, g);
    RankedIsGood(scoring, g);
    SelectionIsSound(ranked, LimitsOf(demand, |ranked|));
    SubsequenceOrdered(ScoredLeq, Chosen(scoring, demand, g), ranked);
    SubsequenceOrdered(OtherUid, Chosen(scoring, demand, g), ranked);
  }

  // ---- The candidates of one level ----

  // The score of a Node of this domain.
  ghost predicate FromDomain(scoring: Scoring, views: seq<View>, level: Level, domain: string, s: Scored) {
    exists v :: v in views && Field(v, level) == domain && s == ScoreNode(scoring, v)
  }

  // Its Nodes are Nodes of its domain.
  ghost predicate GoodCandidate(scoring: Scoring, views: seq<View>, level: Level, c: Candidate) {
    && c.level == level && c.nodes != [] && c.domain != ""
    && Ordered(ScoredLeq, c.nodes) && Ordered(OtherUid, c.nodes)
    && forall i :: 0 <= i < |c.nodes| ==> FromDomain(scoring, views, level, c.domain, c.nodes[i])
  }

  lemma CandidateIsGood(scoring: Scoring, demand: Demand, views: seq<View>, level: Level, g: Group)
    requires GoodGroup(views, level, g) && Chosen(scoring, demand, g) != []
    ensures GoodCandidate(scoring, views, level, CandidateOf(scoring, demand, g))
  {
    ChosenIsGood(scoring, demand, g);
    var c := CandidateOf(scoring, demand, g);
    forall i | 0 <= i < |c.nodes| ensures FromDomain(scoring, views, level, c.domain, c.nodes[i]) {
      assert c.nodes[i] in c.nodes;
      var v :| v in g.nodes && c.nodes[i] == ScoreNode(scoring, v);
      assert v in views && Field(v, level) == c.domain;
    }
  }

  // Distinct candidates, told apart by their domain.
  ghost predicate GoodCandidates(scoring: Scoring, views: seq<View>, level: Level, candidates: seq<Candidate>) {
    && (forall c :: c in candidates ==> GoodCandidate(scoring, views, level, c))
    && (forall j, k :: 0 <= j < k < |candidates| ==> candidates[j].domain != candidates[k].domain)
  }

  lemma {:induction false} CandidatesAreGood(scoring: Scoring, demand: Demand, views: seq<View>, level: Level, order: nat, groups: seq<Group>)
    requires GoodLevel(views, level, order, groups)
    ensures GoodCandidates(scoring, views, level, CandidatesOf(scoring, demand, groups))
    ensures forall c :: c in CandidatesOf(scoring, demand, groups) ==> exists g :: g in groups && c.domain == g.domain
  {
    if groups != [] {
      var front, last := groups[..|groups| - 1], groups[|groups| - 1];
      CandidatesAreGood(scoring, demand, views, level, order, front);
      if Chosen(scoring, demand, last) != [] {
        CandidateIsGood(scoring, demand, views, level, last);
      }
      assert last in groups && forall g :: g in front ==> g in groups;
    }
  }

  lemma SortedAreGood(scoring: Scoring, views: seq<View>, level: Level, candidates: seq<Candidate>)
    requires GoodCandidates(scoring, views, level, candidates)
    ensures GoodCandidates(scoring, views, level, Sort(CandidateLeq, candidates))
  {
    SortKeepsDistinct(CandidateLeq, candidates);
    SameElements(CandidateLeq, candidates);
    var sorted := Sort(CandidateLeq, candidates);
    forall j, k | 0 <= j < k < |sorted| ensures sorted[j].domain != sorted[k].domain {
      assert sorted[j] in sorted && sorted[k] in sorted;
      var i :| 0 <= i < |candidates| && candidates[i] == sorted[j];
      var m :| 0 <= m < |candidates| && candidates[m] == sorted[k];
    }
  }

  // ---- No UID twice ----

  lemma UidsOfCandidate(scoring: Scoring, views: seq<View>, level: Level, c: Candidate)
    requires GoodCandidate(scoring, views, level, c)
    ensures Distinct(NodeUids(c.nodes))
    ensures forall uid :: uid in NodeUids(c.nodes) ==> exists v :: v in views && v.uid == uid && Field(v, level) == c.domain
  {
    NodeUidsAt(c.nodes);
    forall i, j | 0 <= i < j < |c.nodes| ensures c.nodes[i].uid != c.nodes[j].uid {
      assert OtherUid(c.nodes[i], c.nodes[j]);
    }
    forall uid | uid in NodeUids(c.nodes) ensures exists v :: v in views && v.uid == uid && Field(v, level) == c.domain {
      var i :| 0 <= i < |c.nodes| && NodeUids(c.nodes)[i] == uid;
      assert FromDomain(scoring, views, level, c.domain, c.nodes[i]);
      var v :| v in views && Field(v, level) == c.domain && c.nodes[i] == ScoreNode(scoring, v);
    }
  }

  // A Node of another domain is not among these.
  lemma OtherDomain(views: seq<View>, level: Level, uids: seq<string>, domain: string, v: View)
    requires ToldApart(views) && v in views && Field(v, level) != domain
    requires forall uid :: uid in uids ==> exists w :: w in views && w.uid == uid && Field(w, level) == domain
    ensures v.uid !in uids
  {
  }

  // The UID of a Node whose domain is that of one of these candidates.
  ghost predicate UidAmong(views: seq<View>, level: Level, candidates: seq<Candidate>, uid: string) {
    exists v, c :: v in views && c in candidates && v.uid == uid && Field(v, level) == c.domain
  }

  lemma LaterUid(views: seq<View>, level: Level, front: seq<Candidate>, last: Candidate, uids: seq<string>, uid: string)
    requires ToldApart(views) && UidAmong(views, level, front, uid) && forall c :: c in front ==> c.domain != last.domain
    requires forall u :: u in uids ==> exists w :: w in views && w.uid == u && Field(w, level) == last.domain
    ensures uid !in uids && UidAmong(views, level, front + [last], uid)
  {
    var v, c :| v in views && c in front && v.uid == uid && Field(v, level) == c.domain;
    OtherDomain(views, level, uids, last.domain, v);
    assert c in front + [last];
  }

  lemma LastUid(views: seq<View>, level: Level, front: seq<Candidate>, last: Candidate, uid: string)
    requires exists w :: w in views && w.uid == uid && Field(w, level) == last.domain
    ensures UidAmong(views, level, front + [last], uid)
  {
    var w :| w in views && w.uid == uid && Field(w, level) == last.domain;
    assert last in front + [last];
  }

  lemma GoodFront(scoring: Scoring, views: seq<View>, level: Level, candidates: seq<Candidate>)
    requires GoodCandidates(scoring, views, level, candidates) && candidates != []
    ensures var front, last := candidates[..|candidates| - 1], candidates[|candidates| - 1];
            GoodCandidates(scoring, views, level, front) && GoodCandidate(scoring, views, level, last)
            && (forall c :: c in front ==> c.domain != last.domain) && candidates == front + [last]
  {
  }

  lemma {:induction false} AnswerUids(scoring: Scoring, views: seq<View>, level: Level, candidates: seq<Candidate>, answer: seq<Answered>)
    requires ToldApart(views) && GoodCandidates(scoring, views, level, candidates) && Ranks(candidates, answer)
    ensures Distinct(AllUids(answer))
    ensures forall uid :: uid in AllUids(answer) ==> UidAmong(views, level, candidates, uid)
    decreases |answer|
  {
    if answer != [] {
      var front, last := candidates[..|candidates| - 1], candidates[|candidates| - 1];
      GoodFront(scoring, views, level, candidates);
      AnswerUids(scoring, views, level, front, answer[..|answer| - 1]);
      UidsOfCandidate(scoring, views, level, last);
      var a, b := AllUids(answer[..|answer| - 1]), NodeUids(last.nodes);
      forall uid | uid in a ensures uid !in b && UidAmong(views, level, candidates, uid) {
        LaterUid(views, level, front, last, b, uid);
      }
      forall uid | uid in b ensures UidAmong(views, level, candidates, uid) {
        LastUid(views, level, front, last, uid);
      }
      DistinctSplit(a, b);
    }
  }

  // ---- Main result ----

  // The state has an entry of this Node, under its own name if the entry has one.
  predicate NameKnown(v: View, state: seq<Item>) {
    v.uid in Known(state) && (Known(state)[v.uid] == "" || Known(state)[v.uid] == v.name)
  }

  // The Nodes that have a domain at this level have an entry in the scheduler state.
  ghost predicate UidsAt(views: seq<View>, level: Level, state: seq<Item>) {
    forall v :: v in views && Field(v, level) != "" ==> v.uid in Known(state)
  }

  // The Nodes that have a domain at this level are known by name.
  ghost predicate NamedAt(views: seq<View>, level: Level, state: seq<Item>) {
    forall v :: v in views && Field(v, level) != "" ==> NameKnown(v, state)
  }

  // The Node is in some group.
  predicate Grouped(levels: seq<Level>, count: nat, v: View)
    requires count <= |levels|
  {
    exists k :: 0 <= k < count && Field(v, levels[k]) != ""
  }

  // All Nodes that are in some group have an entry.
  ghost predicate UidsKnown(levels: seq<Level>, views: seq<View>, count: nat, state: seq<Item>)
    requires count <= |levels|
  {
    forall v :: v in views && Grouped(levels, count, v) ==> v.uid in Known(state)
  }

  // All Nodes that are in some group are known by name.
  ghost predicate NamesKnown(levels: seq<Level>, views: seq<View>, count: nat, state: seq<Item>)
    requires count <= |levels|
  {
    forall v :: v in views && Grouped(levels, count, v) ==> NameKnown(v, state)
  }

  // The entries of these Nodes bear their names, if they have any.
  predicate NamedAlike(known: map<string, string>, nodes: seq<Scored>) {
    forall i :: 0 <= i < |nodes| && nodes[i].uid in known ==> known[nodes[i].uid] == "" || nodes[i].name == known[nodes[i].uid]
  }

  predicate AnswerNamedAlike(state: seq<Item>, answer: seq<Answered>) {
    forall k :: 0 <= k < |answer| ==> NamedAlike(Known(state), answer[k].nodes)
  }

  lemma NodesAreOk(scoring: Scoring, views: seq<View>, state: seq<Item>, level: Level, c: Candidate, k: nat)
    requires UidsAt(views, level, state) && GoodCandidate(scoring, views, level, c)
    ensures GroupOk(Known(state), AnswerOf(c, k + 1), k) <==> NamedAlike(Known(state), c.nodes)
    ensures NamedAt(views, level, state) ==> NamedAlike(Known(state), c.nodes)
  {
    hide Known;
    forall i | 0 <= i < |c.nodes|
      ensures 0 <= c.nodes[i].score <= 100 && c.nodes[i].uid in Known(state)
      ensures NamedAt(views, level, state) ==> Known(state)[c.nodes[i].uid] == "" || c.nodes[i].name == Known(state)[c.nodes[i].uid]
    {
      assert FromDomain(scoring, views, level, c.domain, c.nodes[i]);
      var v :| v in views && Field(v, level) == c.domain && c.nodes[i] == ScoreNode(scoring, v);
    }
    forall i | 0 < i < |c.nodes| ensures NodeStep(c.nodes[i - 1], c.nodes[i]) {
      assert ScoredLeq(c.nodes[i - 1], c.nodes[i]);
      LeqTotal(c.nodes[i].name, c.nodes[i].name);
    }
  }

  lemma GroupsAreOk(scoring: Scoring, views: seq<View>, state: seq<Item>, level: Level, candidates: seq<Candidate>, order: nat, answer: seq<Answered>)
    requires UidsAt(views, level, state) && GoodCandidates(scoring, views, level, candidates)
    requires OneLevel(candidates, order) && Ranks(candidates, answer)
    ensures GroupsOk(Known(state), answer) <==> AnswerNamedAlike(state, answer)
    ensures NamedAt(views, level, state) ==> AnswerNamedAlike(state, answer)
  {
    hide Known, UidsAt, NamedAt, GoodCandidate, NamedAlike, GroupOk;
    forall k | 0 <= k < |answer|
      ensures GroupOk(Known(state), answer[k], k) <==> NamedAlike(Known(state), answer[k].nodes)
      ensures NamedAt(views, level, state) ==> NamedAlike(Known(state), answer[k].nodes)
    {
      NodesAreOk(scoring, views, state, level, candidates[k], k);
    }
    forall k | 0 < k < |answer| ensures GroupStep(answer[k - 1], answer[k]) {
      assert CandidateLeq(candidates[k - 1], candidates[k]);
      assert candidates[k - 1] in candidates && candidates[k] in candidates;
    }
  }

  lemma TopIsGood(scoring: Scoring, views: seq<View>, level: Level, candidates: seq<Candidate>, order: nat)
    requires GoodCandidates(scoring, views, level, candidates) && OneLevel(candidates, order)
    ensures GoodCandidates(scoring, views, level, Top(candidates)) && OneLevel(Top(candidates), order)
  {
  }

  // The best candidates come from the groups of one level.
  lemma AnswerIsGood(scoring: Scoring, demand: Demand, levels: seq<Level>, views: seq<View>, count: nat, order: nat, result: seq<Candidate>)
    requires count <= |levels| && ToldApart(views)
    requires FitsAt(scoring, demand, GroupsUpTo(levels, views, count), order, result)
    ensures order < count && GoodCandidates(scoring, views, levels[order], result)
  {
    AtOrderIsLevel(levels, views, count, order);
    var groups := GroupsUpTo(levels, views, count);
    if order < count {
      LevelIsGood(views, levels[order], order);
      CandidatesAreGood(scoring, demand, views, levels[order], order, AtOrder(groups, order));
      SortedAreGood(scoring, views, levels[order], CandidatesAt(scoring, demand, groups, order));
    }
  }

  lemma GoodAnswerIsAccepted(scoring: Scoring, views: seq<View>, level: Level, candidates: seq<Candidate>, order: nat, answer: seq<Answered>,
                             identity: Identity, state: seq<Item>)
    requires ToldApart(views) && UidsAt(views, level, state) && GoodCandidates(scoring, views, level, candidates)
    requires OneLevel(candidates, order) && Ranks(candidates, answer) && 0 < |answer| <= 3
    ensures Acceptable(Response(identity, Success, answer), identity, state) <==> AnswerNamedAlike(state, answer)
    ensures NamedAt(views, level, state) ==> AnswerNamedAlike(state, answer)
  {
    hide Known, UidsAt, NamedAt, GoodCandidates, OneLevel, Ranks, AnswerNamedAlike, GroupsOk, AllUids, Distinct;
    GroupsAreOk(scoring, views, state, level, candidates, order, answer);
    AnswerUids(scoring, views, level, candidates, answer);
  }

  lemma NoAnswerIsAccepted(identity: Identity, state: seq<Item>)
    ensures Acceptable(Response(identity, Unsatisfiable, []), identity, state)
  {
  }

  lemma ApartByUid(views: seq<View>)
    requires DistinctUids(views)
    ensures ToldApart(views)
  {
  }

  // Over distinct Nodes known to the state an answer passes every other check: only the names of the Nodes answered,
  // which the pipeline does not compare, are left to decide.
  lemma OnlyNamesDecide(scoring: Scoring, demand: Demand, levels: seq<Level>, views: seq<View>, count: nat,
                        result: seq<Candidate>, answer: seq<Answered>, identity: Identity, state: seq<Item>)
    requires count <= |levels| && DistinctUids(views) && UidsKnown(levels, views, count, state)
    requires NarrowestFit(scoring, demand, GroupsUpTo(levels, views, count), result) && Answers(result, answer)
    ensures Acceptable(ResponseOf(identity, answer), identity, state) <==> AnswerNamedAlike(state, answer)
    ensures NamesKnown(levels, views, count, state) ==> AnswerNamedAlike(state, answer)
  {
    hide Acceptable, UidsKnown, UidsAt, NamesKnown, NamedAt, GoodCandidates, OneLevel;
    ApartByUid(views);
    if result == [] {
      NoAnswerIsAccepted(identity, state);
    } else {
      var groups := GroupsUpTo(levels, views, count);
      var order: nat :| FitsAt(scoring, demand, groups, order, result);
      FitIsOneLevel(scoring, demand, groups, order, result);
      AnswerIsTop(result, order, answer);
      AnswerIsGood(scoring, demand, levels, views, count, order, result);
      TopIsGood(scoring, views, levels[order], result, order);
      UidsAtLevel(levels, views, count, state, order);
      if NamesKnown(levels, views, count, state) { NamedAtLevel(levels, views, count, state, order); }
      GoodAnswerIsAccepted(scoring, views, levels[order], Top(result), order, answer, identity, state);
    }
  }

  function ResponseOf(identity: Identity, answer: seq<Answered>): Response {
    Response(identity, if answer == [] then Unsatisfiable else Success, answer)
  }

  lemma UidsAtLevel(levels: seq<Level>, views: seq<View>, count: nat, state: seq<Item>, order: nat)
    requires order < count <= |levels| && UidsKnown(levels, views, count, state)
    ensures UidsAt(views, levels[order], state)
  {
    hide Known;
    forall v | v in views && Field(v, levels[order]) != "" ensures v.uid in Known(state) {
      assert Grouped(levels, count, v);
    }
  }

  lemma NamedAtLevel(levels: seq<Level>, views: seq<View>, count: nat, state: seq<Item>, order: nat)
    requires order < count <= |levels| && NamesKnown(levels, views, count, state)
    ensures NamedAt(views, levels[order], state)
  {
    hide NameKnown;
    forall v | v in views && Field(v, levels[order]) != "" ensures NameKnown(v, state) {
      assert Grouped(levels, count, v);
    }
  }

  // ---- A misnamed Node is answered for some demand ----

  // Whatever the demand and the scores.
  ghost predicate AlwaysAccepted(levels: seq<Level>, views: seq<View>, count: nat, state: seq<Item>)
    requires count <= |levels|
  {
    forall scoring, demand, result, answer, identity ::
      NarrowestFit(scoring, demand, GroupsUpTo(levels, views, count), result) && Answers(result, answer) ==>
        Acceptable(ResponseOf(identity, answer), identity, state)
  }

  const Unlimited := Demand(None, map[], map[])

  // Groups with this Node score best.
  ghost function Favouring(v: View): Scoring {
    Scoring(_ => 0, (chosen, sources) => if v in sources then 1.0 else 0.0)
  }

  // Nothing is limited, so every Node of a group is chosen.
  lemma EveryNodeChosen(scoring: Scoring, g: Group)
    ensures Chosen(scoring, Unlimited, g) == Ranked(scoring, g)
  {
    var ranked := Ranked(scoring, g);
    var limits := LimitsOf(Unlimited, |ranked|);
    WithoutQuota(ranked, limits);
    StoppedSatisfies(ranked, limits);
  }

  // A group scores one exactly when the Node is in it, and then the Node is among those chosen.
  lemma FavouredGroup(v: View, g: Group)
    ensures v in g.nodes ==> ScoreNode(Favouring(v), v) in Chosen(Favouring(v), Unlimited, g)
    ensures CandidateOf(Favouring(v), Unlimited, g).groupScore == if v in g.nodes then 1.0 else 0.0
  {
    hide Ranked;
    var scoring := Favouring(v);
    var chosen := Chosen(scoring, Unlimited, g);
    EveryNodeChosen(scoring, g);
    SourcesExactly(g.nodes, UidsOf(chosen));
    if v in g.nodes {
      RankedHas(scoring, g, v);
      assert ScoreNode(scoring, v).uid in UidsOf(chosen);
    }
  }

  lemma RankedHas(scoring: Scoring, g: Group, v: View)
    requires v in g.nodes
    ensures ScoreNode(scoring, v) in Ranked(scoring, g)
  {
    ScoreAllAt(scoring, g.nodes);
    SameElements(ScoredLeq, ScoreAll(scoring, g.nodes));
    var i :| 0 <= i < |g.nodes| && g.nodes[i] == v;
    assert ScoreAll(scoring, g.nodes)[i] in ScoreAll(scoring, g.nodes);
  }

  // Its group is the narrowest there is.
  lemma OwnGroup(levels: seq<Level>, views: seq<View>, count: nat, v: View) returns (g: Group)
    requires 0 < count <= |levels| && ToldApart(views) && v in views && Field(v, levels[0]) != ""
    ensures g in GroupsUpTo(levels, views, count) && g.order == 0 && v in g.nodes
  {
    hide GroupsUpTo, GroupsAt;
    LevelPartition(views, levels[0], 0);
    AtOrderIsLevel(levels, views, count, 0);
    AtOrderExactly(GroupsUpTo(levels, views, count), 0);
    var groups := GroupsAt(views, levels[0], 0);
    var k :| 0 <= k < |groups| && groups[k].domain == Field(v, levels[0]);
    g := groups[k];
    assert g in groups;
  }

  // The best candidate has the favoured Node.
  lemma BestHasIt(groups: seq<Group>, v: View, g: Group, result: seq<Candidate>)
    requires g in groups && g.order == 0 && v in g.nodes
    requires result == Sort(CandidateLeq, CandidatesAt(Favouring(v), Unlimited, groups, 0))
    ensures result != [] && FitsAt(Favouring(v), Unlimited, groups, 0, result) && ScoreNode(Favouring(v), v) in result[0].nodes
  {
    hide Chosen, CandidatesAt, ScoreNode, Favouring;
    var scoring := Favouring(v);
    var own := CandidateOf(scoring, Unlimited, g);
    FavouredGroup(v, g);
    CandidatesAtExactly(scoring, Unlimited, groups, 0, own);
    SameElements(CandidateLeq, CandidatesAt(scoring, Unlimited, groups, 0));
    assert own in result;
    FitIsOneLevel(scoring, Unlimited, groups, 0, result);
    var i :| 0 <= i < |result| && result[i] == own;
    assert i > 0 ==> CandidateLeq(result[0], result[i]);
    assert result[0] in result;
    CandidatesAtExactly(scoring, Unlimited, groups, 0, result[0]);
    var h :| h in groups && result[0] == CandidateOf(scoring, Unlimited, h);
    FavouredGroup(v, h);
  }

  // The pipeline's answer to a result of one level.
  lemma AnswerFor(result: seq<Candidate>, order: nat) returns (answer: seq<Answered>)
    requires result != [] && OneLevel(result, order)
    ensures Answers(result, answer) && answer != [] && answer[0] == AnswerOf(result[0], 1)
  {
    var top := Top(result);
    answer := seq(|top|, k requires 0 <= k < |top| => AnswerOf(top[k], k + 1));
    FilterIsNoOp(result, order);
    assert result[0] in result;
    assert Least(result, order) && Ranks(Top(Sort(AnswerLeq, OfOrder(result, order))), answer);
  }

  // The failing input: a Node that the state does not know by its name, an unlimited demand, and scores in favour of
  // the Node's group. The controller refuses the answer.
  lemma MisnamedIsRefused(levels: seq<Level>, views: seq<View>, count: nat, state: seq<Item>, v: View)
    returns (result: seq<Candidate>, answer: seq<Answered>)
    requires 0 < count <= |levels| && DistinctUids(views) && v in views && Field(v, levels[0]) != "" && !NameKnown(v, state)
    ensures NarrowestFit(Favouring(v), Unlimited, GroupsUpTo(levels, views, count), result) && Answers(result, answer)
    ensures answer != [] && forall identity :: !Acceptable(ResponseOf(identity, answer), identity, state)
  {
    hide GroupsUpTo, CandidatesAt, Known, Answers, Favouring, DistinctUids, OneLevel, ToldApart, Distinct, AllUids;
    ApartByUid(views);
    var g := OwnGroup(levels, views, count, v);
    var groups := GroupsUpTo(levels, views, count);
    result := Sort(CandidateLeq, CandidatesAt(Favouring(v), Unlimited, groups, 0));
    BestHasIt(groups, v, g, result);
    FitIsOneLevel(Favouring(v), Unlimited, groups, 0, result);
    answer := AnswerFor(result, 0);
    var n := ScoreNode(Favouring(v), v);
    var i :| 0 <= i < |answer[0].nodes| && answer[0].nodes[i] == n;
    assert !NodeOk(Known(state), answer[0].nodes[i]);
    assert !GroupOk(Known(state), answer[0], 0);
  }

  // Who is in some group is in one of the narrowest level.
  ghost predicate NarrowestFirst(levels: seq<Level>, views: seq<View>, count: nat)
    requires 0 < count <= |levels|
  {
    forall v :: v in views && Grouped(levels, count, v) ==> Field(v, levels[0]) != ""
  }

  lemma NamedIsAccepted(levels: seq<Level>, views: seq<View>, count: nat, state: seq<Item>)
    requires count <= |levels| && DistinctUids(views) && NamesKnown(levels, views, count, state)
    ensures AlwaysAccepted(levels, views, count, state)
  {
    assert UidsKnown(levels, views, count, state);
    hide NarrowestFit, Answers, Acceptable, DistinctUids, GroupsUpTo, NamesKnown, UidsKnown, AnswerNamedAlike;
    forall scoring, demand, result, answer, identity
      | NarrowestFit(scoring, demand, GroupsUpTo(levels, views, count), result) && Answers(result, answer)
      ensures Acceptable(ResponseOf(identity, answer), identity, state)
    {
      OnlyNamesDecide(scoring, demand, levels, views, count, result, answer, identity, state);
    }
  }

  // Main result: over distinct Nodes, each grouped Node having a domain at the narrowest level, the controller accepts
  // the pipeline's answer, whatever the demand and the scores, exactly when the scheduler state knows every grouped
  // Node by the name that the snapshot gives it.
  lemma AnswerIsAccepted(levels: seq<Level>, views: seq<View>, count: nat, state: seq<Item>)
    requires 0 < count <= |levels| && DistinctUids(views) && NarrowestFirst(levels, views, count)
    ensures AlwaysAccepted(levels, views, count, state) <==> NamesKnown(levels, views, count, state)
  {
    hide NarrowestFit, Answers, Acceptable, DistinctUids, GroupsUpTo, NameKnown;
    if NamesKnown(levels, views, count, state) {
      NamedIsAccepted(levels, views, count, state);
    } else {
      var v :| v in views && Grouped(levels, count, v) && !NameKnown(v, state);
      var result, answer := MisnamedIsRefused(levels, views, count, state, v);
      var identity: Identity :| true;
      assert !Acceptable(ResponseOf(identity, answer), identity, state);
    }
  }

  // ---- requiredSame, down to the Nodes answered ----

  // Nodes of one domain at this level.
  ghost predicate OfOneDomain(scoring: Scoring, views: seq<View>, wide: Level, nodes: seq<Scored>) {
    exists domain :: AllFrom(scoring, views, wide, domain, nodes)
  }

  ghost predicate AllFrom(scoring: Scoring, views: seq<View>, wide: Level, domain: string, nodes: seq<Scored>) {
    forall n :: n in nodes ==> FromDomain(scoring, views, wide, domain, n)
  }

  ghost predicate AnswerShares(scoring: Scoring, views: seq<View>, wide: Level, answer: seq<Answered>) {
    forall k :: 0 <= k < |answer| ==> OfOneDomain(scoring, views, wide, answer[k].nodes)
  }

  lemma ChosenShare(scoring: Scoring, demand: Demand, views: seq<View>, g: Group, wide: Level)
    requires ToldApart(g.nodes) && Shares(g, wide) && GroupFrom(views, g) && Chosen(scoring, demand, g) != []
    ensures OfOneDomain(scoring, views, wide, Chosen(scoring, demand, g))
  {
    hide Chosen;
    ChosenIsGood(scoring, demand, g);
    var chosen := Chosen(scoring, demand, g);
    assert chosen[0] in chosen;
    var first :| first in g.nodes && chosen[0] == ScoreNode(scoring, first);
    forall n | n in chosen ensures FromDomain(scoring, views, wide, Field(first, wide), n) {
      var v :| v in g.nodes && n == ScoreNode(scoring, v);
      assert v in views && Field(v, wide) == Field(first, wide);
    }
    assert AllFrom(scoring, views, wide, Field(first, wide), chosen);
  }

  // A group made of these views: distinct Nodes of them.
  lemma MadeOfViews(levels: seq<Level>, views: seq<View>, count: nat, g: Group)
    requires ToldApart(views) && count <= |levels| && g in GroupsUpTo(levels, views, count)
    ensures ToldApart(g.nodes) && GroupFrom(views, g)
  {
    hide GroupsAt, GroupsUpTo, GoodGroup;
    var order := g.order;
    AtOrderExactly(GroupsUpTo(levels, views, count), order);
    AtOrderIsLevel(levels, views, count, order);
    LevelIsGood(views, levels[order], order);
    var k :| 0 <= k < |GroupsAt(views, levels[order], order)| && GroupsAt(views, levels[order], order)[k] == g;
    GoodIsMade(views, levels[order], g);
  }

  lemma GoodIsMade(views: seq<View>, level: Level, g: Group)
    requires GoodGroup(views, level, g)
    ensures ToldApart(g.nodes) && GroupFrom(views, g)
  {
  }

  lemma GroupAnswerShares(scoring: Scoring, demand: Demand, levels: seq<Level>, views: seq<View>, count: nat, g: Group, wide: Level)
    requires count <= |levels| && ToldApart(views) && AllShare(GroupsUpTo(levels, views, count), wide)
    requires g in GroupsUpTo(levels, views, count) && Chosen(scoring, demand, g) != []
    ensures OfOneDomain(scoring, views, wide, CandidateOf(scoring, demand, g).nodes)
  {
    hide GroupsUpTo, ToldApart, Shares, OfOneDomain, Chosen, GroupFrom;
    var groups := GroupsUpTo(levels, views, count);
    var i :| 0 <= i < |groups| && groups[i] == g;
    assert Shares(groups[i], wide);
    MadeOfViews(levels, views, count, g);
    ChosenShare(scoring, demand, views, g, wide);
  }

  // Main result: where every grouped level nests in `wide`, all Nodes of each answered group lie in one domain of it.
  lemma AnswerSharesDomain(scoring: Scoring, demand: Demand, levels: seq<Level>, views: seq<View>, count: nat,
                           result: seq<Candidate>, answer: seq<Answered>, wide: Level)
    requires count <= |levels| && DistinctUids(views)
    requires NarrowestFit(scoring, demand, GroupsUpTo(levels, views, count), result) && Answers(result, answer)
    requires forall k :: 0 <= k < count ==> Nests(views, levels[k], wide)
    ensures AnswerShares(scoring, views, wide, answer)
  {
    assert result == [] ==> answer == [];
    hide GroupsUpTo, AllShare, OfOneDomain, Chosen, CandidateOf, Nests, CandidateLeq, FitsAt, DistinctUids, ToldApart, Answers;
    ApartByUid(views);
    LevelsShareExactly(levels, views, count, wide);
    if result != [] {
      var groups := GroupsUpTo(levels, views, count);
      var order: nat :| FitsAt(scoring, demand, groups, order, result);
      NarrowestFitAndTopThree(scoring, demand, groups, result, answer, order);
      forall k | 0 <= k < |answer| ensures OfOneDomain(scoring, views, wide, answer[k].nodes) {
        assert Top(result)[k] in Top(result);
        var g :| g in groups && Chosen(scoring, demand, g) != [] && Top(result)[k] == CandidateOf(scoring, demand, g);
        GroupAnswerShares(scoring, demand, levels, views, count, g, wide);
      }
    }
  }
}
