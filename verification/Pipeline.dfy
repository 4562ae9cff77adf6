/** PipelineRunner.run in algorithm_server/python/algorithm_worker/pipeline.py: the level filter, the order and Top-3. */
module Pipeline {
  import opened Wrappers
  import opened Text
  import opened Sorting
  import opened ResourcePool
  import opened TopologyResolution
  import opened TopologyGrouping
  import opened Allocation

  datatype Answered = Answered(rank: int, groupId: string, groupScore: real, nodes: seq<Scored>)

  function AnswerOf(c: Candidate, rank: int): Answered {
    Answered(rank, GroupId(c.level, c.domain), c.groupScore, c.nodes)
  }

  function OfOrder(candidates: seq<Candidate>, order: nat): seq<Candidate> {
    if candidates == [] then []
    else OfOrder(candidates[..|candidates| - 1], order) + if candidates[|candidates| - 1].order == order then [candidates[|candidates| - 1]] else []
  }

  function Top(candidates: seq<Candidate>): seq<Candidate> {
    if |candidates| <= 3 then candidates else candidates[..3]
  }

  // The answer made of these candidates: ranks count from one.
  ghost predicate Ranks(candidates: seq<Candidate>, answer: seq<Answered>) {
    |answer| == |candidates| && forall k :: 0 <= k < |answer| ==> answer[k] == AnswerOf(candidates[k], k + 1)
  }

  ghost predicate Least(candidates: seq<Candidate>, order: nat) {
    (exists c :: c in candidates && c.order == order) && forall c :: c in candidates ==> order <= c.order
  }

  method Narrowest(candidates: seq<Candidate>) returns (order: nat)
    requires candidates != []
    ensures Least(candidates, order)
  {
    order := candidates[0].order;
    for i := 1 to |candidates|
      invariant Least(candidates[..i], order)
    {
      assert forall c :: c in candidates[..i + 1] <==> c in candidates[..i] || c == candidates[i];
      if candidates[i].order < order {
        order := candidates[i].order;
      }
    }
    assert candidates[..|candidates|] == candidates;
  }

  // The top three of the narrowest level, best first.
  ghost predicate Answers(candidates: seq<Candidate>, answer: seq<Answered>) {
    && (candidates == [] ==> answer == [])
    && (candidates != [] ==> exists order :: Least(candidates, order) && Ranks(Top(Sort(AnswerLeq, OfOrder(candidates, order))), answer))
  }

  method Run(candidates: seq<Candidate>) returns (answer: seq<Answered>)
    ensures Answers(candidates, answer)
  {
    hide Prefix, GroupId, AnswerLeq, Sort;
    var kept := candidates;
    if kept != [] {
      var narrowest := Narrowest(candidates);
      kept := [];
      for i := 0 to |candidates|
        invariant kept == OfOrder(candidates[..i], narrowest)
      {
        assert candidates[..i + 1][..i] == candidates[..i];
        if candidates[i].order == narrowest {
          kept := kept + [candidates[i]];
        }
      }
      assert candidates[..|candidates|] == candidates;
      kept := Sort(AnswerLeq, kept);
      assert Least(candidates, narrowest) && kept == Sort(AnswerLeq, OfOrder(candidates, narrowest));
    }
    kept := Top(kept);
    answer := [];
    for k := 0 to |kept|
      invariant Ranks(kept[..k], answer)
    {
      answer := answer + [AnswerOf(kept[k], k + 1)];
    }
    assert kept[..|kept|] == kept;
  }

  // ---- NarrowestFit and Top-3 ----

  lemma {:induction false} CandidatesExactly(scoring: Scoring, demand: Demand, groups: seq<Group>)
    ensures forall c :: c in CandidatesOf(scoring, demand, groups) <==>
                        exists g :: g in groups && Chosen(scoring, demand, g) != [] && c == CandidateOf(scoring, demand, g)
  {
    if groups != [] {
      var front, last := groups[..|groups| - 1], groups[|groups| - 1];
      CandidatesExactly(scoring, demand, front);
      assert forall g :: g in groups <==> g in front || g == last;
    }
  }

  lemma CandidatesAtExactly(scoring: Scoring, demand: Demand, groups: seq<Group>, order: nat, c: Candidate)
    ensures c in CandidatesAt(scoring, demand, groups, order) <==>
            exists g :: g in groups && g.order == order && Chosen(scoring, demand, g) != [] && c == CandidateOf(scoring, demand, g)
  {
    CandidatesExactly(scoring, demand, AtOrder(groups, order));
    AtOrderExactly(groups, order);
  }

  lemma {:induction false} OfOrderKeepsAll(candidates: seq<Candidate>, order: nat)
    requires forall c :: c in candidates ==> c.order == order
    ensures OfOrder(candidates, order) == candidates
  {
    if candidates != [] {
      OfOrderKeepsAll(candidates[..|candidates| - 1], order);
      assert candidates[|candidates| - 1] in candidates;
    }
  }

  lemma IdOrder(a: Candidate, b: Candidate, c: Candidate)
    ensures IdLeq(a, b) || IdLeq(b, a)
    ensures IdLeq(a, b) && IdLeq(b, c) ==> IdLeq(a, c)
  {
    var x, y, z := GroupId(a.level, a.domain), GroupId(b.level, b.domain), GroupId(c.level, c.domain);
    LeqTotal(x, y);
    if Leq(x, y) && Leq(y, z) { LeqTransitive(x, y, z); }
  }

  lemma CandidateOrder()
    ensures TotalOrder(CandidateLeq)
  {
    forall a, b ensures CandidateLeq(a, b) || CandidateLeq(b, a) { IdOrder(a, b, a); }
    forall a, b, c | CandidateLeq(a, b) && CandidateLeq(b, c) ensures CandidateLeq(a, c) { IdOrder(a, b, c); }
  }

  // The candidates of one level, as they come from the SCORE stage.
  ghost predicate OneLevel(candidates: seq<Candidate>, order: nat) {
    && (forall c :: c in candidates ==> c.order == order)
    && Ordered(CandidateLeq, candidates)
  }

  lemma FitIsOneLevel(scoring: Scoring, demand: Demand, groups: seq<Group>, order: nat, result: seq<Candidate>)
    requires FitsAt(scoring, demand, groups, order, result)
    ensures OneLevel(result, order) && result != []
  {
    var level := CandidatesAt(scoring, demand, groups, order);
    CandidateOrder();
    SortOrders(CandidateLeq, level);
    SameElements(CandidateLeq, level);
    SortKeeps(CandidateLeq, level);
    forall c | c in result ensures c.order == order {
      CandidatesAtExactly(scoring, demand, groups, order, c);
    }
  }

  // The pipeline's own level filter and sort change nothing.
  lemma FilterIsNoOp(candidates: seq<Candidate>, order: nat)
    requires OneLevel(candidates, order) && candidates != []
    ensures forall o :: Least(candidates, o) ==> o == order
    ensures Sort(AnswerLeq, OfOrder(candidates, order)) == candidates
  {
    OfOrderKeepsAll(candidates, order);
    forall i, j | 0 <= i < j < |candidates| ensures AnswerLeq(candidates[i], candidates[j]) {
      assert CandidateLeq(candidates[i], candidates[j]);
      assert candidates[i] in candidates && candidates[j] in candidates;
    }
    SortOfOrdered(AnswerLeq, candidates);
  }

  lemma AnswerIsTop(candidates: seq<Candidate>, order: nat, answer: seq<Answered>)
    requires OneLevel(candidates, order) && candidates != [] && Answers(candidates, answer)
    ensures Ranks(Top(candidates), answer)
  {
    FilterIsNoOp(candidates, order);
  }

  // Main result: the answer is the best three (or all) of the feasible groups of the narrowest level that has one;
  // narrower levels have none, and a feasible group of that level that is left out ranks after every returned one.
  lemma NarrowestFitAndTopThree(scoring: Scoring, demand: Demand, groups: seq<Group>, result: seq<Candidate>, answer: seq<Answered>, order: nat)
    requires FitsAt(scoring, demand, groups, order, result) && Answers(result, answer)
    ensures answer != [] && |answer| <= 3 && Ranks(Top(result), answer)
    ensures forall c :: c in Top(result) ==>
              exists g :: g in groups && g.order == order && Chosen(scoring, demand, g) != [] && c == CandidateOf(scoring, demand, g)
    ensures forall g :: g in groups && g.order < order ==> Chosen(scoring, demand, g) == []
    ensures forall g :: g in groups && g.order == order && Chosen(scoring, demand, g) != [] ==>
              CandidateOf(scoring, demand, g) in Top(result) || forall c :: c in Top(result) ==> CandidateLeq(c, CandidateOf(scoring, demand, g))
  {
    FitIsOneLevel(scoring, demand, groups, order, result);
    AnswerIsTop(result, order, answer);
    var level := CandidatesAt(scoring, demand, groups, order);
    SameElements(CandidateLeq, level);
    forall c | c in Top(result)
      ensures exists g :: g in groups && g.order == order && Chosen(scoring, demand, g) != [] && c == CandidateOf(scoring, demand, g)
    {
      CandidatesAtExactly(scoring, demand, groups, order, c);
    }
    forall g | g in groups && g.order < order ensures Chosen(scoring, demand, g) == [] {
      CandidatesAtExactly(scoring, demand, groups, g.order, CandidateOf(scoring, demand, g));
    }
    forall g | g in groups && g.order == order && Chosen(scoring, demand, g) != []
      ensures CandidateOf(scoring, demand, g) in Top(result) || forall c :: c in Top(result) ==> CandidateLeq(c, CandidateOf(scoring, demand, g))
    {
      CandidatesAtExactly(scoring, demand, groups, order, CandidateOf(scoring, demand, g));
      OmittedRanksAfter(result, CandidateOf(scoring, demand, g));
    }
  }

  lemma OmittedRanksAfter(result: seq<Candidate>, c: Candidate)
    requires Ordered(CandidateLeq, result) && c in result
    ensures c in Top(result) || forall d :: d in Top(result) ==> CandidateLeq(d, c)
  {
    var j :| 0 <= j < |result| && result[j] == c;
    if |result| <= 3 {
    } else if j < 3 {
      assert c == result[..3][j];
    } else {
      forall d | d in Top(result) ensures CandidateLeq(d, c) {
        var i :| 0 <= i < 3 && result[i] == d;
      }
    }
  }

  // ---- The answer and the demand ----

  // What is answered stands for this group.
  ghost predicate AnsweredFor(scoring: Scoring, demand: Demand, g: Group, a: Answered) {
    exists c :: StandsFor(scoring, demand, g, c) && a.groupId == GroupId(g.level, g.domain) && a.groupScore == c.groupScore && a.nodes == c.nodes
  }

  // Better score first, then the smaller id.
  predicate Before(scoreA: real, idA: string, scoreB: real, idB: string) {
    scoreA > scoreB || (scoreA == scoreB && Leq(idA, idB))
  }

  // The group cannot do, or is answered, or comes after three that are.
  ghost predicate Settled(scoring: Scoring, demand: Demand, g: Group, answer: seq<Answered>) {
    || Fails(scoring, demand, g)
    || (exists k :: 0 <= k < |answer| && AnsweredFor(scoring, demand, g, answer[k]))
    || (|answer| == 3 && exists c :: StandsFor(scoring, demand, g, c) && AllBefore(answer, c.groupScore, GroupId(g.level, g.domain)))
  }

  predicate AllBefore(answer: seq<Answered>, score: real, id: string) {
    forall k :: 0 <= k < |answer| ==> Before(answer[k].groupScore, answer[k].groupId, score, id)
  }

  ghost predicate SomeGroup(scoring: Scoring, demand: Demand, groups: seq<Group>, order: nat, a: Answered) {
    exists g :: g in groups && g.order == order && AnsweredFor(scoring, demand, g, a)
  }

  // At most three groups of one order, ranked from one and best first; all narrower groups fail, and those of the
  // order are settled.
  ghost predicate ServesAt(scoring: Scoring, demand: Demand, groups: seq<Group>, answer: seq<Answered>, order: nat) {
    && |answer| <= 3
    && (forall k :: 0 <= k < |answer| ==> answer[k].rank == k + 1 && SomeGroup(scoring, demand, groups, order, answer[k]))
    && (forall k, m :: 0 <= k < m < |answer| ==> Before(answer[k].groupScore, answer[k].groupId, answer[m].groupScore, answer[m].groupId))
    && (forall g :: g in groups && g.order < order ==> Fails(scoring, demand, g))
    && (forall g :: g in groups && g.order == order ==> Settled(scoring, demand, g, answer))
  }

  ghost predicate Serves(scoring: Scoring, demand: Demand, groups: seq<Group>, answer: seq<Answered>) {
    if answer == [] then forall g :: g in groups ==> Fails(scoring, demand, g)
    else exists order :: ServesAt(scoring, demand, groups, answer, order)
  }

  lemma NarrowerFail(scoring: Scoring, demand: Demand, groups: seq<Group>, order: nat)
    requires CandidatesAt(scoring, demand, groups, order) == []
    ensures forall g :: g in groups && g.order == order ==> Fails(scoring, demand, g)
  {
    hide Fails, StandsFor, CandidatesAt, Stands;
    LevelAnswers(scoring, demand, groups, order);
  }

  lemma TopIsAnswered(scoring: Scoring, demand: Demand, groups: seq<Group>, result: seq<Candidate>, answer: seq<Answered>, order: nat, k: nat)
    requires Ranks(Top(result), answer) && k < |answer|
    requires forall c :: c in result ==> c.order == order && Stands(scoring, demand, groups, c)
    ensures exists g :: g in groups && g.order == order && AnsweredFor(scoring, demand, g, answer[k])
  {
    hide Respects, Backs, Prefix;
    var c := Top(result)[k];
    assert c in result;
    var g :| g in groups && StandsFor(scoring, demand, g, c);
    assert AnsweredFor(scoring, demand, g, answer[k]);
  }

  lemma CandidateIsSettled(scoring: Scoring, demand: Demand, g: Group, result: seq<Candidate>, answer: seq<Answered>, c: Candidate)
    requires Ranks(Top(result), answer) && c in result && StandsFor(scoring, demand, g, c)
    requires Ordered(CandidateLeq, result) && forall d :: d in result ==> d.order == c.order
    ensures Settled(scoring, demand, g, answer)
  {
    hide Respects, Backs, Fails, Prefix;
    OmittedRanksAfter(result, c);
    if c in Top(result) {
      var k :| 0 <= k < |Top(result)| && Top(result)[k] == c;
      assert AnsweredFor(scoring, demand, g, answer[k]);
    } else {
      forall k | 0 <= k < 3 ensures Before(answer[k].groupScore, answer[k].groupId, c.groupScore, GroupId(g.level, g.domain)) {
        assert Top(result)[k] in result;
      }
      assert AllBefore(answer, c.groupScore, GroupId(g.level, g.domain));
    }
  }

  // Main result: the answer serves the demand.
  lemma AnswerServesDemand(scoring: Scoring, demand: Demand, groups: seq<Group>, candidates: seq<Candidate>, answer: seq<Answered>)
    requires NarrowestFit(scoring, demand, groups, candidates) && Answers(candidates, answer)
    ensures Serves(scoring, demand, groups, answer)
  {
    hide Stands, StandsFor, Fails, CandidatesAt, AnsweredFor, Settled, Prefix, Answers;
    if exists order :: FitsAt(scoring, demand, groups, order, candidates) {
      var order: nat :| FitsAt(scoring, demand, groups, order, candidates);
      FitIsServed(scoring, demand, groups, order, candidates, answer);
    } else {
      NoCandidates(answer);
      forall g | g in groups ensures Fails(scoring, demand, g) { NarrowerFail(scoring, demand, groups, g.order); }
    }
  }

  lemma NoCandidates(answer: seq<Answered>)
    requires Answers([], answer)
    ensures answer == []
  {
  }

  lemma AnswerInOrder(result: seq<Candidate>, order: nat, answer: seq<Answered>)
    requires OneLevel(result, order) && result != [] && Ranks(Top(result), answer)
    ensures 0 < |answer| <= 3
    ensures forall k, m :: 0 <= k < m < |answer| ==> Before(answer[k].groupScore, answer[k].groupId, answer[m].groupScore, answer[m].groupId)
  {
    hide Prefix, Leq;
    forall k, m | 0 <= k < m < |answer| ensures Before(answer[k].groupScore, answer[k].groupId, answer[m].groupScore, answer[m].groupId) {
      assert Top(result)[k] == result[k] && Top(result)[m] == result[m] && CandidateLeq(result[k], result[m]);
      assert result[k] in result && result[m] in result;
    }
  }

  lemma TopAreAnswered(scoring: Scoring, demand: Demand, groups: seq<Group>, order: nat, result: seq<Candidate>, answer: seq<Answered>)
    requires FitsAt(scoring, demand, groups, order, result) && Ranks(Top(result), answer)
    ensures forall k :: 0 <= k < |answer| ==> answer[k].rank == k + 1 && SomeGroup(scoring, demand, groups, order, answer[k])
  {
    hide Stands, StandsFor, Fails, CandidatesAt, AnsweredFor, Prefix, CandidateLeq, Sort;
    LevelAnswers(scoring, demand, groups, order);
    SameElements(CandidateLeq, CandidatesAt(scoring, demand, groups, order));
    forall k | 0 <= k < |answer| ensures answer[k].rank == k + 1 && SomeGroup(scoring, demand, groups, order, answer[k]) {
      TopIsAnswered(scoring, demand, groups, result, answer, order, k);
    }
  }

  lemma AllSettled(scoring: Scoring, demand: Demand, groups: seq<Group>, order: nat, result: seq<Candidate>, answer: seq<Answered>)
    requires FitsAt(scoring, demand, groups, order, result) && Ranks(Top(result), answer) && OneLevel(result, order)
    ensures forall g :: g in groups && g.order < order ==> Fails(scoring, demand, g)
    ensures forall g :: g in groups && g.order == order ==> Settled(scoring, demand, g, answer)
  {
    hide Stands, StandsFor, Fails, CandidatesAt, Settled, Prefix, CandidateLeq, Sort;
    LevelAnswers(scoring, demand, groups, order);
    SameElements(CandidateLeq, CandidatesAt(scoring, demand, groups, order));
    forall g | g in groups && g.order < order ensures Fails(scoring, demand, g) {
      NarrowerFail(scoring, demand, groups, g.order);
    }
    forall g | g in groups && g.order == order ensures Settled(scoring, demand, g, answer) {
      if Fails(scoring, demand, g) {
        FailsIsSettled(scoring, demand, g, answer);
      } else {
        var c :| c in result && StandsFor(scoring, demand, g, c);
        CandidateIsSettled(scoring, demand, g, result, answer, c);
      }
    }
  }

  lemma FitIsServed(scoring: Scoring, demand: Demand, groups: seq<Group>, order: nat, result: seq<Candidate>, answer: seq<Answered>)
    requires FitsAt(scoring, demand, groups, order, result) && Answers(result, answer)
    ensures answer != [] && ServesAt(scoring, demand, groups, answer, order)
  {
    hide FitsAt, OneLevel, Fails, SomeGroup, Settled, Answers, Before, Ranks;
    FitIsOneLevel(scoring, demand, groups, order, result);
    AnswerIsTop(result, order, answer);
    AnswerInOrder(result, order, answer);
    TopAreAnswered(scoring, demand, groups, order, result, answer);
    AllSettled(scoring, demand, groups, order, result, answer);
  }

  lemma FailsIsSettled(scoring: Scoring, demand: Demand, g: Group, answer: seq<Answered>)
    requires Fails(scoring, demand, g)
    ensures Settled(scoring, demand, g, answer)
  {
  }
}
