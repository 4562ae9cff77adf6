/**
The static snapshot handshake: the controller that publishes Node snapshots (Reconcile in
prc/pkg/controller/static_snapshot_controller.go), the Algorithm server that caches them (cache.go, service.go and
application.go in algorithm_server/go/algorithm), and the demand workers that use them (prc_controller.go).

A run is any interleaving of their steps. Messages are never withdrawn once sent: a request may be served late, more
than once or never, by whatever server process then runs, and replies may be lost.
*/
module SnapshotProtocol {
  import opened Wrappers
  import opened StaticCache
  import opened SnapshotState

  // The Algorithm process: its boot id, fresh at every start, and what its cache accepted since.
  datatype Server = Server(boot: nat, accepted: seq<Snapshot>)

  // What the singleton controller is waiting for.
  datatype Phase = Idle | Polling(content: Body) | Putting(put: nat)

  datatype Ack = Ack(put: nat, id: SnapshotId, boot: nat)
  datatype PollReply = PollReply(ready: bool, id: Option<SnapshotId>, boot: nat)

  // A demand worker asks with the identity it read; an answer says which process computed it from which snapshot.
  datatype Ask = Ask(id: SnapshotId, boot: nat, published: nat)
  datatype Answer = Answer(ask: nat, id: SnapshotId, boot: nat, snapshot: Snapshot)

  datatype World = World(
    server: Server, shared: Shared, phase: Phase,
    puts: seq<Body>, acks: set<Ack>, replies: set<PollReply>, asks: seq<Ask>, answers: set<Answer>,
    used: set<Answer>,                       // the answers that demand workers accepted
    accepted: set<(nat, SnapshotId)>,        // history: which process accepted which snapshot
    confirmed: set<(nat, SnapshotId)>)       // history: the acknowledgements that the controller acted on

  const Start := World(Server(1, []), Initial, Idle, [], {}, {}, [], {}, {}, {}, {})

  datatype Step =
    | Reconcile(content: Body, now: int)     // the Node list read, its snapshot built
    | ReadFails(error: string, now: int)     // listing or building failed
    | PollAnswered(reply: PollReply, count: nat, now: int)
    | PollFails(now: int)
    | Acknowledged(ack: Ack, count: nat, now: int)
    | PutFails(error: string, now: int)
    | ControllerRestarts
    | ServePut(put: nat)
    | ServePoll
    | ServeAsk(ask: nat)
    | ServerRestarts
    | AskServer
    | UseAnswer(answer: Answer)

  // syncing, then the PUT.
  function Publish(w: World, content: Body, now: int): World {
    w.(shared := Syncing(w.shared, now), phase := Putting(|w.puts|), puts := w.puts + [content])
  }

  ghost predicate Enabled(w: World, step: Step) {
    match step
    case Reconcile(_, _) => w.phase == Idle
    case ReadFails(_, _) => w.phase == Idle
    case PollAnswered(reply, _, _) => w.phase.Polling? && reply in w.replies
    case PollFails(_) => w.phase.Polling?
    case Acknowledged(ack, _, _) => w.phase.Putting? && ack in w.acks && ack.put == w.phase.put
    case PutFails(_, _) => w.phase.Putting?
    case ControllerRestarts => true
    case ServePut(put) => put < |w.puts|
    case ServePoll => true
    case ServeAsk(ask) => ask < |w.asks|
    case ServerRestarts => true
    case AskServer => w.shared.ready && w.shared.status.snapshotId.Some?
    case UseAnswer(answer) => answer in w.answers && answer.ask < |w.asks|
  }

  ghost function Apply(w: World, step: Step): World
    requires Enabled(w, step)
  {
    match step
    case Reconcile(content, now) =>
      if w.shared.ready && w.shared.status.snapshotId == Some(HashOf(content)) then w.(phase := Polling(content))
      else Publish(w, content, now)
    case ReadFails(error, now) => w.(shared := Failed(w.shared, Some(error), now))
    case PollAnswered(reply, count, now) =>
      if reply.ready && reply.id == Some(HashOf(w.phase.content)) && reply.boot == w.shared.status.bootId
      then w.(shared := Confirmed(HashOf(w.phase.content), reply.boot, count, now), phase := Idle)
      else Publish(w, w.phase.content, now)
    case PollFails(now) => Publish(w, w.phase.content, now)
    case Acknowledged(ack, count, now) => AfterAck(w, ack, count, now)
    case PutFails(error, now) => w.(shared := Failed(w.shared, Some(error), now), phase := Idle)
    case ControllerRestarts => w.(shared := Initial, phase := Idle)
    case ServePut(put) => AfterPut(w, put)
    case ServePoll => w.(replies := w.replies + {StatusOf(w.server)})
    case ServeAsk(ask) => AfterAsk(w, ask)
    case ServerRestarts => w.(server := Server(w.server.boot + 1, []))
    case AskServer => w.(asks := w.asks + [Ask(w.shared.status.snapshotId.value, w.shared.status.bootId, |w.puts|)])
    case UseAnswer(answer) =>
      // validateResponse: the answer must name the snapshot and the boot that the worker had read
      if answer.id == w.asks[answer.ask].id && answer.boot == w.asks[answer.ask].boot then w.(used := w.used + {answer}) else w
  }

  function AfterAck(w: World, ack: Ack, count: nat, now: int): World
    requires w.phase.Putting?
  {
    if w.phase.put < |w.puts| && ack.id == HashOf(w.puts[w.phase.put]) && ack.boot != 0
    then w.(shared := Confirmed(ack.id, ack.boot, count, now), phase := Idle, confirmed := w.confirmed + {(ack.boot, ack.id)})
    else w.(shared := Failed(w.shared, Some("not acknowledged"), now), phase := Idle)
  }

  // StaticCache.Put, and the acknowledgement that names the process.
  function AfterPut(w: World, put: nat): World
    requires put < |w.puts|
  {
    var id := HashOf(w.puts[put]);
    if Accepts(id, w.puts[put])
    then w.(server := w.server.(accepted := w.server.accepted + [Stored(id, w.puts[put])]),
            acks := w.acks + {Ack(put, id, w.server.boot)}, accepted := w.accepted + {(w.server.boot, id)})
    else w
  }

  function StatusOf(s: Server): PollReply {
    var current := Nth(Switches(s.accepted), 0);
    PollReply(current.Some?, if current.Some? then Some(current.value.id) else None, s.boot)
  }

  // StaticCache.Get; STATIC_SNAPSHOT_NOT_FOUND is no answer.
  function AfterAsk(w: World, ask: nat): World
    requires ask < |w.asks|
  {
    var found := Lookup(w.server.accepted, w.asks[ask].id);
    if found.Some? then w.(answers := w.answers + {Answer(ask, found.value.id, w.server.boot, found.value)}) else w
  }

  // ---- Runs ----

  datatype Run = Started | Then(before: Run, step: Step) {
    ghost predicate Valid()
      decreases this, 0
    {
      Started? || (before.Valid() && Enabled(before.Last(), step))
    }

    ghost function Last(): World
      requires Valid()
      decreases this, 1
    {
      if Started? then Start else Apply(before.Last(), step)
    }
  }

  // ---- What every step keeps ----

  // The cache holds what its own process accepted.
  ghost predicate ServerInv(w: World) {
    && w.server.boot != 0 && AllGenuine(w.server.accepted)
    && forall i :: 0 <= i < |w.server.accepted| ==> (w.server.boot, w.server.accepted[i].id) in w.accepted
  }

  ghost predicate AckInv(w: World) {
    forall a :: a in w.acks ==> (a.boot, a.id) in w.accepted
  }

  // Ready means: acknowledged by that process, and nothing newer was published.
  ghost predicate SharedInv(w: World) {
    && w.confirmed <= w.accepted
    && (w.shared.ready ==>
          && w.shared.status.snapshotId.Some?
          && (w.shared.status.bootId, w.shared.status.snapshotId.value) in w.confirmed
          && w.puts != [] && w.shared.status.snapshotId.value == HashOf(w.puts[|w.puts| - 1]))
  }

  ghost predicate PhaseInv(w: World) {
    && (w.phase.Putting? ==> !w.shared.ready && w.phase.put == |w.puts| - 1 && w.puts != [])
    && (w.phase.Polling? ==> w.shared.ready && w.shared.status.snapshotId == Some(HashOf(w.phase.content)))
  }

  ghost predicate AskInv(w: World) {
    forall i :: 0 <= i < |w.asks| ==>
      (w.asks[i].boot, w.asks[i].id) in w.confirmed && 0 < w.asks[i].published <= |w.puts| && w.asks[i].id == HashOf(w.puts[w.asks[i].published - 1])
  }

  ghost predicate AnswerInv(w: World) {
    forall a :: a in w.answers ==> a.ask < |w.asks| && GoodAnswer(w.accepted, a)
  }

  ghost predicate GoodAnswer(accepted: set<(nat, SnapshotId)>, a: Answer) {
    (a.boot, a.id) in accepted && Genuine(a.snapshot) && a.snapshot.id == a.id
  }

  ghost predicate UsedInv(w: World) {
    forall a :: a in w.used ==> a.ask < |w.asks| && GoodAnswer(w.accepted, a) && a.id == w.asks[a.ask].id && a.boot == w.asks[a.ask].boot
  }

  ghost predicate Invariant(w: World) {
    ServerInv(w) && AckInv(w) && SharedInv(w) && PhaseInv(w) && AskInv(w) && AnswerInv(w) && UsedInv(w)
  }

  lemma ControllerKeeps(w: World, step: Step)
    requires Invariant(w) && Enabled(w, step)
    requires step.Reconcile? || step.ReadFails? || step.PollAnswered? || step.PollFails? || step.PutFails? || step.ControllerRestarts?
    ensures Invariant(Apply(w, step))
  {
  }

  lemma AckKeeps(w: World, step: Step)
    requires Invariant(w) && Enabled(w, step) && step.Acknowledged?
    ensures Invariant(Apply(w, step))
  {
  }

  lemma PutKeeps(w: World, put: nat)
    requires Invariant(w) && put < |w.puts|
    ensures Invariant(AfterPut(w, put))
  {
    var id := HashOf(w.puts[put]);
    if Accepts(id, w.puts[put]) {
      StoredIsGenuine(id, w.puts[put]);
    }
  }

  lemma ServerKeeps(w: World, step: Step)
    requires Invariant(w) && Enabled(w, step) && (step.ServePoll? || step.ServerRestarts?)
    ensures Invariant(Apply(w, step))
  {
  }

  lemma FoundIsGood(w: World, id: SnapshotId, ask: nat)
    requires ServerInv(w) && Lookup(w.server.accepted, id).Some?
    ensures GoodAnswer(w.accepted, Answer(ask, id, w.server.boot, Lookup(w.server.accepted, id).value))
  {
    FoundIsGenuine(w.server.accepted, id);
  }

  lemma AnswerAdded(w: World, a: Answer)
    requires Invariant(w) && a.ask < |w.asks| && GoodAnswer(w.accepted, a)
    ensures Invariant(w.(answers := w.answers + {a}))
  {
    hide GoodAnswer, Genuine, AllGenuine;
  }

  lemma ServeAskKeeps(w: World, ask: nat)
    requires Invariant(w) && ask < |w.asks|
    ensures Invariant(AfterAsk(w, ask))
  {
    var found := Lookup(w.server.accepted, w.asks[ask].id);
    if found.Some? {
      FoundIsGood(w, w.asks[ask].id, ask);
      AnswerAdded(w, Answer(ask, found.value.id, w.server.boot, found.value));
    }
  }

  lemma AskKeeps(w: World)
    requires Invariant(w) && Enabled(w, AskServer)
    ensures Invariant(Apply(w, AskServer))
  {
  }

  lemma UsedAdded(w: World, a: Answer)
    requires UsedInv(w) && a.ask < |w.asks| && GoodAnswer(w.accepted, a) && a.id == w.asks[a.ask].id && a.boot == w.asks[a.ask].boot
    ensures UsedInv(w.(used := w.used + {a}))
  {
  }

  lemma OthersUnused(w: World, a: Answer)
    requires Invariant(w)
    ensures var v := w.(used := w.used + {a});
            ServerInv(v) && AckInv(v) && SharedInv(v) && PhaseInv(v) && AskInv(v) && AnswerInv(v)
  {
  }

  lemma UseKeeps(w: World, answer: Answer)
    requires Invariant(w) && Enabled(w, UseAnswer(answer))
    ensures Invariant(Apply(w, UseAnswer(answer)))
  {
    if answer.id == w.asks[answer.ask].id && answer.boot == w.asks[answer.ask].boot {
      UsedAdded(w, answer);
      OthersUnused(w, answer);
    }
  }

  lemma StepKeeps(w: World, step: Step)
    requires Invariant(w) && Enabled(w, step)
    ensures Invariant(Apply(w, step))
  {
    match step
    case Acknowledged(_, _, _) => AckKeeps(w, step);
    case ServePut(put) => PutKeeps(w, put);
    case ServeAsk(ask) => ServeAskKeeps(w, ask);
    case ServePoll => ServerKeeps(w, step);
    case ServerRestarts => ServerKeeps(w, step);
    case AskServer => AskKeeps(w);
    case UseAnswer(answer) => UseKeeps(w, answer);
    case _ => ControllerKeeps(w, step);
  }

  lemma {:induction false} RunKeeps(run: Run)
    requires run.Valid()
    ensures Invariant(run.Last())
  {
    if run.Then? {
      RunKeeps(run.before);
      StepKeeps(run.before.Last(), run.step);
    }
  }

  // Main result: in every run, across Node changes, late or repeated PUTs, polls and restarts, an answer that was
  // used was computed by the very process whose acknowledgement of that snapshot the controller had received, and
  // from what an upload with that id stores.
  lemma UsedAnswersAreGenuine(run: Run, a: Answer)
    requires run.Valid() && a in run.Last().used
    ensures var w := run.Last();
            && a.ask < |w.asks| && a.id == w.asks[a.ask].id
            && (a.boot, a.id) in w.confirmed && (a.boot, a.id) in w.accepted
            && a.id.HashOf? && Accepts(a.id, a.id.content) && a.snapshot == Stored(a.id, a.id.content)
  {
    RunKeeps(run);
  }

  // Main result: workers read a snapshot only while no newer one is being published: what an ask names is the
  // content of the last PUT sent before it.
  lemma AsksUseTheLatest(run: Run, i: nat)
    requires run.Valid() && i < |run.Last().asks|
    ensures var w := run.Last(); var ask := w.asks[i];
            0 < ask.published <= |w.puts| && ask.id == HashOf(w.puts[ask.published - 1]) && (ask.boot, ask.id) in w.confirmed
    ensures run.Last().phase.Putting? ==> !Enabled(run.Last(), AskServer)
  {
    RunKeeps(run);
  }

  // ---- An in-flight id survives one switch ----

  // Boots only go up, and a process only adds to what it accepted.
  ghost predicate Onward(a: Server, b: Server) {
    a.boot <= b.boot && (a.boot == b.boot ==> a.accepted <= b.accepted)
  }

  lemma StepOnward(w: World, step: Step)
    requires Enabled(w, step)
    ensures Onward(w.server, Apply(w, step).server)
  {
    hide Accepts, Stored, Lookup;
  }

  lemma {:induction false} ProcessOnlyGrows(run: Run, later: Run)
    requires run.Valid() && later.Valid() && Extends(run, later)
    ensures Onward(run.Last().server, later.Last().server)
    decreases later
  {
    hide Apply, Enabled;
    if later != run {
      ProcessOnlyGrows(run, later.before);
      StepOnward(later.before.Last(), later.step);
    }
  }

  ghost predicate Extends(run: Run, later: Run) {
    later == run || (later.Then? && Extends(run, later.before))
  }

  // Main result: when the process that accepted a snapshot last still runs and has since switched at most once, an
  // ask for that snapshot is answered.
  lemma InFlightSurvivesOneSwitch(run: Run, later: Run, ask: nat)
    requires run.Valid() && later.Valid() && Extends(run, later)
    requires run.Last().server.accepted != [] && later.Last().server.boot == run.Last().server.boot
    requires |Switches(later.Last().server.accepted)| <= |Switches(run.Last().server.accepted)| + 1
    requires ask < |later.Last().asks| && later.Last().asks[ask].id == run.Last().server.accepted[|run.Last().server.accepted| - 1].id
    ensures exists a :: a in Apply(later.Last(), ServeAsk(ask)).answers && a.ask == ask && a.id == later.Last().asks[ask].id && a.boot == run.Last().server.boot
  {
    var before, after := run.Last().server.accepted, later.Last().server.accepted;
    ProcessOnlyGrows(run, later);
    assert after == before + after[|before|..];
    SurvivesOneSwitch(before, after[|before|..]);
    FoundIsAnswered(later.Last(), ask);
  }

  lemma FoundIsAnswered(w: World, ask: nat)
    requires ask < |w.asks| && Lookup(w.server.accepted, w.asks[ask].id).Some?
    ensures exists a :: a in Apply(w, ServeAsk(ask)).answers && a.ask == ask && a.id == w.asks[ask].id && a.boot == w.server.boot
  {
    var found := Lookup(w.server.accepted, w.asks[ask].id);
    assert Answer(ask, found.value.id, w.server.boot, found.value) in AfterAsk(w, ask).answers;
  }
}
