/**
What the snapshot handshake can achieve, in every run: a snapshot can always be published and used, an unchanged one is
kept without another PUT, and neither a poll nor a ready state says more than the server has accepted
(prc/pkg/controller/static_snapshot_controller.go, prc_controller.go and algorithm_server/go/algorithm/cache.go).
*/
module SnapshotLiveness {
  import opened Wrappers
  import opened StaticCache
  import opened SnapshotState
  import opened SnapshotProtocol

  // No process is restarted after run.
  predicate Undisturbed(run: Run, later: Run) {
    later == run || (later.Then? && !later.step.ServerRestarts? && !later.step.ControllerRestarts? && Undisturbed(run, later.before))
  }

  lemma More(run: Run, s: Run, step: Step) returns (t: Run)
    requires s.Valid() && Enabled(s.Last(), step) && Undisturbed(run, s) && !step.ServerRestarts? && !step.ControllerRestarts?
    ensures t == Then(s, step) && t.Valid() && t.Last() == Apply(s.Last(), step) && Undisturbed(run, t)
  {
    t := Then(s, step);
  }

  lemma NoneYet(run: Run)
    ensures Undisturbed(run, run)
  {
  }

  // ---- A snapshot can always be published and used ----

  // The controller can get back to its start, by failing what it waits for.
  lemma ControllerCanIdle(run: Run) returns (t: Run)
    requires run.Valid()
    ensures t.Valid() && Undisturbed(run, t) && t.Last().phase == Idle
  {
    NoneYet(run);
    hide Run.Valid, Run.Last, Undisturbed;
    t := run;
    if t.Last().phase.Polling? { t := More(run, t, PollFails(0)); }
    if t.Last().phase.Putting? { t := More(run, t, PutFails("", 0)); }
  }

  // The last PUT sent is of this content, and the controller waits for it.
  ghost predicate Publishing(w: World, content: Body) {
    w.phase.Putting? && w.puts != [] && w.phase.put == |w.puts| - 1 && w.puts[|w.puts| - 1] == content
  }

  lemma PublishPublishes(w: World, content: Body, now: int)
    ensures Publishing(Publish(w, content, now), content)
  {
  }

  lemma CanPublish(run: Run, content: Body) returns (t: Run)
    requires run.Valid()
    ensures t.Valid() && Undisturbed(run, t) && Publishing(t.Last(), content)
  {
    t := ControllerCanIdle(run);
    hide Run.Valid, Run.Last, Undisturbed, Publish, Publishing;
    PublishPublishes(t.Last(), content, 0);
    t := More(run, t, Reconcile(content, 0));
    if t.Last().phase.Polling? {
      PublishPublishes(t.Last(), content, 0);
      t := More(run, t, PollFails(0));
    }
  }

  // What has just been accepted is found.
  lemma NewIsFound(accepted: seq<Snapshot>, s: Snapshot)
    requires AllGenuine(accepted) && Genuine(s)
    ensures Lookup(accepted + [s], s.id) == Some(s)
  {
    hide Switches, Genuine;
    SwitchesStep(accepted, s);
  }

  // The server holds the snapshot, and the workers may ask it for it.
  ghost predicate Synced(w: World, content: Body) {
    && Accepts(HashOf(content), content) && w.server.boot != 0
    && w.shared.ready && w.shared.status.snapshotId == Some(HashOf(content)) && w.shared.status.bootId == w.server.boot
    && Lookup(w.server.accepted, HashOf(content)) == Some(Stored(HashOf(content), content))
  }

  lemma RunIsServed(run: Run)
    requires run.Valid()
    ensures run.Last().server.boot != 0 && AllGenuine(run.Last().server.accepted)
  {
    RunKeeps(run);
  }

  lemma PutIsAcked(w: World, content: Body)
    requires Publishing(w, content) && Accepts(HashOf(content), content)
    ensures var v := AfterPut(w, w.phase.put);
            && v == w.(server := v.server, acks := v.acks, accepted := v.accepted) && v.server.boot == w.server.boot
            && v.server.accepted == w.server.accepted + [Stored(HashOf(content), content)]
            && Ack(w.phase.put, HashOf(content), w.server.boot) in v.acks
  {
    hide Accepts, Stored;
  }

  lemma CanSync(run: Run, content: Body) returns (t: Run)
    requires run.Valid() && Accepts(HashOf(content), content)
    ensures t.Valid() && Undisturbed(run, t) && Synced(t.Last(), content) && t.Last().phase == Idle
  {
    t := CanPublish(run, content);
    RunIsServed(t);
    var id := HashOf(content);
    StoredIsGenuine(id, content);
    NewIsFound(t.Last().server.accepted, Stored(id, content));
    PutIsAcked(t.Last(), content);
    hide Run.Valid, Run.Last, Undisturbed, Accepts, Stored, Lookup, AfterPut, AllGenuine, Genuine;
    var put := t.Last().phase.put;
    var ack := Ack(put, id, t.Last().server.boot);
    t := More(run, t, ServePut(put));
    t := More(run, t, Acknowledged(ack, 0, 0));
  }

  // Main result: from every reachable state, whatever was published before, any acceptable Node snapshot can be
  // published, acknowledged and used by a demand worker, without any process being restarted.
  lemma SnapshotCanBeUsed(run: Run, content: Body) returns (t: Run, a: Answer)
    requires run.Valid() && Accepts(HashOf(content), content)
    ensures t.Valid() && Undisturbed(run, t) && a in t.Last().used
    ensures a.id == HashOf(content) && a.snapshot == Stored(HashOf(content), content)
  {
    t := CanSync(run, content);
    hide Run.Valid, Run.Last, Undisturbed, Accepts, Stored, Lookup;
    var w := t.Last();
    a := Answer(|w.asks|, HashOf(content), w.server.boot, Stored(HashOf(content), content));
    t := More(run, t, AskServer);
    t := More(run, t, ServeAsk(|w.asks|));
    t := More(run, t, UseAnswer(a));
  }

  // ---- An unchanged snapshot is kept ----

  lemma LastIsCurrent(accepted: seq<Snapshot>)
    requires accepted != []
    ensures Nth(Switches(accepted), 0).Some? && Nth(Switches(accepted), 0).value.id == accepted[|accepted| - 1].id
  {
    SwitchesAlternate(accepted);
  }

  // Main result: while the server's current snapshot is the confirmed one, a pass over the same Nodes can stay ready
  // without publishing anything.
  lemma UnchangedIsKept(run: Run, content: Body, count: nat, now: int) returns (t: Run)
    requires run.Valid() && run.Last().phase == Idle && run.Last().server.accepted != []
    requires var w := run.Last();
             && w.shared.ready && w.shared.status.snapshotId == Some(HashOf(content)) && w.shared.status.bootId == w.server.boot
             && w.server.accepted[|w.server.accepted| - 1].id == HashOf(content)
    ensures t.Valid() && Undisturbed(run, t) && t.Last().phase == Idle && t.Last().puts == run.Last().puts
    ensures t.Last().shared == Shared(Status(Some(HashOf(content)), run.Last().server.boot, count, now, "", now), true)
  {
    NoneYet(run);
    LastIsCurrent(run.Last().server.accepted);
    hide Run.Valid, Run.Last, Undisturbed, Switches;
    t := More(run, run, Reconcile(content, now));
    t := More(run, t, ServePoll);
    t := More(run, t, PollAnswered(PollReply(true, Some(HashOf(content)), run.Last().server.boot), count, now));
  }

  // ---- Neither polls nor readiness promise too much ----

  // A ready poll reply names a process and a snapshot that it accepted.
  ghost predicate RepliesTrue(w: World) {
    forall reply :: reply in w.replies && reply.ready ==> reply.id.Some? && (reply.boot, reply.id.value) in w.accepted
  }

  lemma StatusIsTrue(w: World)
    requires ServerInv(w)
    ensures StatusOf(w.server).ready ==> StatusOf(w.server).id.Some? && (StatusOf(w.server).boot, StatusOf(w.server).id.value) in w.accepted
  {
    if w.server.accepted != [] { LastIsCurrent(w.server.accepted); }
  }

  lemma RepliesStep(w: World, step: Step)
    requires ServerInv(w) && RepliesTrue(w) && Enabled(w, step)
    ensures RepliesTrue(Apply(w, step))
  {
    hide Accepts, Stored, Lookup, StatusOf;
    StatusIsTrue(w);
  }

  lemma {:induction false} PollsAreTrue(run: Run)
    requires run.Valid()
    ensures RepliesTrue(run.Last())
  {
    if run.Then? {
      PollsAreTrue(run.before);
      RunKeeps(run.before);
      hide Apply, Enabled, RepliesTrue;
      RepliesStep(run.before.Last(), run.step);
    }
  }

  // An acknowledgement answers its own PUT.
  ghost predicate AcksTrue(w: World) {
    forall a :: a in w.acks ==> a.put < |w.puts| && a.id == HashOf(w.puts[a.put]) && (a.boot, a.id) in w.accepted
  }

  lemma AcksStep(w: World, step: Step)
    requires AcksTrue(w) && Enabled(w, step)
    ensures AcksTrue(Apply(w, step))
  {
    hide Accepts, Stored, Lookup, StatusOf;
  }

  lemma {:induction false} AcksAreTrue(run: Run)
    requires run.Valid()
    ensures AcksTrue(run.Last())
  {
    if run.Then? {
      AcksAreTrue(run.before);
      hide Apply, Enabled, AcksTrue;
      AcksStep(run.before.Last(), run.step);
    }
  }

  // Main result: what the controller hears is true: a poll answered ready names a process and a snapshot that it
  // accepted, and an acknowledgement is of the PUT waited for, by a process that accepted its content.
  lemma RepliesAreGenuine(run: Run, reply: PollReply, ack: Ack, count: nat, now: int)
    requires run.Valid()
    ensures Enabled(run.Last(), PollAnswered(reply, count, now)) && reply.ready ==>
              reply.id.Some? && (reply.boot, reply.id.value) in run.Last().accepted
    ensures Enabled(run.Last(), Acknowledged(ack, count, now)) ==>
              var w := run.Last();
              ack.put == w.phase.put < |w.puts| && ack.id == HashOf(w.puts[w.phase.put]) && (ack.boot, ack.id) in w.accepted
  {
    PollsAreTrue(run);
    AcksAreTrue(run);
  }

  // The controller has had an acknowledgement since it was started.
  predicate AckedSince(run: Run) {
    run.Then? && !run.step.ControllerRestarts? && (run.step.Acknowledged? || AckedSince(run.before))
  }

  lemma ReadyStep(w: World, step: Step)
    requires PhaseInv(w) && Enabled(w, step)
    ensures Apply(w, step).shared.ready ==> !step.ControllerRestarts? && (step.Acknowledged? || w.shared.ready)
  {
    hide Accepts, Stored, Lookup, StatusOf;
  }

  // Main result: a controller is ready only if a server process has acknowledged a snapshot since the controller was
  // started.
  lemma {:induction false} ReadyIsEarned(run: Run)
    requires run.Valid() && run.Last().shared.ready
    ensures AckedSince(run)
  {
    hide Apply, Enabled;
    if run.Then? {
      RunKeeps(run.before);
      ReadyStep(run.before.Last(), run.step);
      if !run.step.Acknowledged? { ReadyIsEarned(run.before); }
    }
  }

  // ---- What the surroundings decide ----

  // Reads, polls and PUTs fail, messages are served again and processes restart at any moment.
  lemma AnythingCanHappen(w: World, error: string, now: int)
    ensures Enabled(w, ServerRestarts) && Enabled(w, ControllerRestarts) && Enabled(w, ServePoll)
    ensures w.phase == Idle ==> Enabled(w, ReadFails(error, now))
    ensures w.phase.Polling? ==> Enabled(w, PollFails(now))
    ensures w.phase.Putting? ==> Enabled(w, PutFails(error, now))
    ensures forall put :: 0 <= put < |w.puts| ==> Enabled(w, ServePut(put))
    ensures forall ask :: 0 <= ask < |w.asks| ==> Enabled(w, ServeAsk(ask))
  {
  }
}
