/**
One pass of the snapshot controller over its shared state: Reconcile in
prc/pkg/controller/static_snapshot_controller.go, and the proof that SnapshotProtocol's steps are this code.
*/
module SnapshotController {
  import opened Wrappers
  import opened StaticCache
  import opened SnapshotState
  import opened SnapshotProtocol

  // What one pass meets: the Nodes as read and hashed, or the error of reading them; the server's answer to the
  // status poll, if it comes to that; the acknowledgement of the PUT, or its error.
  datatype Pass = Pass(read: Option<Body>, readError: string, count: nat, now: int, poll: Option<PollReply>, ack: Option<Ack>, putError: string)

  // The server still holds what was confirmed.
  predicate Unchanged(s: Shared, p: Pass)
    requires p.read.Some?
  {
    && s.ready && s.status.snapshotId == Some(HashOf(p.read.value))
    && p.poll.Some? && p.poll.value.ready && p.poll.value.id == Some(HashOf(p.read.value)) && p.poll.value.boot == s.status.bootId
  }

  predicate GoodAck(p: Pass)
    requires p.read.Some?
  {
    p.ack.Some? && p.ack.value.id == HashOf(p.read.value) && p.ack.value.boot != 0
  }

  // Ready afterwards exactly when the server still holds the snapshot or has just acknowledged it (or nothing was read).
  function AfterPass(s: Shared, p: Pass): (t: Shared)
    ensures p.read.Some? ==> (t.ready <==> Unchanged(s, p) || GoodAck(p))
    ensures p.read.None? ==> t.ready == s.ready && t.status.snapshotId == s.status.snapshotId
    ensures p.read.Some? && t.ready ==> t.status.snapshotId == Some(HashOf(p.read.value))
    ensures p.read.Some? && t.ready && !Unchanged(s, p) ==> p.ack.Some? && t.status.bootId == p.ack.value.boot != 0
    ensures p.read.Some? && !t.ready ==> t.status.snapshotId == s.status.snapshotId && t.status.bootId == s.status.bootId
  {
    if p.read.None? then Failed(s, Some(p.readError), p.now)
    else if Unchanged(s, p) then Confirmed(HashOf(p.read.value), s.status.bootId, p.count, p.now)
    else if GoodAck(p) then Confirmed(HashOf(p.read.value), p.ack.value.boot, p.count, p.now)
    else Failed(Syncing(s, p.now), Some(if p.ack.Some? then "not acknowledged" else p.putError), p.now)
  }

  method Reconcile(state: StaticSnapshotState, p: Pass)
    modifies state
    ensures state.View() == AfterPass(old(state.View()), p)
  {
    if p.read.None? {
      state.Fail(Some(p.readError), p.now);
      return;
    }
    var staticId := HashOf(p.read.value);
    var current, ready := state.Current();
    if ready && current.snapshotId == Some(staticId) {
      if p.poll.Some? && p.poll.value.ready && p.poll.value.id == Some(staticId) && p.poll.value.boot == current.bootId {
        state.Confirm(staticId, p.poll.value.boot, p.count, p.now);
        return;
      }
    }
    state.Sync(p.now);
    if p.ack.None? {
      state.Fail(Some(p.putError), p.now);
      return;
    }
    if p.ack.value.id != staticId || p.ack.value.boot == 0 {
      state.Fail(Some("not acknowledged"), p.now);
      return;
    }
    state.Confirm(staticId, p.ack.value.boot, p.count, p.now);
  }

  // ---- The pass as steps of the protocol ----

  predicate OfController(step: Step) {
    step.Reconcile? || step.ReadFails? || step.PollAnswered? || step.PollFails? || step.Acknowledged? || step.PutFails? || step.ControllerRestarts?
  }

  // These steps of the others lead from w to v.
  ghost predicate Leads(w: World, steps: seq<Step>, v: World)
    decreases |steps|
  {
    if steps == [] then v == w
    else Enabled(w, steps[0]) && !OfController(steps[0]) && Leads(Apply(w, steps[0]), steps[1..], v)
  }

  // From w to v the others may have moved, the controller has not.
  ghost predicate Meanwhile(w: World, v: World) {
    exists steps :: Leads(w, steps, v)
  }

  ghost predicate Waits(w: World, v: World) {
    v.shared == w.shared && v.phase == w.phase && v.puts == w.puts
  }

  lemma OthersWait(w: World, step: Step)
    requires Enabled(w, step) && !OfController(step)
    ensures Waits(w, Apply(w, step))
  {
  }

  lemma {:induction false} LedWaits(w: World, steps: seq<Step>, v: World)
    requires Leads(w, steps, v)
    ensures Waits(w, v)
    decreases |steps|
  {
    if steps != [] {
      OthersWait(w, steps[0]);
      LedWaits(Apply(w, steps[0]), steps[1..], v);
    }
  }

  lemma MeanwhileWaits(w: World, v: World)
    requires Meanwhile(w, v)
    ensures Waits(w, v)
  {
    var steps :| Leads(w, steps, v);
    LedWaits(w, steps, v);
  }

  function FirstStep(p: Pass): Step {
    if p.read.Some? then Step.Reconcile(p.read.value, p.now) else ReadFails(p.readError, p.now)
  }

  function PollStep(p: Pass): Step {
    if p.poll.Some? then PollAnswered(p.poll.value, p.count, p.now) else PollFails(p.now)
  }

  function PutStep(p: Pass): Step {
    if p.ack.Some? then Acknowledged(p.ack.value, p.count, p.now) else PutFails(p.putError, p.now)
  }

  // The worlds of a pass: where it starts, where the poll's outcome arrives, where the PUT's does.
  ghost predicate PollMet(w: World, p: Pass, v: World) {
    Meanwhile(w, v) && (v.phase.Polling? ==> Enabled(v, PollStep(p)))
  }

  ghost function AfterPoll(v: World, p: Pass): World
    requires v.phase.Polling? ==> Enabled(v, PollStep(p))
  {
    if v.phase.Polling? then Apply(v, PollStep(p)) else v
  }

  ghost predicate PutMet(w: World, p: Pass, v: World) {
    Meanwhile(w, v) && (v.phase.Putting? ==> Enabled(v, PutStep(p)))
  }

  ghost function AtEnd(v: World, p: Pass): World
    requires v.phase.Putting? ==> Enabled(v, PutStep(p))
  {
    if v.phase.Putting? then Apply(v, PutStep(p)) else v
  }

  // Main result: in a run, whatever the others do in between, the controller's steps leave the shared state as the
  // code does, and publish exactly when the server does not still hold the snapshot.
  lemma PassIsReconcile(start: World, p: Pass, polled: World, put: World)
    requires start.phase == Idle
    requires PollMet(Apply(start, FirstStep(p)), p, polled) && PutMet(AfterPoll(polled, p), p, put)
    ensures AtEnd(put, p).shared == AfterPass(start.shared, p) && AtEnd(put, p).phase == Idle
    ensures AtEnd(put, p).puts == start.puts + if p.read.Some? && !Unchanged(start.shared, p) then [p.read.value] else []
  {
    hide Meanwhile;
    MeanwhileWaits(Apply(start, FirstStep(p)), polled);
    MeanwhileWaits(AfterPoll(polled, p), put);
  }
}
