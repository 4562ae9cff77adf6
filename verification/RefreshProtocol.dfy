/**
The refresh lifecycle of one demand: the event worker and the refresh worker of
prc/pkg/controller/refresh_controller.go and the timer callbacks of refresh_scheduler.go, interleaved one
lock section at a time. `Apply` gives the only successor of a state under a label; a label carries what the
surroundings decide (what a read returned, whether a write failed, which timer fires). A demand's steps never
touch another demand's slot (the frame clauses of class RefreshScheduler), so the whole system is one such
machine for every key.

Of controller-runtime it is assumed that one worker at a time handles a key, that a queue holds a key at most
once, that a reconcile that returns an error is queued again, and that every event put on the channel is
forwarded to the refresh queue.
*/
module RefreshProtocol {
  import opened Wrappers
  import opened RefreshScheduler

  // NodeGroupDemandReconciler.Reconcile, by what it does next
  datatype EventWorker =
    | EvIdle
    | EvGetting                      // about to read the demand
    | EvRemoving                     // the demand was not found
    | EvDeletingGrant
    | EvUpserting(found: Identity)   // the demand was read with this identity
    | EvWritingStatus(writes: bool)
    | EvTriggering
    | EvEmitting                     // found under the lock, sending outside it

  // RefreshReconciler.Reconcile, by what it does next
  datatype RefreshWorker =
    | RwIdle
    | RwBeginning
    | RwProcessing(identity: Identity, ctx: ContextId)
    | RwFinishing(identity: Identity, ctx: ContextId, failed: bool)
    | RwChecking(identity: Identity, failed: bool)
    | RwRearming(identity: Identity)

  datatype Demand = Demand(
    slot: Slot,
    fired: map<TimerId, Identity>,   // callbacks that have started and not yet taken the lock
    emitting: nat,                   // callbacks past their check, sending outside the lock
    channel: nat,                    // events of this demand in the scheduler's channel
    eventQueued: bool, event: EventWorker,
    refreshQueued: bool, refresh: RefreshWorker,
    created: nat)                    // timers and contexts created so far

  const Initial := Demand(Slot(None, map[], {}), map[], 0, 0, false, EvIdle, false, RwIdle, 0)

  datatype Label =
    | WatchEvent
    | EventTake
    | EventReadFails
    | EventReadNotFound
    | EventReadFound(found: Identity)
    | EventRemove
    | EventDeleteGrant(failed: bool)
    | EventUpsert(phaseEmpty: bool)
    | EventWriteStatus(failed: bool)
    | EventTrigger
    | EventEmit
    | Forward
    | RefreshTake
    | RefreshBegin
    | RefreshProcessed(failed: bool)
    | RefreshFinish
    | RefreshCheck
    | RefreshRearm
    | TimerFires(timer: TimerId)
    | TimerChecks(timer: TimerId)
    | TimerEmits

  predicate Enabled(d: Demand, l: Label) {
    match l
    case WatchEvent => true
    case EventTake => d.eventQueued && d.event.EvIdle?
    case EventReadFails => d.event.EvGetting?
    case EventReadNotFound => d.event.EvGetting?
    case EventReadFound(_) => d.event.EvGetting?
    case EventRemove => d.event.EvRemoving?
    case EventDeleteGrant(_) => d.event.EvDeletingGrant?
    case EventUpsert(_) => d.event.EvUpserting?
    case EventWriteStatus(failed) => d.event.EvWritingStatus? && (failed ==> d.event.writes)
    case EventTrigger => d.event.EvTriggering?
    case EventEmit => d.event.EvEmitting?
    case Forward => d.channel > 0
    case RefreshTake => d.refreshQueued && d.refresh.RwIdle?
    case RefreshBegin => d.refresh.RwBeginning?
    case RefreshProcessed(_) => d.refresh.RwProcessing?
    case RefreshFinish => d.refresh.RwFinishing?
    case RefreshCheck => d.refresh.RwChecking?
    case RefreshRearm => d.refresh.RwRearming?
    case TimerFires(t) => t in d.slot.armed
    case TimerChecks(t) => t in d.fired
    case TimerEmits => d.emitting > 0
  }

  function Apply(d: Demand, l: Label): Demand
    requires Enabled(d, l)
  {
    match l
    case WatchEvent => d.(eventQueued := true)
    case EventTake => d.(eventQueued := false, event := EvGetting)
    case EventReadFails => d.(eventQueued := true, event := EvIdle)
    case EventReadNotFound => d.(event := EvRemoving)
    case EventReadFound(found) => d.(event := EvUpserting(found))
    case EventRemove => d.(slot := Removed(d.slot), event := EvDeletingGrant)
    case EventDeleteGrant(failed) => d.(eventQueued := d.eventQueued || failed, event := EvIdle)
    case EventUpsert(phaseEmpty) =>
      d.(slot := Upserted(d.slot, d.event.found),
         event := EvWritingStatus((d.slot.task.None? && phaseEmpty) || Changes(d.slot, d.event.found)))
    case EventWriteStatus(failed) =>
      if failed then d.(eventQueued := true, event := EvIdle) else d.(event := EvTriggering)
    case EventTrigger => d.(event := if d.slot.task.Some? then EvEmitting else EvIdle)
    case EventEmit => d.(channel := d.channel + 1, event := EvIdle)
    case Forward => d.(channel := d.channel - 1, refreshQueued := true)
    case RefreshTake => d.(refreshQueued := false, refresh := RwBeginning)
    case RefreshBegin =>
      if d.slot.task.None? then d.(refresh := RwIdle)
      else d.(slot := Begun(d.slot, d.created), refresh := RwProcessing(d.slot.task.value.identity, d.created), created := d.created + 1)
    case RefreshProcessed(failed) => d.(refresh := RwFinishing(d.refresh.identity, d.refresh.ctx, failed))
    case RefreshFinish =>
      d.(slot := Finished(d.slot, d.refresh.identity), refresh := RwChecking(d.refresh.identity, d.refresh.failed))
    case RefreshCheck =>
      if !Stores(d.slot, d.refresh.identity) then d.(refresh := RwIdle)
      else if d.refresh.failed then d.(refreshQueued := true, refresh := RwIdle)
      else d.(refresh := RwRearming(d.refresh.identity))
    case RefreshRearm =>
      d.(slot := Scheduled(d.slot, d.refresh.identity, d.created), refresh := RwIdle, created := d.created + 1)
    case TimerFires(t) => d.(slot := d.slot.(armed := d.slot.armed - {t}), fired := d.fired[t := d.slot.armed[t]])
    case TimerChecks(t) =>
      d.(slot := CalledBack(d.slot, d.fired[t]), fired := d.fired - {t},
         emitting := if Stores(d.slot, d.fired[t]) then d.emitting + 1 else d.emitting)
    case TimerEmits => d.(emitting := d.emitting - 1, channel := d.channel + 1)
  }

  // A finite run: the state it starts from and the labels of its steps, the last one outermost.
  datatype Run = Origin(start: Demand) | Then(before: Run, step: Label)

  function First(r: Run): Demand {
    match r
    case Origin(d) => d
    case Then(before, _) => First(before)
  }

  predicate Valid(r: Run)
    decreases r, 0
  {
    match r
    case Origin(_) => true
    case Then(before, l) => Valid(before) && Enabled(Last(before), l)
  }

  function Last(r: Run): Demand
    requires Valid(r)
    decreases r, 1
  {
    match r
    case Origin(d) => d
    case Then(before, l) => Apply(Last(before), l)
  }

  // No new watch event, and no read that finds the demand deleted.
  predicate Quiet(r: Run) {
    match r
    case Origin(_) => true
    case Then(before, l) => Quiet(before) && !l.WatchEvent? && !l.EventReadNotFound?
  }

  lemma Step(r: Run, l: Label) returns (s: Run)
    requires Valid(r) && Enabled(Last(r), l)
    ensures s == Then(r, l) && Valid(s) && First(s) == First(r) && Last(s) == Apply(Last(r), l)
    ensures Quiet(s) <==> Quiet(r) && !l.WatchEvent? && !l.EventReadNotFound?
  {
    s := Then(r, l);
  }

  ghost predicate Reachable(d: Demand) {
    exists r :: Valid(r) && First(r) == Initial && Last(r) == d
  }

  // ---- A tracked demand is never idle ----

  predicate HasTimer(timers: map<TimerId, Identity>, identity: Identity) {
    exists t :: t in timers && timers[t] == identity
  }

  predicate WorkingOn(w: RefreshWorker, identity: Identity) {
    match w
    case RwIdle => false
    case RwBeginning => true   // Begin takes whatever identity is stored then
    case RwProcessing(i, _) => i == identity
    case RwFinishing(i, _, _) => i == identity
    case RwChecking(i, _) => i == identity
    case RwRearming(i) => i == identity
  }

  // Something is still going to act for the stored identity.
  predicate Busy(d: Demand)
    requires d.slot.task.Some?
  {
    var identity := d.slot.task.value.identity;
    || d.eventQueued
    || !(d.event.EvIdle? || d.event.EvDeletingGrant?)
    || d.emitting > 0
    || d.channel > 0
    || d.refreshQueued
    || WorkingOn(d.refresh, identity)
    || HasTimer(d.slot.armed, identity)
    || HasTimer(d.fired, identity)
  }

  predicate NeverIdle(d: Demand) {
    && (d.slot.task.Some? ==> Busy(d))
    && (d.event.EvDeletingGrant? ==> d.slot.task.None?)
  }

  // Identifiers are handed out once: a timer is armed or has fired, never both.
  ghost predicate Fresh(d: Demand) {
    FreshTimers(d) && FreshContexts(d)
  }

  ghost predicate FreshTimers(d: Demand) {
    && d.slot.armed.Keys !! d.fired.Keys
    && (forall t :: t in d.slot.armed || t in d.fired ==> t < d.created)
    && (d.slot.task.Some? && d.slot.task.value.timer.Some? ==> d.slot.task.value.timer.value < d.created)
  }

  ghost predicate FreshContexts(d: Demand) {
    forall c :: c in d.slot.live ==> c < d.created
  }

  lemma TimersStep(d: Demand, l: Label)
    requires FreshTimers(d) && Enabled(d, l)
    ensures FreshTimers(Apply(d, l))
  {
    hide Cancel;
  }

  lemma FreshContextsStep(d: Demand, l: Label)
    requires FreshContexts(d) && Enabled(d, l)
    ensures FreshContexts(Apply(d, l))
  {
    hide Stop;
  }

  lemma FreshStep(d: Demand, l: Label)
    requires Fresh(d) && Enabled(d, l)
    ensures Fresh(Apply(d, l))
  {
    hide FreshTimers, FreshContexts, Apply, Enabled;
    TimersStep(d, l);
    FreshContextsStep(d, l);
  }

  lemma TimerMoves(timers: map<TimerId, Identity>, t: TimerId, identity: Identity)
    ensures HasTimer(timers, identity) ==> HasTimer(timers - {t}, identity) || (t in timers && timers[t] == identity)
  {
    if HasTimer(timers, identity) {
      var u :| u in timers && timers[u] == identity;
      assert u != t ==> u in timers - {t} && (timers - {t})[u] == identity;
    }
  }

  lemma TimerAdded(timers: map<TimerId, Identity>, t: TimerId, added: Identity, identity: Identity)
    requires t !in timers
    ensures HasTimer(timers[t := added], identity) <==> HasTimer(timers, identity) || added == identity
  {
    if HasTimer(timers, identity) {
      var u :| u in timers && timers[u] == identity;
      assert timers[t := added][u] == identity;
    }
    assert timers[t := added][t] == added;
  }

  lemma BusyStep(d: Demand, l: Label)
    requires NeverIdle(d) && Fresh(d) && Enabled(d, l)
    ensures NeverIdle(Apply(d, l))
  {
    if d.slot.task.Some? {
      var identity := d.slot.task.value.identity;
      match l
      case RefreshRearm =>
        TimerAdded(Stop(d.slot.armed, d.slot.task.value.timer), d.created, d.refresh.identity, identity);
      case TimerFires(t) =>
        TimerMoves(d.slot.armed, t, identity);
        TimerAdded(d.fired, t, d.slot.armed[t], identity);
      case TimerChecks(t) =>
        TimerMoves(d.fired, t, identity);
      case _ =>
    }
  }

  // ---- Uncancelled contexts are exactly those held in task.cancel ----

  function Held(d: Demand): set<ContextId> {
    if d.slot.task.Some? && d.slot.task.value.cancel.Some? then {d.slot.task.value.cancel.value} else {}
  }

  // A held cancel function belongs to the refresh worker that is running now, under the stored identity.
  ghost predicate ContextsHeld(d: Demand) {
    && d.slot.live == Held(d)
    && (Held(d) != {} ==>
          (d.refresh.RwProcessing? || d.refresh.RwFinishing?)
          && d.refresh.identity == d.slot.task.value.identity && Held(d) == {d.refresh.ctx})
  }

  lemma ContextsStep(d: Demand, l: Label)
    requires ContextsHeld(d) && Fresh(d) && Enabled(d, l)
    ensures ContextsHeld(Apply(d, l))
  {
  }

  // A context that is still live dies in exactly the steps that are meant to end it.
  lemma ContextEndsExactly(d: Demand, l: Label, c: ContextId)
    requires ContextsHeld(d) && Fresh(d) && Enabled(d, l) && c in d.slot.live
    ensures c !in Apply(d, l).slot.live <==>
              l.RefreshFinish? || l.EventRemove? || (l.EventUpsert? && Changes(d.slot, d.event.found))
  {
  }

  ghost predicate Invariant(d: Demand) {
    Fresh(d) && NeverIdle(d) && ContextsHeld(d)
  }

  lemma {:induction false} RunKeepsInvariant(r: Run)
    requires Valid(r) && Invariant(First(r))
    ensures Invariant(Last(r))
  {
    match r
    case Origin(_) =>
    case Then(before, l) =>
      RunKeepsInvariant(before);
      FreshStep(Last(before), l);
      BusyStep(Last(before), l);
      ContextsStep(Last(before), l);
  }

  lemma ReachableInvariant(d: Demand)
    requires Reachable(d)
    ensures Invariant(d)
  {
    var r :| Valid(r) && First(r) == Initial && Last(r) == d;
    RunKeepsInvariant(r);
  }

  // Main result: whatever the interleaving, a demand the scheduler tracks has something left to run for it.
  lemma TrackedDemandNeverIdle(d: Demand)
    requires Reachable(d) && d.slot.task.Some?
    ensures Busy(d)
  {
    ReachableInvariant(d);
  }

  // Main result: no context is leaked and none is cancelled early, in any interleaving.
  lemma ContextsLiveExactlyWhileHeld(d: Demand, l: Label)
    requires Reachable(d) && Enabled(d, l)
    ensures d.slot.live == Held(d)
    ensures d.slot.live != {} ==> (d.refresh.RwProcessing? || d.refresh.RwFinishing?) && Stores(d.slot, d.refresh.identity)
    ensures forall c :: c in d.slot.live ==>
              (c !in Apply(d, l).slot.live <==>
                 l.RefreshFinish? || l.EventRemove? || (l.EventUpsert? && Changes(d.slot, d.event.found)))
  {
    ReachableInvariant(d);
    forall c | c in d.slot.live
      ensures c !in Apply(d, l).slot.live <==>
                l.RefreshFinish? || l.EventRemove? || (l.EventUpsert? && Changes(d.slot, d.event.found))
    {
      ContextEndsExactly(d, l, c);
    }
  }

  // ---- Stale identities never act ----

  // The identity is not stored and no read that could store it again is under way.
  predicate Gone(d: Demand, identity: Identity) {
    !Stores(d.slot, identity) && d.event != EvUpserting(identity)
  }

  // What the code does for an identity: emit from a timer callback, re-arm after a refresh, start a refresh.
  predicate ActsFor(d: Demand, l: Label, identity: Identity)
    requires Enabled(d, l)
  {
    match l
    case TimerChecks(t) => d.fired[t] == identity && Apply(d, l).emitting > d.emitting
    case RefreshRearm => d.refresh.identity == identity && Apply(d, l).slot != d.slot
    case RefreshBegin => Apply(d, l).refresh.RwProcessing? && Apply(d, l).refresh.identity == identity
    case RefreshCheck => d.refresh.identity == identity && !Apply(d, l).refresh.RwIdle?
    case _ => false
  }

  predicate NeverRead(r: Run, identity: Identity) {
    match r
    case Origin(_) => true
    case Then(before, l) => NeverRead(before, identity) && l != EventReadFound(identity)
  }

  lemma GoneStep(d: Demand, l: Label, identity: Identity)
    requires Gone(d, identity) && Enabled(d, l)
    ensures !ActsFor(d, l, identity)
    ensures l != EventReadFound(identity) ==> Gone(Apply(d, l), identity)
  {
  }

  // Main result: once an identity has been replaced or removed, nothing acts for it at any later point of a
  // run in which the API server does not hand it out again, however many of its timers are still alive.
  lemma {:induction false} StaleIdentityNeverActs(r: Run, identity: Identity, l: Label)
    requires Valid(r) && Gone(First(r), identity) && NeverRead(r, identity) && Enabled(Last(r), l)
    ensures Gone(Last(r), identity)
    ensures !ActsFor(Last(r), l, identity)
  {
    match r {
      case Origin(_) =>
      case Then(before, last) =>
        StaleIdentityNeverActs(before, identity, last);
        GoneStep(Last(before), last, identity);
    }
    GoneStep(Last(r), l, identity);
  }

  // ---- Live timers and task.timer ----

  // Every timer that can still fire is the one in task.timer, so there is at most one.
  ghost predicate Tidy(d: Demand) {
    forall t :: t in d.slot.armed ==> d.slot.task.Some? && d.slot.task.value.timer == Some(t)
  }

  // The callback's unconditional `current.timer = nil` forgets a newer timer.
  predicate Forgets(d: Demand, l: Label)
    requires Enabled(d, l)
  {
    && l.TimerChecks?
    && Stores(d.slot, d.fired[l.timer])
    && d.slot.task.value.timer.Some?
    && d.slot.task.value.timer.value in d.slot.armed
  }

  // "At most one live timer, and task.timer refers to it" survives a step exactly when that step is not a
  // callback that passes its check while a newer timer is armed.
  lemma TidyKeptExactly(d: Demand, l: Label)
    requires Tidy(d) && Fresh(d) && Enabled(d, l)
    ensures Tidy(Apply(d, l)) <==> !Forgets(d, l)
  {
    if Forgets(d, l) {
      assert d.slot.task.value.timer.value in Apply(d, l).slot.armed;
    }
  }

  // The event worker's reconcile of a demand that exists, up to the event in the channel.
  lemma EventReconcile(r: Run, identity: Identity) returns (s: Run)
    requires Valid(r) && Last(r).event.EvIdle?
    ensures Valid(s) && First(s) == First(r)
    ensures Last(s) == Last(r).(slot := Upserted(Last(r).slot, identity), channel := Last(r).channel + 1, eventQueued := false)
  {
    hide Valid, First, Last, Quiet;
    s := Step(r, WatchEvent);
    s := Step(s, EventTake);
    s := Step(s, EventReadFound(identity));
    s := Step(s, EventUpsert(false));
    s := Step(s, EventWriteStatus(false));
    s := Step(s, EventTrigger);
    s := Step(s, EventEmit);
  }

  // The refresh worker's successful reconcile of an event in the channel, up to the newly armed timer.
  lemma RefreshReconcile(r: Run) returns (s: Run)
    requires Valid(r) && Last(r).refresh.RwIdle? && Last(r).channel > 0 && Last(r).slot.task.Some?
    ensures Valid(s) && First(s) == First(r)
    ensures var d := Last(r); var identity := d.slot.task.value.identity;
            Last(s) == d.(slot := Scheduled(Finished(Begun(d.slot, d.created), identity), identity, d.created + 1),
                          channel := d.channel - 1, refreshQueued := false, created := d.created + 2)
  {
    hide Valid, First, Last, Quiet;
    s := RefreshStart(r);
    s := Step(s, RefreshProcessed(false));
    s := Step(s, RefreshFinish);
    s := Step(s, RefreshCheck);
    s := Step(s, RefreshRearm);
  }

  lemma RefreshStart(r: Run) returns (s: Run)
    requires Valid(r) && Last(r).refresh.RwIdle? && Last(r).channel > 0 && Last(r).slot.task.Some?
    ensures Valid(s) && First(s) == First(r)
    ensures var d := Last(r);
            Last(s) == d.(slot := Begun(d.slot, d.created), refresh := RwProcessing(d.slot.task.value.identity, d.created),
                          channel := d.channel - 1, refreshQueued := false, created := d.created + 1)
  {
    hide Valid, First, Last, Quiet;
    s := Step(r, Forward);
    s := Step(s, RefreshTake);
    s := Step(s, RefreshBegin);
  }

  // All workers idle, and these timers armed; task.timer refers to t.
  function Resting(identity: Identity, armed: map<TimerId, Identity>, t: TimerId, created: nat): Demand {
    Initial.(slot := Slot(Some(Task(identity, Some(t), None)), armed, {}), created := created)
  }

  lemma Start() returns (r: Run)
    ensures Valid(r) && First(r) == Initial && Last(r) == Initial
  {
    r := Origin(Initial);
  }

  lemma FirstTimer(identity: Identity) returns (r: Run)
    ensures Valid(r) && First(r) == Initial && Last(r) == Resting(identity, map[1 := identity], 1, 2)
  {
    hide Valid, First, Last, Quiet;
    r := Start();
    r := EventReconcile(r, identity);
    r := RefreshReconcile(r);
  }

  // A timer fires but loses the lock to a refresh triggered by an event, which arms a second timer; the callback
  // then forgets that one, and its own refresh arms a third.
  lemma OvertakenTimer(r: Run, identity: Identity, armed: map<TimerId, Identity>, t: TimerId, k: nat) returns (s: Run)
    requires Valid(r) && Last(r) == Resting(identity, armed, t, k) && t in armed && armed[t] == identity
    ensures Valid(s) && First(s) == First(r)
    ensures Last(s) == Resting(identity, (armed - {t})[k + 1 := identity][k + 3 := identity], k + 3, k + 4)
  {
    hide Valid, First, Last, Quiet;
    s := OvertakenOnce(r, identity, armed, t, k);
    s := Step(s, TimerChecks(t));
    s := Step(s, TimerEmits);
    assert Last(s) == Initial.(slot := Slot(Some(Task(identity, None, None)), (armed - {t})[k + 1 := identity], {}), channel := 1, created := k + 2);
    s := RefreshReconcile(s);
  }

  lemma OvertakenOnce(r: Run, identity: Identity, armed: map<TimerId, Identity>, t: TimerId, k: nat) returns (s: Run)
    requires Valid(r) && Last(r) == Resting(identity, armed, t, k) && t in armed && armed[t] == identity
    ensures Valid(s) && First(s) == First(r)
    ensures Last(s) == Resting(identity, (armed - {t})[k + 1 := identity], k + 1, k + 2).(fired := map[t := identity])
  {
    hide Valid, First, Last, Quiet;
    s := Step(r, TimerFires(t));
    s := EventReconcile(s, identity);
    s := RefreshReconcile(s);
    assert armed - {t} - {t} == armed - {t};
  }

  lemma OneMoreTimer(armed: map<TimerId, Identity>, t: TimerId, identity: Identity, k: nat)
    requires t in armed && forall u :: u in armed ==> u < k && armed[u] == identity
    ensures var more := (armed - {t})[k + 1 := identity][k + 3 := identity];
            |more| == |armed| + 1 && forall u :: u in more ==> u < k + 4 && more[u] == identity
  {
    var more := (armed - {t})[k + 1 := identity][k + 3 := identity];
    assert more.Keys == armed.Keys - {t} + {k + 1} + {k + 3};
    assert |more.Keys| == |armed.Keys| + 1;
  }

  lemma {:induction false} RunWithTimers(identity: Identity, n: nat) returns (r: Run, armed: map<TimerId, Identity>, t: TimerId, k: nat)
    requires n > 0
    ensures Valid(r) && First(r) == Initial && Last(r) == Resting(identity, armed, t, k)
    ensures |armed| == n && t in armed && forall u :: u in armed ==> u < k && armed[u] == identity
  {
    if n == 1 {
      r := FirstTimer(identity);
      armed, t, k := map[1 := identity], 1, 2;
    } else {
      r, armed, t, k := RunWithTimers(identity, n - 1);
      r := OvertakenTimer(r, identity, armed, t, k);
      OneMoreTimer(armed, t, identity, k);
      armed, t, k := (armed - {t})[k + 1 := identity][k + 3 := identity], k + 3, k + 4;
    }
  }

  // Main result: the forgotten timers add up without bound. For every n a state is reachable in which n timers are
  // live for the stored identity, each of which will emit when it fires.
  lemma ManyLiveTimers(identity: Identity, n: nat) returns (d: Demand)
    requires n > 0
    ensures Reachable(d) && Stores(d.slot, identity)
    ensures |d.slot.armed| == n && forall t :: t in d.slot.armed ==> d.slot.armed[t] == identity
  {
    var r, armed, t, k := RunWithTimers(identity, n);
    d := Last(r);
  }

  // ---- From every tracked state the stored demand can be refreshed ----

  predicate Refreshing(d: Demand) {
    d.refresh.RwProcessing? && Stores(d.slot, d.refresh.identity)
  }

  ghost predicate QuietRun(d: Demand, r: Run) {
    Valid(r) && First(r) == d && Quiet(r)
  }

  // An event in the channel or the queue gets a refresh, once the refresh worker is through with its own.
  lemma QueuedEventRefreshes(d: Demand, r: Run) returns (s: Run)
    requires QuietRun(d, r) && Last(r).slot.task.Some? && (Last(r).channel > 0 || Last(r).refreshQueued)
    ensures QuietRun(d, s) && Refreshing(Last(s))
    decreases !Last(r).refreshQueued, !Last(r).refresh.RwBeginning?, !Last(r).refresh.RwIdle?, !Last(r).refresh.RwRearming?,
              !Last(r).refresh.RwChecking?, !Last(r).refresh.RwFinishing?
  {
    hide Valid, First, Last, Quiet;
    if Last(r).refresh.RwBeginning? {
      s := Step(r, RefreshBegin);
    } else if !Last(r).refreshQueued {
      s := Step(r, Forward);
      s := QueuedEventRefreshes(d, s);
    } else {
      match Last(r).refresh
      case RwIdle => s := Step(r, RefreshTake); s := Step(s, RefreshBegin);
      case RwProcessing(_, _) => s := Step(r, RefreshProcessed(false)); s := QueuedEventRefreshes(d, s);
      case RwFinishing(_, _, _) => s := Step(r, RefreshFinish); s := QueuedEventRefreshes(d, s);
      case RwChecking(_, _) => s := Step(r, RefreshCheck); s := QueuedEventRefreshes(d, s);
      case RwRearming(_) => s := Step(r, RefreshRearm); s := QueuedEventRefreshes(d, s);
    }
  }

  lemma FiredTimerRefreshes(d: Demand, r: Run, t: TimerId) returns (s: Run)
    requires QuietRun(d, r) && t in Last(r).fired && Stores(Last(r).slot, Last(r).fired[t])
    ensures QuietRun(d, s) && Refreshing(Last(s))
  {
    hide Valid, First, Last, Quiet;
    s := Step(r, TimerChecks(t));
    s := Step(s, TimerEmits);
    s := QueuedEventRefreshes(d, s);
  }

  lemma WorkingRefreshes(d: Demand, r: Run) returns (s: Run)
    requires QuietRun(d, r) && Last(r).slot.task.Some? && WorkingOn(Last(r).refresh, Last(r).slot.task.value.identity)
    ensures QuietRun(d, s) && Refreshing(Last(s))
    decreases !Last(r).refresh.RwRearming?, !Last(r).refresh.RwChecking?
  {
    hide Valid, First, Last, Quiet;
    match Last(r).refresh
    case RwBeginning => s := Step(r, RefreshBegin);
    case RwProcessing(_, _) => s := r;
    case RwFinishing(_, _, _) => s := Step(r, RefreshFinish); s := WorkingRefreshes(d, s);
    case RwChecking(_, failed) =>
      s := Step(r, RefreshCheck);
      if failed { s := QueuedEventRefreshes(d, s); } else { s := WorkingRefreshes(d, s); }
    case RwRearming(_) =>
      var t := Last(r).created;
      s := Step(r, RefreshRearm);
      s := Step(s, TimerFires(t));
      s := FiredTimerRefreshes(d, s, t);
  }

  lemma EventWorkerRefreshes(d: Demand, r: Run) returns (s: Run)
    requires QuietRun(d, r)
    requires Last(r).slot.task.Some?
    requires Last(r).eventQueued || !Last(r).event.EvIdle?
    requires !Last(r).event.EvRemoving? && !Last(r).event.EvDeletingGrant?
    ensures QuietRun(d, s) && Refreshing(Last(s))
    decreases !Last(r).event.EvEmitting?, !Last(r).event.EvTriggering?, !Last(r).event.EvWritingStatus?,
              !Last(r).event.EvUpserting?, !Last(r).event.EvGetting?
  {
    hide Valid, First, Last, Quiet;
    match Last(r).event
    case EvIdle => s := Step(r, EventTake); s := EventWorkerRefreshes(d, s);
    case EvGetting => s := Step(r, EventReadFound(Last(r).slot.task.value.identity)); s := EventWorkerRefreshes(d, s);
    case EvUpserting(_) => s := Step(r, EventUpsert(false)); s := EventWorkerRefreshes(d, s);
    case EvWritingStatus(_) => s := Step(r, EventWriteStatus(false)); s := EventWorkerRefreshes(d, s);
    case EvTriggering => s := Step(r, EventTrigger); s := EventWorkerRefreshes(d, s);
    case EvEmitting => s := Step(r, EventEmit); s := QueuedEventRefreshes(d, s);
  }

  // Main result: from every reachable state with a tracked demand, its own actors can bring a refresh worker
  // to run under the identity stored then, with no help from a new watch event. The one exception is an event
  // worker that has already found the demand deleted: it forgets the demand.
  lemma TrackedDemandCanRefresh(d: Demand) returns (s: Run)
    requires Reachable(d) && d.slot.task.Some?
    ensures QuietRun(d, s)
    ensures if d.event.EvRemoving? then Last(s).slot.task.None? else Refreshing(Last(s))
  {
    ReachableInvariant(d);
    var r := Origin(d);
    var identity := d.slot.task.value.identity;
    if d.event.EvRemoving? {
      s := Step(r, EventRemove);
    } else if d.eventQueued || !d.event.EvIdle? {
      s := EventWorkerRefreshes(d, r);
    } else if d.channel > 0 || d.refreshQueued {
      s := QueuedEventRefreshes(d, r);
    } else if d.emitting > 0 {
      r := Step(r, TimerEmits);
      s := QueuedEventRefreshes(d, r);
    } else if WorkingOn(d.refresh, identity) {
      s := WorkingRefreshes(d, r);
    } else if HasTimer(d.fired, identity) {
      var t :| t in d.fired && d.fired[t] == identity;
      s := FiredTimerRefreshes(d, r, t);
    } else {
      var t :| t in d.slot.armed && d.slot.armed[t] == identity;
      r := Step(r, TimerFires(t));
      s := FiredTimerRefreshes(d, r, t);
    }
  }

  // ---- What the queues and the channel still owe ----

  // The event queue holds the key exactly while, since it was last taken, a watch event has come or its reconcile
  // has failed.
  predicate EventOwed(r: Run) {
    match r
    case Origin(_) => false
    case Then(before, l) => OwesAgain(l) || (!l.EventTake? && EventOwed(before))
  }

  predicate OwesAgain(l: Label) {
    l.WatchEvent? || l.EventReadFails? || l == EventDeleteGrant(true) || l == EventWriteStatus(true)
  }

  // The event worker has taken the key and not yet returned: it returns when a call fails, when the grant is deleted,
  // when the trigger finds no task, and when the event is in the channel.
  predicate EventInHand(r: Run)
    requires Valid(r)
  {
    match r
    case Origin(_) => false
    case Then(before, l) => l.EventTake? || (EventInHand(before) && !Returns(Last(before), l))
  }

  predicate Returns(d: Demand, l: Label) {
    l.EventReadFails? || l.EventDeleteGrant? || l == EventWriteStatus(true) || l.EventEmit? || (l.EventTrigger? && d.slot.task.None?)
  }

  lemma EventQueueStep(d: Demand, l: Label)
    requires Enabled(d, l)
    ensures Apply(d, l).eventQueued <==> OwesAgain(l) || (!l.EventTake? && d.eventQueued)
    ensures !Apply(d, l).event.EvIdle? <==> l.EventTake? || (!d.event.EvIdle? && !Returns(d, l))
  {
  }

  // Main result: no watch event and no failed reconcile is ever dropped by the event queue, and none is invented.
  lemma {:induction false} EventQueueExactly(r: Run)
    requires Valid(r) && First(r) == Initial
    ensures Last(r).eventQueued <==> EventOwed(r)
    ensures !Last(r).event.EvIdle? <==> EventInHand(r)
  {
    match r
    case Origin(_) =>
    case Then(before, l) =>
      hide Apply, Enabled, OwesAgain, Returns;
      EventQueueExactly(before);
      EventQueueStep(Last(before), l);
  }

  // The identity of the last calculation that began, and how the last one ended.
  function LastBegun(r: Run): Option<Identity>
    requires Valid(r)
  {
    match r
    case Origin(_) => None
    case Then(before, l) =>
      if l.RefreshBegin? && Last(before).slot.task.Some? then Some(Last(before).slot.task.value.identity) else LastBegun(before)
  }

  predicate LastFailed(r: Run) {
    match r
    case Origin(_) => false
    case Then(before, l) => if l.RefreshProcessed? then l.failed else LastFailed(before)
  }

  // The refresh queue holds the key exactly while, since it was last taken, an event was forwarded or a calculation
  // was found to have failed under the identity still stored.
  predicate RefreshOwed(r: Run)
    requires Valid(r)
  {
    match r
    case Origin(_) => false
    case Then(before, l) =>
      || l.Forward?
      || (l.RefreshCheck? && LastFailed(before) && LastBegun(before).Some? && Stores(Last(before).slot, LastBegun(before).value))
      || (!l.RefreshTake? && RefreshOwed(before))
  }

  // What the worker carries: the identity and the outcome of its calculation.
  predicate Carries(w: RefreshWorker, begun: Option<Identity>, failed: bool) {
    match w
    case RwIdle => true
    case RwBeginning => true
    case RwProcessing(i, _) => begun == Some(i)
    case RwFinishing(i, _, f) => begun == Some(i) && f == failed
    case RwChecking(i, f) => begun == Some(i) && f == failed
    case RwRearming(i) => begun == Some(i)
  }

  lemma CarriesStep(d: Demand, l: Label, begun: Option<Identity>, failed: bool)
    requires Enabled(d, l) && Carries(d.refresh, begun, failed)
    ensures Carries(Apply(d, l).refresh,
                    if l.RefreshBegin? && d.slot.task.Some? then Some(d.slot.task.value.identity) else begun,
                    if l.RefreshProcessed? then l.failed else failed)
    ensures Apply(d, l).refreshQueued <==>
              || l.Forward?
              || (l.RefreshCheck? && failed && begun.Some? && Stores(d.slot, begun.value))
              || (!l.RefreshTake? && d.refreshQueued)
  {
  }

  // Main result: the same for the refresh queue.
  lemma {:induction false} RefreshQueueExactly(r: Run)
    requires Valid(r) && First(r) == Initial
    ensures Carries(Last(r).refresh, LastBegun(r), LastFailed(r))
    ensures Last(r).refreshQueued <==> RefreshOwed(r)
  {
    match r
    case Origin(_) =>
    case Then(before, l) =>
      hide Apply, Enabled, Carries, Stores;
      RefreshQueueExactly(before);
      CarriesStep(Last(before), l, LastBegun(before), LastFailed(before));
  }

  // A worker takes the key only when it is owed, and only once it is through with the one before.
  lemma TakesInTurn(r: Run)
    requires Valid(r) && First(r) == Initial
    ensures Enabled(Last(r), EventTake) <==> EventOwed(r) && !EventInHand(r)
    ensures Enabled(Last(r), RefreshTake) <==> RefreshOwed(r) && Last(r).refresh == RwIdle
  {
    EventQueueExactly(r);
    RefreshQueueExactly(r);
  }

  // Events put on the channel, by the event worker and by callbacks.
  function Sent(r: Run): nat {
    match r
    case Origin(_) => 0
    case Then(before, l) => Sent(before) + if l.EventEmit? || l.TimerEmits? then 1 else 0
  }

  function Forwarded(r: Run): nat {
    match r
    case Origin(_) => 0
    case Then(before, l) => Forwarded(before) + if l.Forward? then 1 else 0
  }

  // Callbacks that found their own identity stored, and those of them that have sent their event.
  function Passed(r: Run): nat
    requires Valid(r)
  {
    match r
    case Origin(_) => 0
    case Then(before, l) =>
      Passed(before) + if PassesCheck(Last(before), l) then 1 else 0
  }

  function SentByTimers(r: Run): nat {
    match r
    case Origin(_) => 0
    case Then(before, l) => SentByTimers(before) + if l.TimerEmits? then 1 else 0
  }

  // Main result: every event sent is forwarded once, and every callback that passes its check sends one.
  lemma {:induction false} EventsConserved(r: Run)
    requires Valid(r) && First(r) == Initial
    ensures Sent(r) == Forwarded(r) + Last(r).channel
    ensures Passed(r) == SentByTimers(r) + Last(r).emitting
  {
    match r
    case Origin(_) =>
    case Then(before, l) =>
      hide Apply, Enabled, Stores;
      EventsConserved(before);
      EventsStep(Last(before), l);
  }

  lemma EventsStep(d: Demand, l: Label)
    requires Enabled(d, l)
    ensures Apply(d, l).channel == d.channel + (if l.EventEmit? || l.TimerEmits? then 1 else 0) - (if l.Forward? then 1 else 0)
    ensures Apply(d, l).emitting == d.emitting + (if PassesCheck(d, l) then 1 else 0) - (if l.TimerEmits? then 1 else 0)
  {
  }

  // A callback finds its own identity stored.
  predicate PassesCheck(d: Demand, l: Label)
    requires Enabled(d, l)
  {
    l.TimerChecks? && Stores(d.slot, d.fired[l.timer])
  }

  // ---- What is stored, from the labels alone ----

  // The identity the demand was last read with.
  function LastFound(r: Run): Option<Identity> {
    match r
    case Origin(_) => None
    case Then(before, l) => if l.EventReadFound? then Some(l.found) else LastFound(before)
  }

  // The identity of the last upsert, unless the demand was removed since.
  function Recorded(r: Run): Option<Identity> {
    match r
    case Origin(_) => None
    case Then(before, l) => if l.EventUpsert? then LastFound(before) else if l.EventRemove? then None else Recorded(before)
  }

  function IdentityIn(s: Slot): Option<Identity> {
    if s.task.Some? then Some(s.task.value.identity) else None
  }

  lemma IdentityStep(d: Demand, l: Label)
    requires Enabled(d, l)
    ensures IdentityIn(Apply(d, l).slot) ==
            if l.EventUpsert? then Some(d.event.found) else if l.EventRemove? then None else IdentityIn(d.slot)
    ensures Apply(d, l).event.EvUpserting? ==> Some(Apply(d, l).event.found) == if l.EventReadFound? then Some(l.found)
                                                                               else if d.event.EvUpserting? then Some(d.event.found) else None
  {
    hide Stop, Cancel;
  }

  lemma {:induction false} FoundIsLast(r: Run)
    requires Valid(r) && First(r) == Initial && Last(r).event.EvUpserting?
    ensures LastFound(r) == Some(Last(r).event.found)
  {
    hide Apply, Enabled;
    assert Valid(r.before) && Enabled(Last(r.before), r.step) && Last(r) == Apply(Last(r.before), r.step);
    IdentityStep(Last(r.before), r.step);
    if !r.step.EventReadFound? { FoundIsLast(r.before); }
  }

  lemma UpsertsWhatWasFound(d: Demand, l: Label)
    requires Enabled(d, l)
    ensures l.EventUpsert? ==> d.event.EvUpserting?
  {
  }

  // Main result: in every run the scheduler stores exactly the identity that was last read and upserted.
  lemma {:induction false} StoredIsLastFound(r: Run)
    requires Valid(r) && First(r) == Initial
    ensures IdentityIn(Last(r).slot) == Recorded(r)
  {
    hide Apply, Enabled;
    match r
    case Origin(_) =>
    case Then(before, l) =>
      StoredIsLastFound(before);
      IdentityStep(Last(before), l);
      UpsertsWhatWasFound(Last(before), l);
      if l.EventUpsert? { FoundIsLast(before); }
  }

  // The status is written, and can fail to be, exactly for a demand that is new and has no phase or whose identity
  // is not the one stored.
  lemma StatusWrittenExactly(r: Run, phaseEmpty: bool)
    requires Valid(r) && First(r) == Initial && Enabled(Last(r), EventUpsert(phaseEmpty))
    ensures var d := Apply(Last(r), EventUpsert(phaseEmpty));
            && Enabled(d, EventWriteStatus(false))
            && (Enabled(d, EventWriteStatus(true)) <==> if Recorded(r) == None then phaseEmpty else Recorded(r) != LastFound(r))
  {
    StoredIsLastFound(r);
    FoundIsLast(r);
  }

  // ---- The grant of a deleted demand is deleted ----

  // The demand was read as not found, and since then neither was its grant deleted nor the demand found again.
  predicate DeletionDue(r: Run) {
    match r
    case Origin(_) => false
    case Then(before, l) =>
      l.EventReadNotFound? || (DeletionDue(before) && l != EventDeleteGrant(false) && !l.EventReadFound?)
  }

  // Between finding the demand deleted and deleting its grant, or waiting to do so again.
  predicate Deleting(d: Demand) {
    && (d.event.EvGetting? || d.event.EvRemoving? || d.event.EvDeletingGrant? || (d.event.EvIdle? && d.eventQueued))
    && (d.event.EvDeletingGrant? ==> d.slot.task.None?)
  }

  lemma DeletingStep(d: Demand, l: Label)
    requires NeverIdle(d) && Enabled(d, l) && l != EventDeleteGrant(false) && !l.EventReadFound?
    requires l.EventReadNotFound? || Deleting(d)
    ensures Deleting(Apply(d, l))
  {
    hide Busy, Stop, Cancel;
  }

  lemma {:induction false} DeletionStage(r: Run)
    requires Valid(r) && First(r) == Initial && DeletionDue(r)
    ensures Deleting(Last(r))
  {
    hide Invariant, Apply, Enabled, Deleting;
    assert Valid(r.before) && Enabled(Last(r.before), r.step) && Last(r) == Apply(Last(r.before), r.step);
    RunKeepsInvariant(r.before);
    if !r.step.EventReadNotFound? { DeletionStage(r.before); }
    InvariantNeverIdle(Last(r.before));
    DeletingStep(Last(r.before), r.step);
  }

  lemma InvariantNeverIdle(d: Demand)
    requires Invariant(d)
    ensures NeverIdle(d)
  {
  }

  // Main result: while a deletion is due the event worker is at it or the key is queued.
  lemma DeletionNotDropped(r: Run)
    requires Valid(r) && First(r) == Initial && DeletionDue(r)
    ensures !Last(r).event.EvIdle? || Last(r).eventQueued
  {
    DeletionStage(r);
  }

  // s is r followed by steps of the demand's own actors, none of which finds the demand.
  predicate OwnSteps(r: Run, s: Run) {
    s == r || (s.Then? && !s.step.WatchEvent? && !s.step.EventReadFound? && OwnSteps(r, s.before))
  }

  lemma OwnRun(r: Run)
    ensures OwnSteps(r, r)
  {
  }

  lemma OwnStep(r: Run, s: Run, l: Label) returns (t: Run)
    requires Valid(s) && Enabled(Last(s), l) && OwnSteps(r, s) && !l.WatchEvent? && !l.EventReadFound?
    ensures t == Then(s, l) && Valid(t) && First(t) == First(s) && Last(t) == Apply(Last(s), l) && OwnSteps(r, t)
  {
    t := Then(s, l);
  }

  // Main result: whenever a deletion is due, the demand's own steps can delete the grant, with no help from a new
  // watch event; the demand is then forgotten.
  lemma DeletionCanFinish(r: Run) returns (s: Run)
    requires Valid(r) && First(r) == Initial && DeletionDue(r)
    ensures Valid(s) && First(s) == Initial && OwnSteps(r, s) && s.Then? && s.step == EventDeleteGrant(false)
    ensures Last(s).event.EvIdle? && Last(s).slot.task.None?
  {
    DeletionStage(r);
    s := r;
    hide Valid, First, Last, OwnSteps;
    OwnRun(r);
    if Last(s).event.EvIdle? { s := OwnStep(r, s, EventTake); }
    if Last(s).event.EvGetting? { s := OwnStep(r, s, EventReadNotFound); }
    if Last(s).event.EvRemoving? { s := OwnStep(r, s, EventRemove); }
    s := OwnStep(r, s, EventDeleteGrant(false));
  }

  // ---- What the surroundings decide ----

  // Watch events come, timers fire, and reads, writes and calculations fail or not at any moment; the model rules none
  // of it out.
  lemma AnythingCanHappen(d: Demand, failed: bool, phaseEmpty: bool, found: Identity)
    ensures Enabled(d, WatchEvent)
    ensures d.event.EvGetting? ==> Enabled(d, EventReadFails) && Enabled(d, EventReadNotFound) && Enabled(d, EventReadFound(found))
    ensures d.event.EvDeletingGrant? ==> Enabled(d, EventDeleteGrant(failed))
    ensures d.event.EvUpserting? ==> Enabled(d, EventUpsert(phaseEmpty))
    ensures d.refresh.RwProcessing? ==> Enabled(d, RefreshProcessed(failed))
    ensures forall t :: t in d.slot.armed ==> Enabled(d, TimerFires(t))
    ensures forall t :: t in d.fired ==> Enabled(d, TimerChecks(t))
    ensures d.emitting > 0 ==> Enabled(d, TimerEmits)
    ensures d.channel > 0 ==> Enabled(d, Forward)
  {
  }

  // ---- All demands together ----

  type System = map<Key, Demand>

  function DemandOf(s: System, key: Key): Demand {
    if key in s then s[key] else Initial
  }

  datatype SystemRun = Started | Stepped(before: SystemRun, key: Key, step: Label)

  predicate SystemValid(r: SystemRun)
    decreases r, 0
  {
    match r
    case Started => true
    case Stepped(before, key, l) => SystemValid(before) && Enabled(DemandOf(SystemAfter(before), key), l)
  }

  function SystemAfter(r: SystemRun): System
    requires SystemValid(r)
    decreases r, 1
  {
    match r
    case Started => map[]
    case Stepped(before, key, l) => SystemAfter(before)[key := Apply(DemandOf(SystemAfter(before), key), l)]
  }

  // The steps of one demand among those of all.
  function Projection(r: SystemRun, key: Key): Run {
    match r
    case Started => Origin(Initial)
    case Stepped(before, k, l) => if k == key then Then(Projection(before, key), l) else Projection(before, key)
  }

  // What holds of every run of one demand holds of each demand in every interleaving of all.
  lemma {:induction false} EachDemandRuns(r: SystemRun, key: Key)
    requires SystemValid(r)
    ensures Valid(Projection(r, key)) && First(Projection(r, key)) == Initial
    ensures Last(Projection(r, key)) == DemandOf(SystemAfter(r), key)
  {
    match r
    case Started =>
    case Stepped(before, k, l) => EachDemandRuns(before, key);
  }

  // Main result, for every interleaving of the steps of every demand: a tracked demand is not idle, and neither is one
  // whose deletion is due.
  lemma SystemNeverIdle(r: SystemRun, key: Key)
    requires SystemValid(r)
    ensures Invariant(DemandOf(SystemAfter(r), key))
    ensures DemandOf(SystemAfter(r), key).slot.task.Some? ==> Busy(DemandOf(SystemAfter(r), key))
    ensures DeletionDue(Projection(r, key)) ==>
              !DemandOf(SystemAfter(r), key).event.EvIdle? || DemandOf(SystemAfter(r), key).eventQueued
  {
    EachDemandRuns(r, key);
    RunKeepsInvariant(Projection(r, key));
    if DeletionDue(Projection(r, key)) { DeletionNotDropped(Projection(r, key)); }
  }
}
