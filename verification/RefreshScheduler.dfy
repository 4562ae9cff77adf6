/**
The per-demand timers and cancel functions of prc/pkg/controller/refresh_scheduler.go.

A `Slot` is everything the scheduler owns for one demand: the stored task, the timers that have been
started and have neither fired nor been stopped, and the contexts that have been handed out and not yet
cancelled. The functions on slots say what one lock section does; the class performs the same section
step by step on the shared map and never touches another demand's slot.
*/
module RefreshScheduler {
  import opened Wrappers

  type Key = string
  type TimerId = nat
  type ContextId = nat

  datatype Identity = Identity(uid: string, generation: int)

  // refreshTask
  datatype Task = Task(identity: Identity, timer: Option<TimerId>, cancel: Option<ContextId>)

  datatype Slot = Slot(task: Option<Task>, armed: map<TimerId, Identity>, live: set<ContextId>)

  function Stop(armed: map<TimerId, Identity>, timer: Option<TimerId>): map<TimerId, Identity> {
    if timer.Some? then armed - {timer.value} else armed
  }

  function Cancel(live: set<ContextId>, cancel: Option<ContextId>): set<ContextId> {
    if cancel.Some? then live - {cancel.value} else live
  }

  predicate Stores(s: Slot, identity: Identity) {
    s.task.Some? && s.task.value.identity == identity
  }

  predicate Changes(s: Slot, identity: Identity) {
    s.task.Some? && s.task.value.identity != identity
  }

  function Upserted(s: Slot, identity: Identity): Slot {
    match s.task
    case None => s.(task := Some(Task(identity, None, None)))
    case Some(task) =>
      if task.identity == identity then s
      else Slot(Some(Task(identity, None, None)), Stop(s.armed, task.timer), Cancel(s.live, task.cancel))
  }

  function Begun(s: Slot, ctx: ContextId): Slot {
    match s.task
    case None => s
    case Some(task) => s.(task := Some(task.(cancel := Some(ctx))), live := s.live + {ctx})
  }

  function Finished(s: Slot, identity: Identity): Slot {
    if Stores(s, identity)
    then s.(task := Some(s.task.value.(cancel := None)), live := Cancel(s.live, s.task.value.cancel))
    else s
  }

  function Scheduled(s: Slot, identity: Identity, timer: TimerId): Slot {
    if Stores(s, identity)
    then s.(task := Some(s.task.value.(timer := Some(timer))),
            armed := Stop(s.armed, s.task.value.timer)[timer := identity])
    else s
  }

  // The lock section of the timer callback; the event is emitted after it, exactly when the identity is stored.
  function CalledBack(s: Slot, identity: Identity): Slot {
    if Stores(s, identity) then s.(task := Some(s.task.value.(timer := None))) else s
  }

  function Removed(s: Slot): Slot {
    match s.task
    case None => s
    case Some(task) => Slot(None, Stop(s.armed, task.timer), Cancel(s.live, task.cancel))
  }

  datatype Alarm = Alarm(key: Key, identity: Identity)

  ghost function ArmedFor(timers: map<TimerId, Alarm>, key: Key): map<TimerId, Identity> {
    map t | t in timers && timers[t].key == key :: timers[t].identity
  }

  ghost function LiveFor(contexts: map<ContextId, Key>, key: Key): set<ContextId> {
    set c | c in contexts && contexts[c] == key
  }

  // The slot of one demand in the shared maps.
  ghost function SlotOf(tasks: map<Key, Task>, timers: map<TimerId, Alarm>, contexts: map<ContextId, Key>, key: Key): Slot {
    Slot(if key in tasks then Some(tasks[key]) else None, ArmedFor(timers, key), LiveFor(contexts, key))
  }

  ghost predicate Consistent(tasks: map<Key, Task>, timers: map<TimerId, Alarm>, contexts: map<ContextId, Key>, created: nat) {
    && (forall t :: t in timers ==> t < created)
    && (forall c :: c in contexts ==> c < created)
    && (forall k :: k in tasks && tasks[k].timer.Some? ==>
          tasks[k].timer.value < created && (tasks[k].timer.value in timers ==> timers[tasks[k].timer.value].key == k))
    && (forall k :: k in tasks && tasks[k].cancel.Some? ==>
          tasks[k].cancel.value < created && (tasks[k].cancel.value in contexts ==> contexts[tasks[k].cancel.value] == k))
  }

  function StopIn(timers: map<TimerId, Alarm>, timer: Option<TimerId>): map<TimerId, Alarm> {
    if timer.Some? then timers - {timer.value} else timers
  }

  function CancelIn(contexts: map<ContextId, Key>, cancel: Option<ContextId>): map<ContextId, Key> {
    if cancel.Some? then contexts - {cancel.value} else contexts
  }

  ghost predicate SameOthers(tasks: map<Key, Task>, tasks': map<Key, Task>, key: Key) {
    forall k :: k != key ==> (k in tasks <==> k in tasks') && (k in tasks ==> tasks'[k] == tasks[k])
  }

  lemma StoppedArmed(timers: map<TimerId, Alarm>, timer: Option<TimerId>, key: Key)
    requires timer.Some? && timer.value in timers ==> timers[timer.value].key == key
    ensures forall k :: ArmedFor(StopIn(timers, timer), k) == if k == key then Stop(ArmedFor(timers, k), timer) else ArmedFor(timers, k)
  {
  }

  lemma CancelledLive(contexts: map<ContextId, Key>, cancel: Option<ContextId>, key: Key)
    requires cancel.Some? && cancel.value in contexts ==> contexts[cancel.value] == key
    ensures forall k :: LiveFor(CancelIn(contexts, cancel), k) == if k == key then Cancel(LiveFor(contexts, k), cancel) else LiveFor(contexts, k)
  {
  }

  lemma StoppedConsistent(tasks: map<Key, Task>, timers: map<TimerId, Alarm>, contexts: map<ContextId, Key>, created: nat,
                          key: Key, timer: Option<TimerId>, cancel: Option<ContextId>, tasks': map<Key, Task>)
    requires Consistent(tasks, timers, contexts, created)
    requires SameOthers(tasks, tasks', key)
    requires key in tasks' ==>
               (tasks'[key].timer.None? || (key in tasks && tasks'[key].timer == tasks[key].timer)) &&
               (tasks'[key].cancel.None? || (key in tasks && tasks'[key].cancel == tasks[key].cancel))
    ensures Consistent(tasks', StopIn(timers, timer), CancelIn(contexts, cancel), created)
  {
    var timers', contexts' := StopIn(timers, timer), CancelIn(contexts, cancel);
    forall k | k in tasks' && tasks'[k].timer.Some?
      ensures tasks'[k].timer.value < created && (tasks'[k].timer.value in timers' ==> timers'[tasks'[k].timer.value].key == k)
    {
      assert k in tasks && tasks[k].timer == tasks'[k].timer;
    }
    forall k | k in tasks' && tasks'[k].cancel.Some?
      ensures tasks'[k].cancel.value < created && (tasks'[k].cancel.value in contexts' ==> contexts'[tasks'[k].cancel.value] == k)
    {
      assert k in tasks && tasks[k].cancel == tasks'[k].cancel;
    }
  }

  // Stopping a demand's timer and cancelling its context, then storing a new task or none, does to its slot
  // what Stop and Cancel say and nothing to any other slot.
  lemma StoppedSlots(tasks: map<Key, Task>, timers: map<TimerId, Alarm>, contexts: map<ContextId, Key>, created: nat,
                     key: Key, timer: Option<TimerId>, cancel: Option<ContextId>, tasks': map<Key, Task>)
    requires Consistent(tasks, timers, contexts, created)
    requires timer.Some? ==> key in tasks && timer == tasks[key].timer
    requires cancel.Some? ==> key in tasks && cancel == tasks[key].cancel
    requires SameOthers(tasks, tasks', key)
    requires key in tasks' ==>
               (tasks'[key].timer.None? || (key in tasks && tasks'[key].timer == tasks[key].timer)) &&
               (tasks'[key].cancel.None? || (key in tasks && tasks'[key].cancel == tasks[key].cancel))
    ensures Consistent(tasks', StopIn(timers, timer), CancelIn(contexts, cancel), created)
    ensures var before, after := SlotOf(tasks, timers, contexts, key), SlotOf(tasks', StopIn(timers, timer), CancelIn(contexts, cancel), key);
            after == Slot(if key in tasks' then Some(tasks'[key]) else None, Stop(before.armed, timer), Cancel(before.live, cancel))
    ensures forall other :: other != key ==>
              SlotOf(tasks', StopIn(timers, timer), CancelIn(contexts, cancel), other) == SlotOf(tasks, timers, contexts, other)
  {
    StoppedConsistent(tasks, timers, contexts, created, key, timer, cancel, tasks');
    StoppedArmed(timers, timer, key);
    CancelledLive(contexts, cancel, key);
  }

  // Starting a timer for a demand whose task now refers to it.
  lemma ArmedSlots(tasks: map<Key, Task>, timers: map<TimerId, Alarm>, contexts: map<ContextId, Key>, created: nat, key: Key)
    requires Consistent(tasks, timers, contexts, created) && key in tasks
    ensures var task := tasks[key].(timer := Some(created));
            var before := SlotOf(tasks, timers, contexts, key);
            && Consistent(tasks[key := task], timers[created := Alarm(key, task.identity)], contexts, created + 1)
            && SlotOf(tasks[key := task], timers[created := Alarm(key, task.identity)], contexts, key)
               == before.(task := Some(task), armed := before.armed[created := task.identity])
            && forall other :: other != key ==>
                 SlotOf(tasks[key := task], timers[created := Alarm(key, task.identity)], contexts, other) == SlotOf(tasks, timers, contexts, other)
  {
    var timers' := timers[created := Alarm(key, tasks[key].identity)];
    assert forall k :: ArmedFor(timers', k) == if k == key then ArmedFor(timers, k)[created := tasks[key].identity] else ArmedFor(timers, k);
  }

  // Handing out a context for a demand whose task now holds its cancel function.
  lemma AttachedSlots(tasks: map<Key, Task>, timers: map<TimerId, Alarm>, contexts: map<ContextId, Key>, created: nat, key: Key)
    requires Consistent(tasks, timers, contexts, created) && key in tasks
    ensures var task := tasks[key].(cancel := Some(created));
            var before := SlotOf(tasks, timers, contexts, key);
            && Consistent(tasks[key := task], timers, contexts[created := key], created + 1)
            && SlotOf(tasks[key := task], timers, contexts[created := key], key)
               == before.(task := Some(task), live := before.live + {created})
            && forall other :: other != key ==>
                 SlotOf(tasks[key := task], timers, contexts[created := key], other) == SlotOf(tasks, timers, contexts, other)
  {
    var contexts' := contexts[created := key];
    assert forall k :: LiveFor(contexts', k) == if k == key then LiveFor(contexts, k) + {created} else LiveFor(contexts, k);
  }

  class RefreshScheduler {
    var tasks: map<Key, Task>
    // What the Go runtime keeps for the scheduler: timers that can still fire, contexts not yet cancelled
    // (with the demand they were handed out for) and the number of such objects created so far.
    var timers: map<TimerId, Alarm>
    var contexts: map<ContextId, Key>
    var created: nat

    ghost predicate Valid()
      reads this
    {
      Consistent(tasks, timers, contexts, created)
    }

    ghost function View(key: Key): Slot
      reads this
    {
      SlotOf(tasks, timers, contexts, key)
    }

    constructor ()
      ensures Valid()
      ensures forall key :: View(key) == Slot(None, map[], {})
    {
      tasks, timers, contexts, created := map[], map[], map[], 0;
    }

    method Upsert(key: Key, identity: Identity) returns (isNew: bool, changed: bool)
      requires Valid()
      modifies this`tasks, this`timers, this`contexts
      ensures Valid()
      ensures View(key) == Upserted(old(View(key)), identity)
      ensures forall other :: other != key ==> View(other) == old(View(other))
      ensures isNew == old(View(key)).task.None? && changed == Changes(old(View(key)), identity)
    {
      if key !in tasks {
        StoppedSlots(tasks, timers, contexts, created, key, None, None, tasks[key := Task(identity, None, None)]);
        tasks := tasks[key := Task(identity, None, None)];
        return true, false;
      }
      var task := tasks[key];
      changed := task.identity != identity;
      if changed {
        if task.timer.Some? {
          timers := timers - {task.timer.value};
          task := task.(timer := None);
        }
        if task.cancel.Some? {
          contexts := contexts - {task.cancel.value};
          task := task.(cancel := None);
        }
        task := task.(identity := identity);
        tasks := tasks[key := task];
        StoppedSlots(old(tasks), old(timers), old(contexts), created, key, old(tasks)[key].timer, old(tasks)[key].cancel, tasks);
      }
      isNew := false;
    }

    method Begin(key: Key) returns (ctx: ContextId, identity: Identity, found: bool)
      requires Valid()
      modifies this`tasks, this`contexts, this`created
      ensures Valid()
      ensures View(key) == Begun(old(View(key)), ctx)
      ensures forall other :: other != key ==> View(other) == old(View(other))
      ensures found == old(View(key)).task.Some?
      ensures found ==> Stores(old(View(key)), identity) && ctx !in old(View(key)).live
    {
      ctx := created;
      if key !in tasks {
        return ctx, Identity("", 0), false;
      }
      AttachedSlots(tasks, timers, contexts, created, key);
      created := created + 1;
      contexts := contexts[ctx := key];
      tasks := tasks[key := tasks[key].(cancel := Some(ctx))];
      return ctx, tasks[key].identity, true;
    }

    method Finish(key: Key, identity: Identity)
      requires Valid()
      modifies this`tasks, this`contexts
      ensures Valid()
      ensures View(key) == Finished(old(View(key)), identity)
      ensures forall other :: other != key ==> View(other) == old(View(other))
    {
      if key in tasks && tasks[key].identity == identity {
        if tasks[key].cancel.Some? {
          contexts := contexts - {tasks[key].cancel.value};
        }
        tasks := tasks[key := tasks[key].(cancel := None)];
        StoppedSlots(old(tasks), timers, old(contexts), created, key, None, old(tasks)[key].cancel, tasks);
      }
    }

    method IsCurrent(key: Key, identity: Identity) returns (current: bool)
      ensures current == Stores(View(key), identity)
    {
      current := key in tasks && tasks[key].identity == identity;
    }

    method ScheduleAfter(key: Key, identity: Identity) returns (timer: TimerId)
      requires Valid()
      modifies this`tasks, this`timers, this`created
      ensures Valid()
      ensures View(key) == Scheduled(old(View(key)), identity, timer)
      ensures forall other :: other != key ==> View(other) == old(View(other))
      ensures timer !in old(View(key)).armed
    {
      timer := created;
      if key !in tasks || tasks[key].identity != identity {
        return;
      }
      StoppedSlots(tasks, timers, contexts, created, key, tasks[key].timer, None, tasks);
      if tasks[key].timer.Some? {
        timers := timers - {tasks[key].timer.value};
      }
      ArmedSlots(tasks, timers, contexts, created, key);
      created := created + 1;
      timers := timers[timer := Alarm(key, identity)];
      tasks := tasks[key := tasks[key].(timer := Some(timer))];
    }

    // The function passed to time.AfterFunc, up to the point where it releases the lock.
    method Callback(key: Key, identity: Identity) returns (emits: bool)
      requires Valid()
      modifies this`tasks
      ensures Valid()
      ensures View(key) == CalledBack(old(View(key)), identity)
      ensures forall other :: other != key ==> View(other) == old(View(other))
      ensures emits == Stores(old(View(key)), identity)
    {
      if key !in tasks || tasks[key].identity != identity {
        return false;
      }
      StoppedSlots(tasks, timers, contexts, created, key, None, None, tasks[key := tasks[key].(timer := None)]);
      tasks := tasks[key := tasks[key].(timer := None)];
      emits := true;
    }

    method Remove(key: Key)
      requires Valid()
      modifies this`tasks, this`timers, this`contexts
      ensures Valid()
      ensures tasks == old(tasks) - {key}
      ensures View(key) == Removed(old(View(key)))
      ensures forall other :: other != key ==> View(other) == old(View(other))
    {
      if key in tasks {
        StoppedSlots(tasks, timers, contexts, created, key, tasks[key].timer, tasks[key].cancel, tasks - {key});
        if tasks[key].timer.Some? {
          timers := timers - {tasks[key].timer.value};
        }
        if tasks[key].cancel.Some? {
          contexts := contexts - {tasks[key].cancel.value};
        }
        tasks := tasks - {key};
      }
    }

    // The second half of Start: once the manager's context is done, every task is stopped and dropped.
    method Shutdown()
      requires Valid()
      modifies this`tasks, this`timers, this`contexts
      ensures Valid() && tasks == map[]
      ensures forall key :: View(key) == Removed(old(View(key)))
    {
      while tasks.Keys != {}
        invariant Valid()
        invariant forall key :: View(key) == if key in tasks then old(View(key)) else Removed(old(View(key)))
        decreases tasks.Keys
      {
        var key :| key in tasks.Keys;
        Remove(key);
        assert key !in tasks;
      }
    }
  }
}
