/**
What the supervisor owes to each call and to close, in every run: no call is lost, every call can return, each request
line carries an id of its own, and close can succeed (algorithm_server/go/algorithm/worker.go).
*/
module SupervisorCalls {
  import opened Wrappers
  import opened PythonLoop
  import opened WorkerSupervisor

  // ---- What each kind of step leaves alone ----

  // Processes are as before or stopped; new ones are fresh.
  ghost predicate KeptOrStopped(s: State, t: State) {
    && |s.processes| <= |t.processes|
    && (forall g :: 0 <= g < |s.processes| ==>
          t.processes[g] == s.processes[g] || t.processes[g] == s.processes[g].(stopping := true, alive := false))
    && (forall g :: |s.processes| <= g < |t.processes| ==> t.processes[g] == NewProcess)
  }

  ghost predicate OnlyStops(s: State, t: State) {
    KeptOrStopped(s, t) && t == s.(processes := t.processes) && |t.processes| == |s.processes|
  }

  lemma StopFrame(s: State)
    requires WellFormed(s)
    ensures OnlyStops(s, StopCurrent(s))
  {
  }

  lemma CallFrame(s: State, l: CallStep)
    requires WellFormed(s) && CallEnabled(s, l)
    ensures var t := ApplyCall(s, l);
            && KeptOrStopped(s, t) && t.cancelled == s.cancelled && t.closing == s.closing
            && t.nextId == (if l.Send? || l.SendFails? then s.nextId + 1 else s.nextId)
            && (t.reader != s.reader ==> l.Send? && t.reader.Some? && t.reader.value.line.Request? && t.reader.value.line.id == t.nextId)
            && (!l.GiveUpBeforeGate? && !l.TakeGate? ==> t.payloads == s.payloads)
  {
    hide StopCurrent;
    if l.Inspect? { StopFrame(Goto(s, Recycling(ThenStart))); }
  }

  lemma ExchangeFrame(s: State, l: ExchangeStep)
    requires WellFormed(s) && ExchangeEnabled(s, l)
    ensures var t := ApplyExchange(s, l);
            && KeptOrStopped(s, t) && t.cancelled == s.cancelled && t.closing == s.closing && t.nextId == s.nextId && t.payloads == s.payloads
            && (t.reader == s.reader || (t.reader.None? && s.reader.Some? && s.reader.value.stage.Done?))
  {
    hide StopCurrent;
    match l
    case TakeResult => if s.reader.value.stage.reply.None? { StopFrame(Goto(s.(reader := None), Recycling(ThenFail))); }
    case CancelExchange => StopFrame(Goto(s, Recycling(ThenDrain)));
    case Respond => StopFrame(Goto(s, Recycling(ThenFail)));
    case _ =>
  }

  lemma StopStepFrame(s: State, l: RecycleStep)
    requires WellFormed(s) && StopEnabled(s, l)
    ensures var t := ApplyStop(s, l);
            && t.processes == s.processes && t.cancelled == s.cancelled && t.nextId == s.nextId && t.reader == s.reader && t.payloads == s.payloads
            && (t.closing == Closed(true) <==> if s.gate.Closing? then l.RecycleDone? else s.closing == Closed(true))
            && (t.closing == Closed(false) <==> if s.gate.Closing? then l.RecycleTimesOut? else s.closing == Closed(false))
  {
    match l
    case RecycleDone =>
      if s.gate.Calculating? {
        match s.gate.phase.next
        case ThenStart =>
        case ThenDrain =>
        case ThenFail =>
      }
    case RecycleTimesOut =>
      if s.gate.Calculating? && s.gate.phase.next.ThenDrain? { }
  }

  lemma CloseFrame(s: State, l: CloseStep)
    requires WellFormed(s) && CloseEnabled(s, l)
    ensures var t := ApplyClose(s, l);
            && KeptOrStopped(s, t) && t.nextId == s.nextId && t.reader == s.reader && t.payloads == s.payloads && t.returned == s.returned
            && (t.cancelled <==> s.cancelled || l.ParentCancelled? || l.CloseBegins?)
            && (!s.closing.Closed? ==> (t.closing.Closed? <==> l.CloseTimesOut?) && (t.closing.Closed? ==> t.closing == Closed(false)))
  {
    hide StopCurrent;
    if l.CloseTakesGate? { StopFrame(s.(gate := Closing, closing := Recovering)); }
  }

  // The goroutine works on the child it was started for.
  ghost predicate Advances(p: Process, q: Process, r: Reader, l: ReaderStep) {
    && q.alive == p.alive && q.stopping == p.stopping && q.reaped == p.reaped && q.produced == p.produced
    && q.written == p.written + (if l.Write? then [r.line] else [])
    && (l.Write? ==> p.alive)
  }

  lemma ReadFrame(s: State, l: ReaderStep, calculate: Payload -> Outcome)
    requires WellFormed(s) && ReadEnabled(s, l, calculate)
    ensures var t, g := ApplyRead(s, l, calculate), s.reader.value.generation;
            && |t.processes| == |s.processes| && Advances(s.processes[g], t.processes[g], s.reader.value, l)
            && (forall h :: 0 <= h < |s.processes| && h != g ==> t.processes[h] == s.processes[h])
            && t == s.(processes := t.processes, reader := t.reader)
            && t.reader.Some? && t.reader.value.line == s.reader.value.line && !t.reader.value.stage.Writing?
  {
    hide Replies;
  }

  lemma ChildFrame(s: State, g: Generation, l: ChildStep)
    requires g < |s.processes|
    ensures var t := SetProcess(s, g, ApplyChild(s.processes[g], l));
            && t == s.(processes := t.processes) && |t.processes| == |s.processes|
            && (forall h :: 0 <= h < |s.processes| && h != g ==> t.processes[h] == s.processes[h])
            && t.processes[g].written == s.processes[g].written && (t.processes[g].alive ==> s.processes[g].alive)
            && t.processes[g].stopping == s.processes[g].stopping && (l.Die? || l.Reap? ==> !t.processes[g].alive)
            && (l.WriteReply? || t.processes[g].produced == s.processes[g].produced)
            && (t.processes[g].reaped ==> s.processes[g].reaped || l.Reap?)
  {
  }

  // ---- No call is lost ----

  // The steps that answer the call that holds the gate.
  predicate Answers(s: State, l: Label) {
    s.gate.Calculating? &&
    match l
    case Call(l) => l.CheckFails? || l.StartAborted? || l.StartFails? || l.SendFails?
    case Exchange(l) => l.RespondFails? || l.Drain? || l.Respond?
    case Stop(l) => if l.RecycleDone? then s.gate.phase == Recycling(ThenFail) else s.gate.phase != Recycling(ThenDrain)
    case _ => false
  }

  function Holder(s: State): set<CallId> {
    if s.gate.Calculating? then {s.gate.call} else {}
  }

  function GivenUp(l: Label): set<CallId> {
    if l.Call? && l.call.GiveUpBeforeGate? then {l.call.call} else {}
  }

  function Arrived(l: Label): set<CallId> {
    if l.Call? && l.call.TakeGate? then {l.call.call} else {}
  }

  // Such a step answers the call and frees the gate; any other leaves the call its gate.
  ghost predicate Accounts(s: State, l: Label, t: State) {
    && t.returned.Keys == s.returned.Keys + GivenUp(l) + (if Answers(s, l) then Holder(s) else {})
    && Holder(t) == (if Answers(s, l) then {} else Holder(s) + Arrived(l))
    && t.payloads.Keys == s.payloads.Keys + GivenUp(l) + Arrived(l)
  }

  lemma CallAccounts(s: State, l: CallStep)
    requires WellFormed(s) && CallEnabled(s, l)
    ensures Accounts(s, Call(l), ApplyCall(s, l))
  {
    hide StopCurrent;
    if l.Inspect? { StopFrame(Goto(s, Recycling(ThenStart))); }
  }

  lemma ExchangeAccounts(s: State, l: ExchangeStep)
    requires WellFormed(s) && ExchangeEnabled(s, l)
    requires s.gate.Calculating? && s.gate.phase.Responding? ==> s.gate.phase.reply.id == Some(s.gate.phase.id)
    ensures Accounts(s, Exchange(l), ApplyExchange(s, l))
  {
    hide StopCurrent;
    match l
    case TakeResult => if s.reader.value.stage.reply.None? { StopFrame(Goto(s.(reader := None), Recycling(ThenFail))); }
    case CancelExchange => StopFrame(Goto(s, Recycling(ThenDrain)));
    case _ =>
  }

  lemma StopAccounts(s: State, l: RecycleStep)
    requires WellFormed(s) && StopEnabled(s, l)
    ensures Accounts(s, Stop(l), ApplyStop(s, l))
  {
    match l
    case RecycleDone =>
      if s.gate.Calculating? {
        match s.gate.phase.next
        case ThenStart =>
        case ThenDrain =>
        case ThenFail =>
      }
    case RecycleTimesOut =>
      if s.gate.Calculating? && s.gate.phase.next.ThenDrain? { }
  }

  lemma CloseAccounts(s: State, l: CloseStep)
    requires WellFormed(s) && CloseEnabled(s, l)
    ensures Accounts(s, Close(l), ApplyClose(s, l))
  {
    hide StopCurrent;
    if l.CloseTakesGate? { StopFrame(s.(gate := Closing, closing := Recovering)); }
  }

  lemma AnswersExactly(s: State, l: Label, calculate: Payload -> Outcome)
    requires Invariant(s, calculate) && Enabled(s, l, calculate)
    ensures Accounts(s, l, Apply(s, l, calculate))
  {
    hide OneChild, Streams, InStep, ReaderHeld, ReaderOwned, Settled, ApplyCall, ApplyExchange, ApplyStop, ApplyClose, ApplyRead, ApplyChild,
         CallEnabled, ExchangeEnabled, StopEnabled, CloseEnabled, ReadEnabled, ChildEnabled;
    match l
    case Call(k) => CallAccounts(s, k);
    case Exchange(k) => ReplyIsOwn(s, calculate); ExchangeAccounts(s, k);
    case Stop(k) => StopAccounts(s, k);
    case Close(k) => CloseAccounts(s, k);
    case Read(k) => ReadFrame(s, k, calculate);
    case Child(g, k) => ChildFrame(s, g, k);
  }

  lemma ReplyIsOwn(s: State, calculate: Payload -> Outcome)
    requires ReplyOwned(s, calculate)
    ensures s.gate.Calculating? && s.gate.phase.Responding? ==> s.gate.phase.reply.id == Some(s.gate.phase.id)
  {
  }

  // Main result: at any moment every call has returned, once, or holds the gate.
  lemma {:induction false} NoCallIsLost(r: Run, calculate: Payload -> Outcome)
    requires Valid(r, calculate)
    ensures Last(r, calculate).payloads.Keys == Last(r, calculate).returned.Keys + Holder(Last(r, calculate))
    ensures Last(r, calculate).returned.Keys !! Holder(Last(r, calculate))
  {
    RunKeepsInvariant(r, calculate);
    NotYetReturned(Last(r, calculate), calculate);
    if r.Then? {
      hide Invariant, Enabled, Apply, Answers;
      NoCallIsLost(r.before, calculate);
      RunKeepsInvariant(r.before, calculate);
      AnswersExactly(Last(r.before, calculate), r.step, calculate);
    }
  }

  lemma NotYetReturned(s: State, calculate: Payload -> Outcome)
    requires Invariant(s, calculate)
    ensures s.returned.Keys !! Holder(s)
  {
  }

  // ---- Every call can return ----

  // No call but those of r is made.
  predicate OwnSteps(r: Run, s: Run) {
    s == r || (s.Then? && GivenUp(s.step) == Arrived(s.step) == {} && OwnSteps(r, s.before))
  }

  lemma More(r: Run, s: Run, l: Label, calculate: Payload -> Outcome) returns (t: Run)
    requires Valid(s, calculate) && Enabled(Last(s, calculate), l, calculate) && OwnSteps(r, s) && GivenUp(l) == Arrived(l) == {}
    ensures t == Then(s, l) && Valid(t, calculate) && Last(t, calculate) == Apply(Last(s, calculate), l, calculate) && OwnSteps(r, t)
  {
    t := Then(s, l);
  }

  lemma NoneYet(r: Run)
    ensures OwnSteps(r, r)
  {
  }

  ghost predicate HasReturned(s: State, c: CallId) {
    s.gate.Free? && c in s.returned
  }

  ghost predicate Holds(s: State, c: CallId) {
    WellFormed(s) && s.gate.Calculating? && s.gate.call == c
  }

  lemma StartingReturns(r: Run, s: Run, c: CallId, calculate: Payload -> Outcome) returns (t: Run)
    requires Valid(s, calculate) && OwnSteps(r, s) && Holds(Last(s, calculate), c)
    requires Last(s, calculate).gate.phase.Starting? || Last(s, calculate).gate.phase.Sending?
    ensures Valid(t, calculate) && OwnSteps(r, t) && HasReturned(Last(t, calculate), c)
  {
    hide Valid, Last, OwnSteps;
    t := s;
    if Last(s, calculate).gate.phase.Starting? {
      if Last(s, calculate).current.None? {
        t := More(r, s, Call(StartFails), calculate);
        return;
      }
      t := More(r, s, Call(StartNotNeeded), calculate);
    }
    t := More(r, t, Call(SendFails), calculate);
  }

  lemma DrainingReturns(r: Run, s: Run, c: CallId, calculate: Payload -> Outcome) returns (t: Run)
    requires Valid(s, calculate) && OwnSteps(r, s) && Holds(Last(s, calculate), c)
    requires Last(s, calculate).gate.phase.Draining? && Last(s, calculate).reader.Some?
    ensures Valid(t, calculate) && OwnSteps(r, t) && HasReturned(Last(t, calculate), c)
  {
    hide Valid, Last, OwnSteps;
    t := s;
    if !Last(s, calculate).reader.value.stage.Done? {
      t := More(r, s, Read(Fail), calculate);
    }
    t := More(r, t, Exchange(Drain), calculate);
  }

  // The child, if any, is being stopped, and the goroutine is there if it is to be drained.
  ghost predicate CanRecycle(s: State, c: CallId) {
    && Holds(s, c) && s.gate.phase.Recycling?
    && (s.current.Some? ==> s.processes[s.current.value].stopping)
    && (s.gate.phase.next.ThenDrain? ==> s.reader.Some?)
  }

  lemma RecyclingReturns(r: Run, s: Run, c: CallId, calculate: Payload -> Outcome) returns (t: Run)
    requires Valid(s, calculate) && OwnSteps(r, s) && CanRecycle(Last(s, calculate), c)
    ensures Valid(t, calculate) && OwnSteps(r, t) && HasReturned(Last(t, calculate), c)
  {
    hide Valid, Last, OwnSteps;
    t := s;
    if Last(s, calculate).current.Some? {
      t := More(r, t, Child(Last(s, calculate).current.value, Reap), calculate);
    }
    t := More(r, t, Stop(RecycleDone), calculate);
    if Last(t, calculate).gate.Calculating? {
      if Last(t, calculate).gate.phase.Starting? {
        t := StartingReturns(r, t, c, calculate);
      } else {
        t := DrainingReturns(r, t, c, calculate);
      }
    }
  }

  lemma InspectingReturns(r: Run, s: Run, c: CallId, calculate: Payload -> Outcome) returns (t: Run)
    requires Valid(s, calculate) && OwnSteps(r, s) && Holds(Last(s, calculate), c) && Last(s, calculate).gate.phase.Inspecting?
    ensures Valid(t, calculate) && OwnSteps(r, t) && HasReturned(Last(t, calculate), c)
  {
    hide Valid, Last, OwnSteps;
    t := More(r, s, Call(Inspect), calculate);
    if Last(t, calculate).gate.phase.Starting? {
      t := StartingReturns(r, t, c, calculate);
    } else {
      t := RecyclingReturns(r, t, c, calculate);
    }
  }

  lemma WaitingReturns(r: Run, s: Run, c: CallId, calculate: Payload -> Outcome) returns (t: Run)
    requires Valid(s, calculate) && OwnSteps(r, s) && Holds(Last(s, calculate), c) && Last(s, calculate).gate.phase.Waiting?
    requires Last(s, calculate).reader.Some?
    ensures Valid(t, calculate) && OwnSteps(r, t) && HasReturned(Last(t, calculate), c)
  {
    hide Valid, Last, OwnSteps;
    t := More(r, s, Exchange(CancelExchange), calculate);
    t := RecyclingReturns(r, t, c, calculate);
  }

  // What the invariant says of the holder of the gate.
  lemma Held(r: Run, calculate: Payload -> Outcome)
    requires Valid(r, calculate) && Last(r, calculate).gate.Calculating?
    ensures var s := Last(r, calculate);
            && Holds(s, s.gate.call)
            && (s.gate.phase.Recycling? ==> CanRecycle(s, s.gate.call))
            && (s.gate.phase.Waiting? || s.gate.phase.Draining? ==> s.reader.Some?)
  {
    RunKeepsInvariant(r, calculate);
  }

  // Main result: from every reachable state the call that holds the gate can return, and free the gate, without any
  // other call: nothing it waits for can keep it for good.
  lemma HolderCanReturn(r: Run, calculate: Payload -> Outcome) returns (t: Run)
    requires Valid(r, calculate) && Last(r, calculate).gate.Calculating?
    ensures Valid(t, calculate) && OwnSteps(r, t) && HasReturned(Last(t, calculate), Last(r, calculate).gate.call)
  {
    var c := Last(r, calculate).gate.call;
    Held(r, calculate);
    NoneYet(r);
    hide Valid, Last, OwnSteps, CanRecycle, StopCurrent;
    match Last(r, calculate).gate.phase
    case Checking => t := More(r, r, Call(CheckFails), calculate);
    case Inspecting => t := InspectingReturns(r, r, c, calculate);
    case Starting => t := StartingReturns(r, r, c, calculate);
    case Sending => t := StartingReturns(r, r, c, calculate);
    case Waiting(_) => t := WaitingReturns(r, r, c, calculate);
    case Responding(_, _) => t := More(r, r, Exchange(RespondFails), calculate);
    case Recycling(_) => t := RecyclingReturns(r, r, c, calculate);
    case Draining => t := DrainingReturns(r, r, c, calculate);
  }

  // ---- No goroutine outlives its call ----

  // The goroutine is given up only when it is done, which it is when it failed or has its reply.
  lemma CollectedWhenDone(s: State, l: Label, calculate: Payload -> Outcome)
    requires Enabled(s, l, calculate) && s.reader.Some? && Apply(s, l, calculate).reader.None?
    ensures s.reader.value.stage.Done?
  {
    hide ApplyCall, ApplyExchange, ApplyStop, ApplyClose, ApplyRead, ApplyChild,
         CallEnabled, ExchangeEnabled, StopEnabled, CloseEnabled, ReadEnabled, ChildEnabled, KeptOrStopped;
    match l
    case Call(k) => CallFrame(s, k);
    case Exchange(k) => ExchangeFrame(s, k);
    case Stop(k) => StopStepFrame(s, k);
    case Close(k) => CloseFrame(s, k);
    case Read(k) => ReadFrame(s, k, calculate);
    case Child(g, k) => ChildFrame(s, g, k);
  }

  // ---- Each request line has an id of its own ----

  // The exchanges begun: request ids are handed out before the evidence file is written.
  function Begun(r: Run): nat {
    match r
    case Started => 0
    case Then(before, l) => Begun(before) + if l == Call(Send) || l == Call(SendFails) then 1 else 0
  }

  lemma {:induction false} IdsCount(r: Run, calculate: Payload -> Outcome)
    requires Valid(r, calculate)
    ensures Last(r, calculate).nextId == Begun(r)
  {
    if r.Then? {
      hide Enabled, Apply;
      IdsCount(r.before, calculate);
      NextIdStep(Last(r.before, calculate), r.step, calculate);
    }
  }

  lemma NextIdStep(s: State, l: Label, calculate: Payload -> Outcome)
    requires Enabled(s, l, calculate)
    ensures Apply(s, l, calculate).nextId == s.nextId + if l == Call(Send) || l == Call(SendFails) then 1 else 0
  {
    hide ApplyCall, ApplyExchange, ApplyStop, ApplyClose, ApplyRead, ApplyChild,
         CallEnabled, ExchangeEnabled, StopEnabled, CloseEnabled, ReadEnabled, ChildEnabled, KeptOrStopped;
    match l
    case Call(k) => CallFrame(s, k);
    case Exchange(k) => ExchangeFrame(s, k);
    case Stop(k) => StopStepFrame(s, k);
    case Close(k) => CloseFrame(s, k);
    case Read(k) => ReadFrame(s, k, calculate);
    case Child(g, k) => ChildFrame(s, g, k);
  }

  // Line k of this child's input is the request with this id.
  predicate IsRequest(s: State, g: int, k: int, id: int) {
    0 <= g < |s.processes| && 0 <= k < |s.processes[g].written| && s.processes[g].written[k].Request? && s.processes[g].written[k].id == id
  }

  // Lines written carry ids handed out, each at most once; the line still to be written has the last id.
  ghost predicate Numbered(s: State) {
    && (forall g, k, id :: IsRequest(s, g, k, id) ==> id <= s.nextId)
    && (forall g, k, h, j, id :: IsRequest(s, g, k, id) && IsRequest(s, h, j, id) ==> g == h && k == j)
    && (s.reader.Some? ==> s.reader.value.line.Request? && s.reader.value.line.id <= s.nextId)
    && (s.reader.Some? && s.reader.value.stage.Writing? ==> forall g, k, id :: IsRequest(s, g, k, id) ==> id != s.reader.value.line.id)
  }

  lemma StoppedSameLines(s: State, t: State)
    requires KeptOrStopped(s, t)
    ensures forall g, k, id :: IsRequest(t, g, k, id) <==> IsRequest(s, g, k, id)
  {
  }

  lemma ControlKeepsNumbers(s: State, t: State)
    requires Numbered(s) && KeptOrStopped(s, t) && s.nextId <= t.nextId
    requires t.reader == s.reader || t.reader.None? || (s.nextId < t.nextId && t.reader.value.line.Request? && t.reader.value.line.id == t.nextId)
    ensures Numbered(t)
  {
    StoppedSameLines(s, t);
    hide IsRequest, KeptOrStopped;
  }

  lemma ReadKeepsNumbers(s: State, l: ReaderStep, calculate: Payload -> Outcome)
    requires Numbered(s) && WellFormed(s) && ReadEnabled(s, l, calculate)
    ensures Numbered(ApplyRead(s, l, calculate))
  {
    hide ApplyRead;
    ReadFrame(s, l, calculate);
    var t, h := ApplyRead(s, l, calculate), s.reader.value.generation;
    NewLine(s, t, h, l.Write?);
    assert l.Write? ==> s.reader.value.stage.Writing?;
  }

  // One line more, or none.
  lemma NewLine(s: State, t: State, h: Generation, one: bool)
    requires s.reader.Some? && h < |s.processes| == |t.processes|
    requires t.processes[h].written == s.processes[h].written + if one then [s.reader.value.line] else []
    requires forall g :: 0 <= g < |s.processes| && g != h ==> t.processes[g] == s.processes[g]
    ensures forall g, k, id :: IsRequest(t, g, k, id) <==>
              IsRequest(s, g, k, id) || (one && g == h && k == |s.processes[h].written| && s.reader.value.line.Request? && id == s.reader.value.line.id)
  {
  }

  lemma ChildKeepsNumbers(s: State, g: Generation, l: ChildStep)
    requires Numbered(s) && g < |s.processes|
    ensures Numbered(SetProcess(s, g, ApplyChild(s.processes[g], l)))
  {
    ChildFrame(s, g, l);
    var t := SetProcess(s, g, ApplyChild(s.processes[g], l));
    assert forall h, k, id :: IsRequest(t, h, k, id) <==> IsRequest(s, h, k, id);
    hide IsRequest, ApplyChild;
  }

  lemma StepKeepsNumbers(s: State, l: Label, calculate: Payload -> Outcome)
    requires Enabled(s, l, calculate) && Numbered(s)
    ensures Numbered(Apply(s, l, calculate))
  {
    hide ApplyCall, ApplyExchange, ApplyStop, ApplyClose, ApplyRead, ApplyChild,
         CallEnabled, ExchangeEnabled, StopEnabled, CloseEnabled, ReadEnabled, ChildEnabled, KeptOrStopped, Numbered;
    var t := Apply(s, l, calculate);
    match l
    case Call(k) => CallFrame(s, k); ControlKeepsNumbers(s, t);
    case Exchange(k) => ExchangeFrame(s, k); ControlKeepsNumbers(s, t);
    case Stop(k) => StopStepFrame(s, k); SameProcesses(s, t); ControlKeepsNumbers(s, t);
    case Close(k) => CloseFrame(s, k); ControlKeepsNumbers(s, t);
    case Read(k) => ReadKeepsNumbers(s, k, calculate);
    case Child(g, k) => ChildKeepsNumbers(s, g, k);
  }

  lemma SameProcesses(s: State, t: State)
    requires t.processes == s.processes
    ensures KeptOrStopped(s, t)
  {
  }

  lemma {:induction false} RunKeepsNumbers(r: Run, calculate: Payload -> Outcome)
    requires Valid(r, calculate)
    ensures Numbered(Last(r, calculate))
  {
    if r.Then? {
      hide Enabled, Apply, Numbered;
      RunKeepsNumbers(r.before, calculate);
      StepKeepsNumbers(Last(r.before, calculate), r.step, calculate);
    }
  }

  // Main result: in every run no two request lines, of one child or of two, carry the same id; ids count the exchanges.
  lemma RequestIdsAreUnique(r: Run, calculate: Payload -> Outcome)
    requires Valid(r, calculate)
    ensures forall g, k, h, j, id :: IsRequest(Last(r, calculate), g, k, id) && IsRequest(Last(r, calculate), h, j, id) ==> g == h && k == j
    ensures forall g, k, id :: IsRequest(Last(r, calculate), g, k, id) ==> id <= Begun(r)
    ensures Last(r, calculate).nextId == Begun(r)
  {
    hide IsRequest;
    RunKeepsNumbers(r, calculate);
    IdsCount(r, calculate);
  }

  // ---- Children that have died ----

  ghost predicate StoppedAreDead(s: State) {
    forall g :: 0 <= g < |s.processes| && (s.processes[g].stopping || s.processes[g].reaped) ==> !s.processes[g].alive
  }

  // A child that has died stays dead, and neither reads nor writes another line.
  ghost predicate StaysSilent(s: State, t: State) {
    && |s.processes| <= |t.processes|
    && forall g :: 0 <= g < |s.processes| && !s.processes[g].alive ==>
         !t.processes[g].alive && t.processes[g].produced == s.processes[g].produced && t.processes[g].written == s.processes[g].written
  }

  lemma DeadStep(s: State, l: Label, calculate: Payload -> Outcome)
    requires StoppedAreDead(s) && Enabled(s, l, calculate)
    ensures StoppedAreDead(Apply(s, l, calculate)) && StaysSilent(s, Apply(s, l, calculate))
    ensures l.Child? && l.child.Die? ==> !Apply(s, l, calculate).processes[l.generation].alive
  {
    hide ApplyCall, ApplyExchange, ApplyStop, ApplyClose, ApplyRead, ApplyChild, CallEnabled, ExchangeEnabled, StopEnabled, CloseEnabled, ReadEnabled;
    match l
    case Call(k) => CallFrame(s, k);
    case Exchange(k) => ExchangeFrame(s, k);
    case Stop(k) => StopStepFrame(s, k);
    case Close(k) => CloseFrame(s, k);
    case Read(k) => ReadFrame(s, k, calculate);
    case Child(g, k) => ChildFrame(s, g, k);
  }

  lemma {:induction false} StoppedIsDead(r: Run, calculate: Payload -> Outcome)
    requires Valid(r, calculate)
    ensures StoppedAreDead(Last(r, calculate))
  {
    if r.Then? {
      hide Enabled, Apply, StoppedAreDead, StaysSilent;
      StoppedIsDead(r.before, calculate);
      DeadStep(Last(r.before, calculate), r.step, calculate);
    }
  }

  lemma {:induction false} SilentSince(r: Run, later: Run, calculate: Payload -> Outcome)
    requires Valid(r, calculate) && Valid(later, calculate) && Extends(r, later)
    ensures StaysSilent(Last(r, calculate), Last(later, calculate))
    decreases later
  {
    if later != r {
      SilentSince(r, later.before, calculate);
      StoppedIsDead(later.before, calculate);
      hide Enabled, Apply, StoppedAreDead;
      DeadStep(Last(later.before, calculate), later.step, calculate);
    }
  }

  // Main result: a child that is stopped, reaped or has died reads and writes nothing more in any later part of the run.
  lemma DeadForGood(r: Run, later: Run, g: Generation, calculate: Payload -> Outcome)
    requires Valid(r, calculate) && Valid(later, calculate) && Extends(r, later) && g < |Last(r, calculate).processes|
    requires var p := Last(r, calculate).processes[g]; p.stopping || p.reaped || (r.Then? && r.step == Child(g, Die))
    ensures g < |Last(later, calculate).processes|
    ensures var p, q := Last(r, calculate).processes[g], Last(later, calculate).processes[g];
            !q.alive && q.produced == p.produced && q.written == p.written
  {
    StoppedIsDead(r, calculate);
    SilentSince(r, later, calculate);
    if r.Then? && r.step == Child(g, Die) {
      StoppedIsDead(r.before, calculate);
      DeadStep(Last(r.before, calculate), r.step, calculate);
    }
  }

  // ---- Cancelling and closing ----

  predicate Cancels(l: Label) {
    l == Close(ParentCancelled) || l == Close(CloseBegins)
  }

  predicate EverCancelled(r: Run) {
    r.Then? && (Cancels(r.step) || EverCancelled(r.before))
  }

  lemma CancelStep(s: State, l: Label, calculate: Payload -> Outcome)
    requires Enabled(s, l, calculate)
    ensures Apply(s, l, calculate).cancelled <==> s.cancelled || Cancels(l)
  {
    hide ApplyCall, ApplyExchange, ApplyStop, ApplyClose, ApplyRead, ApplyChild,
         CallEnabled, ExchangeEnabled, StopEnabled, CloseEnabled, ReadEnabled, ChildEnabled, KeptOrStopped;
    match l
    case Call(k) => CallFrame(s, k);
    case Exchange(k) => ExchangeFrame(s, k);
    case Stop(k) => StopStepFrame(s, k);
    case Close(k) => CloseFrame(s, k);
    case Read(k) => ReadFrame(s, k, calculate);
    case Child(g, k) => ChildFrame(s, g, k);
  }

  // The supervisor is cancelled exactly when its parent was or close has begun; from then on no call gets past its check.
  lemma {:induction false} CancelledExactly(r: Run, calculate: Payload -> Outcome)
    requires Valid(r, calculate)
    ensures Last(r, calculate).cancelled <==> EverCancelled(r)
    ensures EverCancelled(r) ==> !Enabled(Last(r, calculate), Call(CheckPasses), calculate)
  {
    if r.Then? {
      hide Apply;
      CancelledExactly(r.before, calculate);
      CancelStep(Last(r.before, calculate), r.step, calculate);
    }
  }

  // How close ends: well when the last child has been reaped, badly when one of its two waits times out.
  lemma CloseEndsExactly(s: State, l: Label, calculate: Payload -> Outcome)
    requires Invariant(s, calculate) && Enabled(s, l, calculate) && !s.closing.Closed?
    ensures Apply(s, l, calculate).closing == Closed(true) <==> l == Stop(RecycleDone) && s.gate.Closing?
    ensures Apply(s, l, calculate).closing == Closed(false) <==> l == Close(CloseTimesOut) || (l == Stop(RecycleTimesOut) && s.gate.Closing?)
  {
    hide Invariant, ApplyCall, ApplyExchange, ApplyStop, ApplyClose, ApplyRead, ApplyChild,
         CallEnabled, ExchangeEnabled, StopEnabled, CloseEnabled, ReadEnabled, ChildEnabled, KeptOrStopped;
    match l
    case Call(k) => CallFrame(s, k);
    case Exchange(k) => ExchangeFrame(s, k);
    case Stop(k) => StopStepFrame(s, k);
    case Close(k) => CloseFrame(s, k);
    case Read(k) => ReadFrame(s, k, calculate);
    case Child(g, k) => ChildFrame(s, g, k);
  }

  lemma ClosingCanEnd(r: Run, s: Run, calculate: Payload -> Outcome) returns (t: Run)
    requires Valid(s, calculate) && OwnSteps(r, s) && Last(s, calculate).gate.Closing? && WellFormed(Last(s, calculate))
    requires var u := Last(s, calculate); u.current.Some? ==> u.processes[u.current.value].stopping
    ensures Valid(t, calculate) && OwnSteps(r, t) && Last(t, calculate).closing == Closed(true)
  {
    hide Valid, Last, OwnSteps;
    t := s;
    if Last(s, calculate).current.Some? {
      t := More(r, t, Child(Last(s, calculate).current.value, Reap), calculate);
    }
    t := More(r, t, Stop(RecycleDone), calculate);
  }

  lemma StopStops(s: State)
    requires WellFormed(s)
    ensures OnlyStops(s, StopCurrent(s)) && (s.current.Some? ==> StopCurrent(s).processes[s.current.value].stopping)
  {
  }

  lemma RunIsWellFormed(r: Run, calculate: Payload -> Outcome)
    requires Valid(r, calculate)
    ensures WellFormed(Last(r, calculate))
  {
    RunKeepsInvariant(r, calculate);
  }

  // Main result: once close waits for the gate and the gate is free, it can return nil. (The gate can become free, by
  // HolderCanReturn.)
  lemma CloseCanSucceed(r: Run, calculate: Payload -> Outcome) returns (t: Run)
    requires Valid(r, calculate) && Last(r, calculate).closing.WaitingForGate? && Last(r, calculate).gate.Free?
    ensures Valid(t, calculate) && OwnSteps(r, t) && Last(t, calculate).closing == Closed(true)
  {
    RunIsWellFormed(r, calculate);
    NoneYet(r);
    hide Valid, Last, OwnSteps, StopCurrent;
    StopStops(Last(r, calculate).(gate := Closing, closing := Recovering));
    t := More(r, r, Close(CloseTakesGate), calculate);
    t := ClosingCanEnd(r, t, calculate);
  }

  // ---- What the surroundings decide ----

  // Children die, goroutines fail, callers give up and waits time out at any moment; the model rules none of it out.
  lemma AnythingCanFail(s: State, calculate: Payload -> Outcome)
    requires WellFormed(s)
    ensures Enabled(s, Close(ParentCancelled), calculate) && (s.closing.WaitingForGate? ==> Enabled(s, Close(CloseTimesOut), calculate))
    ensures forall g :: 0 <= g < |s.processes| ==> Enabled(s, Child(g, Die), calculate)
    ensures s.reader.Some? && !s.reader.value.stage.Done? ==> Enabled(s, Read(Fail), calculate)
    ensures s.gate.Calculating? && s.gate.phase.Waiting? ==> Enabled(s, Exchange(CancelExchange), calculate)
    ensures s.gate.Calculating? && s.gate.phase.Responding? ==> Enabled(s, Exchange(RespondFails), calculate)
    ensures InPhase(s, Checking) ==> Enabled(s, Call(CheckFails), calculate)
    ensures InPhase(s, Sending) ==> Enabled(s, Call(SendFails), calculate)
    ensures InPhase(s, Starting) && s.current.None? ==> Enabled(s, Call(StartFails), calculate) && Enabled(s, Call(StartAborted), calculate)
    ensures IsRecycling(s) && s.current.Some? ==> Enabled(s, Stop(RecycleTimesOut), calculate)
    ensures forall c, payload :: c !in s.payloads ==> Enabled(s, Call(GiveUpBeforeGate(c, payload)), calculate)
  {
  }

  // Without a child there is nothing to wait for.
  lemma NothingToWaitFor(s: State, calculate: Payload -> Outcome)
    requires WellFormed(s) && IsRecycling(s) && s.current.None?
    ensures Enabled(s, Stop(RecycleDone), calculate) && !Enabled(s, Stop(RecycleTimesOut), calculate)
  {
  }

  // A reply with another id would cost the child, and fail the call.
  lemma MismatchRecycles(s: State, calculate: Payload -> Outcome)
    requires Enabled(s, Exchange(Respond), calculate) && s.gate.phase.reply.id != Some(s.gate.phase.id)
    ensures var t := Apply(s, Exchange(Respond), calculate);
            && t.gate == s.gate.(phase := Recycling(ThenFail)) && t.returned == s.returned && |t.processes| == |s.processes|
            && (s.current.Some? ==> t.processes[s.current.value].stopping && !t.processes[s.current.value].alive)
  {
  }
}
