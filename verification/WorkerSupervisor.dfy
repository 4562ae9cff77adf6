/**
The supervisor of the Python worker in algorithm_server/go/algorithm/worker.go: the one-slot gate, the process
generations, the goroutine that writes one request line and scans one reply line, cancellation, recycling and
closing. A state records one goroutine's progress per actor; a label says which actor moves and what its
surroundings decide. Timeouts, cancellations, failing writes and dying processes can happen at any moment.
*/
module WorkerSupervisor {
  import opened Wrappers
  import opened PythonLoop

  type CallId = nat
  type Generation = nat

  // One child process and its two pipes.
  datatype Process = Process(
    written: seq<Line>,   // complete request lines written to stdin
    produced: nat,        // reply lines the Python loop has written to stdout
    consumed: nat,        // reply lines the supervisor has scanned
    alive: bool,
    stopping: bool,       // stop has been called: pipes closed, child killed
    reaped: bool)

  // The goroutine started by calculate; `done` is a channel of capacity one.
  datatype Stage = Writing | Scanning | Done(reply: Option<Reply>)
  datatype Reader = Reader(generation: Generation, line: Line, stage: Stage)

  datatype AfterRecycle = ThenStart | ThenDrain | ThenFail

  // What the holder of the gate does next.
  datatype Phase =
    | Checking                         // has just taken the gate
    | Inspecting                       // looks for a process that is being stopped
    | Starting
    | Sending
    | Waiting(id: nat)                 // the select on cancellation and the goroutine's result
    | Responding(id: nat, reply: Reply)
    | Recycling(next: AfterRecycle)    // stop has been called and waits for the child to be reaped
    | Draining                         // waits for the goroutine before giving the gate back

  datatype Gate = Free | Calculating(call: CallId, payload: Payload, phase: Phase) | Closing

  datatype CloseState = Open | WaitingForGate | Recovering | Closed(ok: bool)

  datatype Returned = Succeeded(value: string) | Failed

  datatype State = State(
    processes: seq<Process>,           // every generation ever started
    current: Option<Generation>,       // w.process
    gate: Gate,
    reader: Option<Reader>,
    cancelled: bool,                   // w.ctx
    closing: CloseState,
    nextId: nat,
    payloads: map<CallId, Payload>,    // what each call was given
    returned: map<CallId, Returned>)   // what each finished call returned

  const NewProcess := Process([], 0, 0, true, false, false)

  // startPythonWorker has started the first child.
  const Initial := State([NewProcess], Some(0), Free, None, false, Open, 0, map[], map[])

  // The caller of calculate, up to the request line; the caller's own context may end at any point.
  datatype CallStep =
    | GiveUpBeforeGate(call: CallId, payload: Payload)
    | TakeGate(call: CallId, payload: Payload)
    | CheckFails
    | CheckPasses
    | Inspect
    | StartNotNeeded
    | StartAborted
    | StartFails
    | StartSucceeds
    | SendFails                // the evidence file cannot be written
    | Send

  // The caller, once its goroutine is running.
  datatype ExchangeStep =
    | TakeResult
    | CancelExchange
    | RespondFails             // the evidence file cannot be written
    | Respond
    | Drain

  // The wait of workerProcess.stop inside recycle.
  datatype RecycleStep = RecycleDone | RecycleTimesOut

  datatype CloseStep = ParentCancelled | CloseBegins | CloseTakesGate | CloseTimesOut

  // The goroutine that writes one line and scans one line.
  datatype ReaderStep = Write | Scan | Fail

  // A child process and the operating system.
  datatype ChildStep = WriteReply | Die | Reap

  datatype Label =
    | Call(call: CallStep)
    | Exchange(exchange: ExchangeStep)
    | Stop(stop: RecycleStep)
    | Close(close: CloseStep)
    | Read(read: ReaderStep)
    | Child(generation: Generation, child: ChildStep)

  predicate InPhase(s: State, phase: Phase) {
    s.gate.Calculating? && s.gate.phase == phase
  }

  predicate IsRecycling(s: State) {
    (s.gate.Calculating? && s.gate.phase.Recycling?) || s.gate.Closing?
  }

  // References to generations are to generations that exist.
  predicate WellFormed(s: State) {
    && (s.current.Some? ==> s.current.value < |s.processes|)
    && (s.reader.Some? ==> s.reader.value.generation < |s.processes|)
  }

  function Release(s: State, r: Returned): State
    requires s.gate.Calculating?
  {
    s.(gate := Free, returned := s.returned[s.gate.call := r])
  }

  function Goto(s: State, phase: Phase): State
    requires s.gate.Calculating?
  {
    s.(gate := s.gate.(phase := phase))
  }

  function SetProcess(s: State, g: Generation, p: Process): State
    requires g < |s.processes|
  {
    s.(processes := s.processes[g := p])
  }

  // workerProcess.stop up to its wait: the pipes are closed and the child is killed.
  function StopCurrent(s: State): State
    requires WellFormed(s)
  {
    if s.current.None? then s
    else SetProcess(s, s.current.value, s.processes[s.current.value].(stopping := true, alive := false))
  }

  function Recycle(s: State, next: AfterRecycle): State
    requires WellFormed(s) && s.gate.Calculating?
  {
    StopCurrent(Goto(s, Recycling(next)))
  }

  predicate CallEnabled(s: State, l: CallStep)
    requires WellFormed(s)
  {
    match l
    case GiveUpBeforeGate(call, _) => call !in s.payloads
    case TakeGate(call, _) => s.gate.Free? && call !in s.payloads
    case CheckFails => InPhase(s, Checking)
    case CheckPasses => InPhase(s, Checking) && !s.cancelled
    case Inspect => InPhase(s, Inspecting)
    case StartNotNeeded => InPhase(s, Starting) && s.current.Some?
    case StartAborted => InPhase(s, Starting) && s.current.None?
    case StartFails => InPhase(s, Starting) && s.current.None?
    case StartSucceeds => InPhase(s, Starting) && s.current.None?
    case SendFails => InPhase(s, Sending)
    case Send => InPhase(s, Sending) && s.current.Some?
  }

  function ApplyCall(s: State, l: CallStep): State
    requires WellFormed(s) && CallEnabled(s, l)
  {
    match l
    case GiveUpBeforeGate(call, payload) =>
      s.(payloads := s.payloads[call := payload], returned := s.returned[call := Failed])
    case TakeGate(call, payload) =>
      s.(payloads := s.payloads[call := payload], gate := Calculating(call, payload, Checking))
    case CheckFails => Release(s, Failed)
    case CheckPasses => Goto(s, Inspecting)
    case Inspect =>
      if s.current.Some? && s.processes[s.current.value].stopping then Recycle(s, ThenStart) else Goto(s, Starting)
    case StartNotNeeded => Goto(s, Sending)
    case StartAborted => Release(s, Failed)
    case StartFails => Release(s, Failed)
    case StartSucceeds => Goto(s.(processes := s.processes + [NewProcess], current := Some(|s.processes|)), Sending)
    case SendFails => Release(s.(nextId := s.nextId + 1), Failed)
    case Send =>
      Goto(s.(nextId := s.nextId + 1,
              reader := Some(Reader(s.current.value, Request(s.nextId + 1, s.gate.payload), Writing))),
           Waiting(s.nextId + 1))
  }

  predicate ExchangeEnabled(s: State, l: ExchangeStep) {
    && s.gate.Calculating?
    && match l
       case TakeResult => s.gate.phase.Waiting? && s.reader.Some? && s.reader.value.stage.Done?
       case CancelExchange => s.gate.phase.Waiting?
       case RespondFails => s.gate.phase.Responding?
       case Respond => s.gate.phase.Responding?
       case Drain => s.gate.phase.Draining? && s.reader.Some? && s.reader.value.stage.Done?
  }

  function ApplyExchange(s: State, l: ExchangeStep): State
    requires WellFormed(s) && ExchangeEnabled(s, l)
  {
    match l
    case TakeResult =>
      var s' := s.(reader := None);
      (match s.reader.value.stage.reply
       case None => Recycle(s', ThenFail)
       case Some(reply) => Goto(s', Responding(s.gate.phase.id, reply)))
    case CancelExchange => Recycle(s, ThenDrain)
    case RespondFails => Release(s, Failed)
    case Respond =>
      if s.gate.phase.reply.id != Some(s.gate.phase.id) then Recycle(s, ThenFail)
      else if s.gate.phase.reply.outcome.Error? then Release(s, Failed)
      else Release(s, Succeeded(s.gate.phase.reply.outcome.value))
    case Drain => Release(s.(reader := None), Failed)
  }

  predicate StopEnabled(s: State, l: RecycleStep)
    requires WellFormed(s)
  {
    match l
    case RecycleDone => IsRecycling(s) && (s.current.Some? ==> s.processes[s.current.value].reaped)
    case RecycleTimesOut => IsRecycling(s) && s.current.Some?
  }

  function ApplyStop(s: State, l: RecycleStep): State
    requires WellFormed(s) && StopEnabled(s, l)
  {
    match l
    case RecycleDone =>
      var s' := s.(current := None);
      if s.gate.Closing? then s'.(gate := Free, closing := Closed(true))
      else (match s.gate.phase.next
            case ThenStart => Goto(s', Starting)
            case ThenDrain => Goto(s', Draining)
            case ThenFail => Release(s', Failed))
    case RecycleTimesOut =>
      if s.gate.Closing? then s.(gate := Free, closing := Closed(false))
      else if s.gate.phase.next.ThenDrain? then Goto(s, Draining)
      else Release(s, Failed)
  }

  predicate CloseEnabled(s: State, l: CloseStep) {
    match l
    case ParentCancelled => true
    case CloseBegins => s.closing.Open?
    case CloseTakesGate => s.closing.WaitingForGate? && s.gate.Free?
    case CloseTimesOut => s.closing.WaitingForGate?
  }

  function ApplyClose(s: State, l: CloseStep): State
    requires WellFormed(s) && CloseEnabled(s, l)
  {
    match l
    case ParentCancelled => s.(cancelled := true)
    case CloseBegins => s.(cancelled := true, closing := WaitingForGate)
    case CloseTakesGate => StopCurrent(s.(gate := Closing, closing := Recovering))
    case CloseTimesOut => s.(closing := Closed(false))
  }

  predicate ReadEnabled(s: State, l: ReaderStep, calculate: Payload -> Outcome)
    requires WellFormed(s)
  {
    && s.reader.Some?
    && var p := s.processes[s.reader.value.generation];
       match l
       case Write => s.reader.value.stage.Writing? && p.alive && !p.stopping
       case Scan => s.reader.value.stage.Scanning? && p.consumed < p.produced <= |Replies(p.written, calculate)|
       case Fail => !s.reader.value.stage.Done?
  }

  function ApplyRead(s: State, l: ReaderStep, calculate: Payload -> Outcome): State
    requires WellFormed(s) && ReadEnabled(s, l, calculate)
  {
    var r := s.reader.value;
    var p := s.processes[r.generation];
    match l
    case Write =>
      SetProcess(s, r.generation, p.(written := p.written + [r.line])).(reader := Some(r.(stage := Scanning)))
    case Scan =>
      SetProcess(s, r.generation, p.(consumed := p.consumed + 1))
        .(reader := Some(r.(stage := Done(Some(Replies(p.written, calculate)[p.consumed])))))
    case Fail => s.(reader := Some(r.(stage := Done(None))))
  }

  predicate ChildEnabled(p: Process, l: ChildStep, calculate: Payload -> Outcome) {
    match l
    case WriteReply => p.alive && p.produced < |Replies(p.written, calculate)|
    case Die => true
    case Reap => p.stopping
  }

  function ApplyChild(p: Process, l: ChildStep): Process {
    match l
    case WriteReply => p.(produced := p.produced + 1)
    case Die => p.(alive := false)
    case Reap => p.(alive := false, reaped := true)
  }

  predicate Enabled(s: State, l: Label, calculate: Payload -> Outcome) {
    && WellFormed(s)
    && match l
       case Call(l) => CallEnabled(s, l)
       case Exchange(l) => ExchangeEnabled(s, l)
       case Stop(l) => StopEnabled(s, l)
       case Close(l) => CloseEnabled(s, l)
       case Read(l) => ReadEnabled(s, l, calculate)
       case Child(g, l) => g < |s.processes| && ChildEnabled(s.processes[g], l, calculate)
  }

  function Apply(s: State, l: Label, calculate: Payload -> Outcome): State
    requires Enabled(s, l, calculate)
  {
    match l
    case Call(l) => ApplyCall(s, l)
    case Exchange(l) => ApplyExchange(s, l)
    case Stop(l) => ApplyStop(s, l)
    case Close(l) => ApplyClose(s, l)
    case Read(l) => ApplyRead(s, l, calculate)
    case Child(g, l) => SetProcess(s, g, ApplyChild(s.processes[g], l))
  }

  // ---- The invariant, one clause per concern ----

  // Every generation but the current one has been reaped.
  ghost predicate OneChild(s: State) {
    && WellFormed(s)
    && (forall g :: 0 <= g < |s.processes| && !s.processes[g].reaped ==> s.current == Some(g))
    && (forall g :: 0 <= g < |s.processes| && s.processes[g].reaped ==> s.processes[g].stopping)
    && (IsRecycling(s) && s.current.Some? ==> s.processes[s.current.value].stopping)
    && (s.gate.Calculating? && (s.gate.phase.Sending? || s.gate.phase.Waiting? || s.gate.phase.Responding?) ==> s.current.Some?)
    && (s.gate.Calculating? && s.current.Some?
        && (s.gate.phase.Starting? || s.gate.phase.Sending? || s.gate.phase.Waiting? || s.gate.phase.Responding?)
        ==> !s.processes[s.current.value].stopping)
    && (s.gate.Calculating? && s.gate.phase.Draining? && s.current.Some? ==> s.processes[s.current.value].stopping)
  }

  // Only request lines are ever written, and replies follow them in order.
  ghost predicate Streams(s: State) {
    forall g :: 0 <= g < |s.processes| ==>
      var p := s.processes[g];
      && (forall k :: 0 <= k < |p.written| ==> p.written[k].Request?)
      && p.consumed <= p.produced <= |p.written|
  }

  // The replies of a process that may be used again are all consumed, except the one being waited for.
  ghost predicate InStep(s: State) {
    s.current.Some? && s.current.value < |s.processes| && !s.processes[s.current.value].stopping && s.reader.None? ==>
      s.processes[s.current.value].consumed == |s.processes[s.current.value].written|
  }

  // The goroutine exists exactly while its caller holds the gate and has not collected its result.
  ghost predicate ReaderHeld(s: State) {
    && (s.reader.Some? <==>
          s.gate.Calculating? && (s.gate.phase.Waiting? || s.gate.phase == Recycling(ThenDrain) || s.gate.phase.Draining?))
  }

  // Where its exchange stands, and what it brings back.
  ghost predicate ReaderOwned(s: State, calculate: Payload -> Outcome) {
    && (s.reader.Some? ==>
          var r := s.reader.value;
          && r.generation < |s.processes| && s.gate.Calculating?
          && r.line.Request? && r.line.payload == s.gate.payload
          && (s.gate.phase.Waiting? ==> s.current == Some(r.generation) && r.line.id == s.gate.phase.id)
          && (s.gate.phase.Draining? || s.gate.phase.Recycling? ==> s.processes[r.generation].stopping)
          && var p := s.processes[r.generation];
             match r.stage
             case Writing => p.consumed == |p.written|
             case Scanning => p.consumed + 1 == |p.written| && p.written[|p.written| - 1] == r.line
             case Done(None) => true
             case Done(Some(reply)) => p.consumed == |p.written| && reply == Answer(r.line, calculate))
  }

  // The reply a caller is about to examine answers that caller's own request.
  ghost predicate ReplyOwned(s: State, calculate: Payload -> Outcome) {
    s.gate.Calculating? && s.gate.phase.Responding? ==>
      s.gate.phase.reply == Answer(Request(s.gate.phase.id, s.gate.payload), calculate)
  }

  // Calls get answers to their own payloads.
  ghost predicate OwnAnswers(s: State, calculate: Payload -> Outcome) {
    && (forall c :: c in s.returned ==> c in s.payloads)
    && (forall c :: c in s.returned && s.returned[c].Succeeded? ==> calculate(s.payloads[c]) == Result(s.returned[c].value))
    && (s.gate.Calculating? ==> s.gate.call in s.payloads && s.payloads[s.gate.call] == s.gate.payload && s.gate.call !in s.returned)
  }

  ghost predicate CloseIsFinal(s: State) {
    && (!s.closing.Open? ==> s.cancelled)
    && (s.gate.Closing? <==> s.closing.Recovering?)
    && (s.closing == Closed(true) ==> s.current.None? && (s.gate.Free? || InPhase(s, Checking)))
  }

  ghost predicate Aligned(s: State, calculate: Payload -> Outcome) {
    OneChild(s) && Streams(s) && InStep(s) && ReaderHeld(s) && ReaderOwned(s, calculate) && ReplyOwned(s, calculate)
  }

  ghost predicate Settled(s: State, calculate: Payload -> Outcome) {
    OwnAnswers(s, calculate) && CloseIsFinal(s)
  }

  ghost predicate Invariant(s: State, calculate: Payload -> Outcome) {
    Aligned(s, calculate) && Settled(s, calculate)
  }

  // Recycling stops the current child, so nothing is expected of its streams any more.
  lemma RecycleKeepsStreams(s: State, next: AfterRecycle)
    requires OneChild(s) && Streams(s) && s.gate.Calculating?
    ensures OneChild(Recycle(s, next)) && Streams(Recycle(s, next)) && InStep(Recycle(s, next))
  {
  }

  lemma ReleaseKeepsStreams(s: State, r: Returned)
    requires OneChild(s) && Streams(s) && InStep(s) && s.gate.Calculating?
    ensures OneChild(Release(s, r)) && Streams(Release(s, r)) && InStep(Release(s, r))
  {
  }

  lemma CallKeepsStreams(s: State, l: CallStep, calculate: Payload -> Outcome)
    requires Aligned(s, calculate) && CallEnabled(s, l)
    ensures OneChild(ApplyCall(s, l)) && Streams(ApplyCall(s, l)) && InStep(ApplyCall(s, l))
  {
    hide ReaderOwned, ReplyOwned, Recycle, Release;
    match l
    case CheckFails => ReleaseKeepsStreams(s, Failed);
    case Inspect => RecycleKeepsStreams(s, ThenStart);
    case StartAborted => ReleaseKeepsStreams(s, Failed);
    case StartFails => ReleaseKeepsStreams(s, Failed);
    case SendFails => ReleaseKeepsStreams(s.(nextId := s.nextId + 1), Failed);
    case StartSucceeds => StartKeepsStreams(s);
    case _ => hide StopCurrent;
  }

  lemma StartKeepsStreams(s: State)
    requires OneChild(s) && Streams(s) && CallEnabled(s, StartSucceeds)
    ensures OneChild(ApplyCall(s, StartSucceeds)) && Streams(ApplyCall(s, StartSucceeds)) && InStep(ApplyCall(s, StartSucceeds))
  {
  }

  lemma CallKeepsReplies(s: State, l: CallStep, calculate: Payload -> Outcome)
    requires Aligned(s, calculate) && CallEnabled(s, l)
    ensures ReaderHeld(ApplyCall(s, l)) && ReaderOwned(ApplyCall(s, l), calculate) && ReplyOwned(ApplyCall(s, l), calculate)
  {
  }

  lemma CallKeepsAligned(s: State, l: CallStep, calculate: Payload -> Outcome)
    requires Aligned(s, calculate) && CallEnabled(s, l)
    ensures Aligned(ApplyCall(s, l), calculate)
  {
    hide OneChild, Streams, InStep, ReaderHeld, ReaderOwned, ReplyOwned, ApplyCall, CallEnabled;
    CallKeepsStreams(s, l, calculate);
    CallKeepsReplies(s, l, calculate);
  }

  // With the goroutine's result collected, everything but the reader is as before.
  lemma CollectedKeepsStreams(s: State)
    requires OneChild(s) && Streams(s)
    ensures OneChild(s.(reader := None)) && Streams(s.(reader := None))
  {
  }

  lemma TakeResultKeepsStreams(s: State, calculate: Payload -> Outcome)
    requires Aligned(s, calculate) && ExchangeEnabled(s, TakeResult)
    ensures OneChild(ApplyExchange(s, TakeResult)) && Streams(ApplyExchange(s, TakeResult)) && InStep(ApplyExchange(s, TakeResult))
  {
    hide ReplyOwned, ReaderHeld;
    CollectedKeepsStreams(s);
    if s.reader.value.stage.reply.None? {
      hide OneChild, Streams, InStep, ReaderOwned;
      RecycleKeepsStreams(s.(reader := None), ThenFail);
    }
  }

  lemma ExchangeKeepsStreams(s: State, l: ExchangeStep, calculate: Payload -> Outcome)
    requires Aligned(s, calculate) && ExchangeEnabled(s, l)
    ensures OneChild(ApplyExchange(s, l)) && Streams(ApplyExchange(s, l)) && InStep(ApplyExchange(s, l))
  {
    hide OneChild, Streams, ReaderOwned, ReplyOwned, Recycle, Release;
    match l
    case TakeResult => TakeResultKeepsStreams(s, calculate);
    case CancelExchange => RecycleKeepsStreams(s, ThenDrain);
    case RespondFails => ReleaseKeepsStreams(s, Failed);
    case Respond =>
      RecycleKeepsStreams(s, ThenFail);
      ReleaseKeepsStreams(s, Failed);
      if s.gate.phase.reply.outcome.Result? { ReleaseKeepsStreams(s, Succeeded(s.gate.phase.reply.outcome.value)); }
    case Drain => DrainKeepsStreams(s);
  }

  lemma DrainKeepsStreams(s: State)
    requires OneChild(s) && Streams(s) && ExchangeEnabled(s, Drain)
    ensures OneChild(ApplyExchange(s, Drain)) && Streams(ApplyExchange(s, Drain)) && InStep(ApplyExchange(s, Drain))
  {
    hide Streams;
    CollectedKeepsStreams(s);
    ReleaseKeepsStreams(s.(reader := None), Failed);
  }

  lemma ExchangeKeepsReplies(s: State, l: ExchangeStep, calculate: Payload -> Outcome)
    requires Aligned(s, calculate) && ExchangeEnabled(s, l)
    ensures ReaderHeld(ApplyExchange(s, l)) && ReaderOwned(ApplyExchange(s, l), calculate) && ReplyOwned(ApplyExchange(s, l), calculate)
  {
  }

  lemma ExchangeKeepsAligned(s: State, l: ExchangeStep, calculate: Payload -> Outcome)
    requires Aligned(s, calculate) && ExchangeEnabled(s, l)
    ensures Aligned(ApplyExchange(s, l), calculate)
  {
    hide OneChild, Streams, InStep, ReaderHeld, ReaderOwned, ReplyOwned, ApplyExchange, ExchangeEnabled;
    ExchangeKeepsStreams(s, l, calculate);
    ExchangeKeepsReplies(s, l, calculate);
  }

  lemma StopKeepsStreams(s: State, l: RecycleStep, calculate: Payload -> Outcome)
    requires Aligned(s, calculate) && StopEnabled(s, l)
    ensures OneChild(ApplyStop(s, l)) && Streams(ApplyStop(s, l)) && InStep(ApplyStop(s, l))
  {
    match l
    case RecycleDone =>
      if s.gate.Calculating? {
        match s.gate.phase.next
        case ThenStart =>
        case ThenDrain =>
        case ThenFail =>
      }
    case RecycleTimesOut =>
      if s.gate.Calculating? && s.gate.phase.next.ThenDrain? { }
  }

  lemma StopKeepsReplies(s: State, l: RecycleStep, calculate: Payload -> Outcome)
    requires Aligned(s, calculate) && StopEnabled(s, l)
    ensures ReaderHeld(ApplyStop(s, l)) && ReaderOwned(ApplyStop(s, l), calculate) && ReplyOwned(ApplyStop(s, l), calculate)
  {
    match l
    case RecycleDone =>
      if s.gate.Calculating? {
        match s.gate.phase.next
        case ThenStart =>
        case ThenDrain =>
        case ThenFail =>
      }
    case RecycleTimesOut =>
      if s.gate.Calculating? && s.gate.phase.next.ThenDrain? { }
  }

  lemma StopKeepsAligned(s: State, l: RecycleStep, calculate: Payload -> Outcome)
    requires Aligned(s, calculate) && StopEnabled(s, l)
    ensures Aligned(ApplyStop(s, l), calculate)
  {
    hide OneChild, Streams, InStep, ReaderHeld, ReaderOwned, ReplyOwned, ApplyStop, StopEnabled;
    StopKeepsStreams(s, l, calculate);
    StopKeepsReplies(s, l, calculate);
  }

  lemma CloseKeepsAligned(s: State, l: CloseStep, calculate: Payload -> Outcome)
    requires Aligned(s, calculate) && CloseEnabled(s, l)
    ensures Aligned(ApplyClose(s, l), calculate)
  {
  }

  lemma ReadKeepsAligned(s: State, l: ReaderStep, calculate: Payload -> Outcome)
    requires Aligned(s, calculate) && ReadEnabled(s, l, calculate)
    ensures Aligned(ApplyRead(s, l, calculate), calculate)
  {
    hide OneChild, Streams, InStep, ReaderHeld, ReaderOwned, ReplyOwned, ApplyRead;
    ReadKeepsStreams(s, l, calculate);
    ReadKeepsReplies(s, l, calculate);
  }

  lemma ReadKeepsStreams(s: State, l: ReaderStep, calculate: Payload -> Outcome)
    requires Aligned(s, calculate) && ReadEnabled(s, l, calculate)
    ensures OneChild(ApplyRead(s, l, calculate)) && Streams(ApplyRead(s, l, calculate)) && InStep(ApplyRead(s, l, calculate))
  {
    hide ReplyOwned, ReaderHeld, Answer;
    RequestsAnswered(s.processes[s.reader.value.generation].written, calculate);
  }

  lemma ReadKeepsReplies(s: State, l: ReaderStep, calculate: Payload -> Outcome)
    requires Aligned(s, calculate) && ReadEnabled(s, l, calculate)
    ensures var after := ApplyRead(s, l, calculate);
            ReaderHeld(after) && ReaderOwned(after, calculate) && ReplyOwned(after, calculate)
  {
    hide InStep;
    RequestsAnswered(s.processes[s.reader.value.generation].written, calculate);
  }

  lemma ChildKeepsAligned(s: State, g: Generation, l: ChildStep, calculate: Payload -> Outcome)
    requires Aligned(s, calculate) && g < |s.processes| && ChildEnabled(s.processes[g], l, calculate)
    ensures Aligned(SetProcess(s, g, ApplyChild(s.processes[g], l)), calculate)
  {
    hide OneChild, Streams, InStep, ReaderHeld, ReaderOwned, ReplyOwned;
    ChildKeepsStreams(s, g, l, calculate);
    ChildKeepsReplies(s, g, l, calculate);
  }

  lemma ChildKeepsStreams(s: State, g: Generation, l: ChildStep, calculate: Payload -> Outcome)
    requires Aligned(s, calculate) && g < |s.processes| && ChildEnabled(s.processes[g], l, calculate)
    ensures var after := SetProcess(s, g, ApplyChild(s.processes[g], l)); OneChild(after) && Streams(after) && InStep(after)
  {
    hide ReaderHeld, ReaderOwned, ReplyOwned;
    RequestsAnswered(s.processes[g].written, calculate);
  }

  lemma ChildKeepsReplies(s: State, g: Generation, l: ChildStep, calculate: Payload -> Outcome)
    requires Aligned(s, calculate) && g < |s.processes| && ChildEnabled(s.processes[g], l, calculate)
    ensures var after := SetProcess(s, g, ApplyChild(s.processes[g], l));
            ReaderHeld(after) && ReaderOwned(after, calculate) && ReplyOwned(after, calculate)
  {
    hide Streams, InStep;
  }

  lemma CallKeepsSettled(s: State, l: CallStep, calculate: Payload -> Outcome)
    requires Settled(s, calculate) && WellFormed(s) && CallEnabled(s, l)
    ensures Settled(ApplyCall(s, l), calculate)
  {
  }

  lemma ExchangeKeepsSettled(s: State, l: ExchangeStep, calculate: Payload -> Outcome)
    requires Settled(s, calculate) && ReplyOwned(s, calculate) && WellFormed(s) && ExchangeEnabled(s, l)
    ensures Settled(ApplyExchange(s, l), calculate)
  {
    hide Recycle, Release, OwnAnswers;
    match l
    case TakeResult => TakeResultKeepsSettled(s, calculate);
    case CancelExchange => RecycleKeepsSettled(s, ThenDrain, calculate);
    case RespondFails => ReleaseKeepsSettled(s, Failed, calculate);
    case Respond =>
      RecycleKeepsSettled(s, ThenFail, calculate);
      ReleaseKeepsSettled(s, Failed, calculate);
      if s.gate.phase.reply.outcome.Result? { ReleaseKeepsSettled(s, Succeeded(s.gate.phase.reply.outcome.value), calculate); }
    case Drain =>
      CollectedKeepsSettled(s, calculate);
      ReleaseKeepsSettled(s.(reader := None), Failed, calculate);
  }

  lemma TakeResultKeepsSettled(s: State, calculate: Payload -> Outcome)
    requires Settled(s, calculate) && WellFormed(s) && ExchangeEnabled(s, TakeResult)
    ensures Settled(ApplyExchange(s, TakeResult), calculate)
  {
    CollectedKeepsSettled(s, calculate);
    if s.reader.value.stage.reply.None? {
      hide Recycle, OwnAnswers;
      RecycleKeepsSettled(s.(reader := None), ThenFail, calculate);
    }
  }

  lemma CollectedKeepsSettled(s: State, calculate: Payload -> Outcome)
    requires Settled(s, calculate)
    ensures Settled(s.(reader := None), calculate)
  {
  }

  lemma RecycleKeepsSettled(s: State, next: AfterRecycle, calculate: Payload -> Outcome)
    requires Settled(s, calculate) && WellFormed(s) && s.gate.Calculating? && s.closing != Closed(true)
    ensures Settled(Recycle(s, next), calculate)
  {
  }

  lemma ReleaseKeepsSettled(s: State, r: Returned, calculate: Payload -> Outcome)
    requires Settled(s, calculate) && s.gate.Calculating?
    requires r.Succeeded? ==> calculate(s.gate.payload) == Result(r.value)
    ensures Settled(Release(s, r), calculate)
  {
  }

  lemma StopKeepsSettled(s: State, l: RecycleStep, calculate: Payload -> Outcome)
    requires Settled(s, calculate) && WellFormed(s) && StopEnabled(s, l)
    ensures Settled(ApplyStop(s, l), calculate)
  {
    match l
    case RecycleDone =>
      if s.gate.Calculating? {
        match s.gate.phase.next
        case ThenStart =>
        case ThenDrain =>
        case ThenFail =>
      }
    case RecycleTimesOut =>
      if s.gate.Calculating? && s.gate.phase.next.ThenDrain? { }
  }

  lemma CloseKeepsSettled(s: State, l: CloseStep, calculate: Payload -> Outcome)
    requires Settled(s, calculate) && WellFormed(s) && CloseEnabled(s, l)
    ensures Settled(ApplyClose(s, l), calculate)
  {
  }

  lemma StepKeepsInvariant(s: State, l: Label, calculate: Payload -> Outcome)
    requires Invariant(s, calculate) && Enabled(s, l, calculate)
    ensures Invariant(Apply(s, l, calculate), calculate)
  {
    match l
    case Call(l) => CallKeepsAligned(s, l, calculate); CallKeepsSettled(s, l, calculate);
    case Exchange(l) => ExchangeKeepsAligned(s, l, calculate); ExchangeKeepsSettled(s, l, calculate);
    case Stop(l) => StopKeepsAligned(s, l, calculate); StopKeepsSettled(s, l, calculate);
    case Close(l) => CloseKeepsAligned(s, l, calculate); CloseKeepsSettled(s, l, calculate);
    case Read(l) => ReadKeepsAligned(s, l, calculate);
    case Child(g, l) => ChildKeepsAligned(s, g, l, calculate);
  }

  // ---- Runs ----

  datatype Run = Started | Then(before: Run, step: Label)

  predicate Valid(r: Run, calculate: Payload -> Outcome)
    decreases r, 0
  {
    match r
    case Started => true
    case Then(before, l) => Valid(before, calculate) && Enabled(Last(before, calculate), l, calculate)
  }

  function Last(r: Run, calculate: Payload -> Outcome): State
    requires Valid(r, calculate)
    decreases r, 1
  {
    match r
    case Started => Initial
    case Then(before, l) => Apply(Last(before, calculate), l, calculate)
  }

  lemma {:induction false} RunKeepsInvariant(r: Run, calculate: Payload -> Outcome)
    requires Valid(r, calculate)
    ensures Invariant(Last(r, calculate), calculate)
  {
    match r
    case Started =>
    case Then(before, l) =>
      RunKeepsInvariant(before, calculate);
      StepKeepsInvariant(Last(before, calculate), l, calculate);
  }

  // Main result: in every run, a call that succeeds returns what the Python pipeline answers to that call's own
  // payload; and whenever the gate is free and the child is not being stopped, exactly as many reply lines have
  // been consumed as request lines written, and no goroutine is left that could take a later reply.
  lemma CallsGetTheirOwnAnswers(r: Run, calculate: Payload -> Outcome)
    requires Valid(r, calculate)
    ensures var s := Last(r, calculate);
            && (forall c :: c in s.returned && s.returned[c].Succeeded? ==>
                  c in s.payloads && calculate(s.payloads[c]) == Result(s.returned[c].value))
            && (s.gate.Free? ==> s.reader.None?)
            && (s.gate.Free? && s.current.Some? && s.current.value < |s.processes| ==>
                  var p := s.processes[s.current.value];
                  !p.stopping ==> p.consumed == p.produced == |p.written|)
  {
    RunKeepsInvariant(r, calculate);
  }

  // The protocol check never fires: a reply that is examined always carries the id that was sent.
  lemma ReplyIdAlwaysMatches(r: Run, calculate: Payload -> Outcome)
    requires Valid(r, calculate)
    ensures var s := Last(r, calculate);
            s.gate.Calculating? && s.gate.phase.Responding? ==> s.gate.phase.reply.id == Some(s.gate.phase.id)
  {
    RunKeepsInvariant(r, calculate);
  }

  // Main result: two children are never alive or unreaped together, and a new one is only started when every
  // earlier one has been reaped.
  lemma AtMostOneChild(r: Run, calculate: Payload -> Outcome)
    requires Valid(r, calculate)
    ensures var s := Last(r, calculate);
            && (forall g, h | 0 <= g < |s.processes| && 0 <= h < |s.processes| ::
                  !s.processes[g].reaped && !s.processes[h].reaped ==> g == h)
            && (Enabled(s, Call(StartSucceeds), calculate) ==>
                  forall g :: 0 <= g < |s.processes| ==> s.processes[g].reaped)
  {
    RunKeepsInvariant(r, calculate);
  }

  lemma ClosedStep(s: State, l: Label, calculate: Payload -> Outcome)
    requires Invariant(s, calculate) && Enabled(s, l, calculate) && s.closing == Closed(true)
    ensures Apply(s, l, calculate).closing == Closed(true)
    ensures |Apply(s, l, calculate).processes| == |s.processes|
  {
  }

  // Main result: once close has returned nil every child has been reaped, and whatever runs on afterwards
  // (callers waiting for the gate included) no child is ever started again.
  lemma {:induction false} ClosedForGood(r: Run, later: Run, calculate: Payload -> Outcome)
    requires Valid(later, calculate) && Extends(r, later) && Valid(r, calculate) && Last(r, calculate).closing == Closed(true)
    ensures var s, t := Last(r, calculate), Last(later, calculate);
            && t.closing == Closed(true) && t.current.None? && |t.processes| == |s.processes|
            && forall g :: 0 <= g < |t.processes| ==> t.processes[g].reaped
    decreases later
  {
    RunKeepsInvariant(later, calculate);
    if later != r {
      ClosedForGood(r, later.before, calculate);
      RunKeepsInvariant(later.before, calculate);
      ClosedStep(Last(later.before, calculate), later.step, calculate);
    }
  }

  // later is r followed by more steps.
  predicate Extends(r: Run, later: Run) {
    later == r || (later.Then? && Extends(r, later.before))
  }

  // ---- Calls fail for a reason ----

  predicate Failing(l: Label) {
    match l
    case Call(l) => l.CheckFails? || l.StartAborted? || l.StartFails? || l.SendFails?
    case Exchange(l) => l.CancelExchange? || l.RespondFails?
    case Stop(l) => l.RecycleTimesOut?
    case Close(_) => false
    case Read(l) => l.Fail?
    case Child(_, _) => false
  }

  // The step makes this call fail: its caller gives up, or a step fails while it holds the gate.
  predicate FailsFor(s: State, l: Label, c: CallId) {
    (l.Call? && l.call.GiveUpBeforeGate? && l.call.call == c) || (s.gate.Calculating? && s.gate.call == c && Failing(l))
  }

  predicate Excused(r: Run, c: CallId, calculate: Payload -> Outcome)
    requires Valid(r, calculate)
  {
    r.Then? && (Excused(r.before, c, calculate) || FailsFor(Last(r.before, calculate), r.step, c))
  }

  // What is on its way to fail the call has an excuse.
  predicate HeldExcused(s: State, c: CallId, excused: bool) {
    s.gate.Calculating? && s.gate.call == c
    && (s.gate.phase == Recycling(ThenFail) || s.gate.phase == Recycling(ThenDrain) || s.gate.phase.Draining?
        || (s.reader.Some? && s.reader.value.stage == Done(None)))
    ==> excused
  }

  predicate ReturnExcused(s: State, c: CallId, excused: bool, calculate: Payload -> Outcome) {
    c in s.returned && s.returned[c].Failed? ==> excused || (c in s.payloads && calculate(s.payloads[c]).Error?)
  }

  lemma ExcusedStep(s: State, l: Label, c: CallId, excused: bool, calculate: Payload -> Outcome)
    requires Invariant(s, calculate) && Enabled(s, l, calculate) && HeldExcused(s, c, excused) && ReturnExcused(s, c, excused, calculate)
    ensures HeldExcused(Apply(s, l, calculate), c, excused || FailsFor(s, l, c))
    ensures ReturnExcused(Apply(s, l, calculate), c, excused || FailsFor(s, l, c), calculate)
  {
    hide OneChild, Streams, InStep, ReaderOwned, CloseIsFinal, ApplyCall, ApplyExchange, ApplyStop, CallEnabled, ExchangeEnabled, StopEnabled;
    match l
    case Call(k) => ExcusedCall(s, k, c, excused, calculate);
    case Exchange(k) => ExcusedExchange(s, k, c, excused, calculate);
    case Stop(k) => ExcusedStop(s, k, c, excused, calculate);
    case Close(k) =>
    case Read(k) =>
    case Child(g, k) =>
  }

  lemma ExcusedCall(s: State, l: CallStep, c: CallId, excused: bool, calculate: Payload -> Outcome)
    requires Invariant(s, calculate) && WellFormed(s) && CallEnabled(s, l) && HeldExcused(s, c, excused) && ReturnExcused(s, c, excused, calculate)
    ensures HeldExcused(ApplyCall(s, l), c, excused || FailsFor(s, Call(l), c))
    ensures ReturnExcused(ApplyCall(s, l), c, excused || FailsFor(s, Call(l), c), calculate)
  {
    hide OneChild, Streams, InStep, ReaderOwned, ReplyOwned, CloseIsFinal, StopCurrent;
    match l
    case GiveUpBeforeGate(_, _) =>
    case TakeGate(_, _) =>
    case CheckFails =>
    case CheckPasses =>
    case Inspect => hide OwnAnswers; RecycleKeepsRest(s, ThenStart);
    case StartNotNeeded =>
    case StartAborted =>
    case StartFails =>
    case StartSucceeds =>
    case SendFails =>
    case Send =>
  }

  lemma ExcusedStop(s: State, l: RecycleStep, c: CallId, excused: bool, calculate: Payload -> Outcome)
    requires Invariant(s, calculate) && WellFormed(s) && StopEnabled(s, l) && HeldExcused(s, c, excused) && ReturnExcused(s, c, excused, calculate)
    ensures HeldExcused(ApplyStop(s, l), c, excused || FailsFor(s, Stop(l), c))
    ensures ReturnExcused(ApplyStop(s, l), c, excused || FailsFor(s, Stop(l), c), calculate)
  {
    hide OneChild, Streams, InStep, ReaderOwned, ReplyOwned, CloseIsFinal;
  }

  // Recycling changes the phase and the child only.
  lemma RecycleKeepsRest(s: State, next: AfterRecycle)
    requires WellFormed(s) && s.gate.Calculating?
    ensures Recycle(s, next) == s.(gate := s.gate.(phase := Recycling(next)), processes := Recycle(s, next).processes)
  {
  }

  lemma ExcusedExchange(s: State, l: ExchangeStep, c: CallId, excused: bool, calculate: Payload -> Outcome)
    requires Invariant(s, calculate) && WellFormed(s) && ExchangeEnabled(s, l) && HeldExcused(s, c, excused) && ReturnExcused(s, c, excused, calculate)
    ensures HeldExcused(ApplyExchange(s, l), c, excused || FailsFor(s, Exchange(l), c))
    ensures ReturnExcused(ApplyExchange(s, l), c, excused || FailsFor(s, Exchange(l), c), calculate)
  {
    hide OneChild, Streams, InStep, ReaderOwned, CloseIsFinal, Recycle;
    match l
    case TakeResult => RecycleKeepsRest(s.(reader := None), ThenFail);
    case CancelExchange => RecycleKeepsRest(s, ThenDrain);
    case RespondFails =>
    case Respond =>
    case Drain =>
  }

  lemma {:induction false} RunExcused(r: Run, c: CallId, calculate: Payload -> Outcome)
    requires Valid(r, calculate)
    ensures HeldExcused(Last(r, calculate), c, Excused(r, c, calculate))
    ensures ReturnExcused(Last(r, calculate), c, Excused(r, c, calculate), calculate)
  {
    if r.Then? {
      hide Invariant, Enabled, Apply, HeldExcused, ReturnExcused, FailsFor;
      RunKeepsInvariant(r.before, calculate);
      RunExcused(r.before, c, calculate);
      ExcusedStep(Last(r.before, calculate), r.step, c, Excused(r.before, c, calculate), calculate);
    }
  }

  // Main result: a call is answered with a failure only if its calculation is one, or something failed for it.
  lemma FailuresHaveReasons(r: Run, c: CallId, calculate: Payload -> Outcome)
    requires Valid(r, calculate)
    ensures var s := Last(r, calculate);
            c in s.returned && s.returned[c].Failed? && !Excused(r, c, calculate) ==> c in s.payloads && calculate(s.payloads[c]).Error?
  {
    hide HeldExcused;
    RunExcused(r, c, calculate);
  }

  // ---- Calls can succeed ----

  // One step more after r.
  lemma Step(r: Run, s: Run, l: Label, calculate: Payload -> Outcome) returns (t: Run)
    requires Valid(s, calculate) && Enabled(Last(s, calculate), l, calculate) && Extends(r, s)
    ensures t == Then(s, l) && Valid(t, calculate) && Last(t, calculate) == Apply(Last(s, calculate), l, calculate) && Extends(r, t)
  {
    t := Then(s, l);
  }

  ghost predicate Requests(lines: seq<Line>) {
    forall k :: 0 <= k < |lines| ==> lines[k].Request?
  }

  // The child is alive, not being stopped, and has nothing outstanding.
  ghost predicate InGoodOrder(p: Process) {
    p.alive && !p.stopping && p.consumed == p.produced == |p.written| && Requests(p.written)
  }

  // The goroutine of call c has been started for such a child.
  ghost predicate Sent(s: State, c: CallId, payload: Payload, g: Generation, id: nat) {
    && s.gate == Calculating(c, payload, Waiting(id)) && s.current == Some(g) && g < |s.processes|
    && s.reader == Some(Reader(g, Request(id, payload), Writing)) && InGoodOrder(s.processes[g])
  }

  // The request is written, answered and scanned.
  lemma LineAnswered(r: Run, s: Run, c: CallId, payload: Payload, g: Generation, id: nat, calculate: Payload -> Outcome) returns (t: Run)
    requires Valid(s, calculate) && Extends(r, s) && Sent(Last(s, calculate), c, payload, g, id)
    ensures Valid(t, calculate) && Extends(r, t)
    ensures var u := Last(t, calculate);
            && u.gate == Calculating(c, payload, Waiting(id)) && g < |u.processes| && u.current == Some(g) && WellFormed(u)
            && u.reader == Some(Reader(g, Request(id, payload), Done(Some(Reply(Some(id), calculate(payload))))))
  {
    hide Valid, Last, Extends, Replies;
    ghost var p := Last(s, calculate).processes[g];
    RequestsAnswered(p.written + [Request(id, payload)], calculate);
    t := Step(r, s, Read(Write), calculate);
    t := Step(r, t, Child(g, WriteReply), calculate);
    t := Step(r, t, Read(Scan), calculate);
  }

  lemma ExchangeSucceeds(r: Run, s: Run, c: CallId, payload: Payload, g: Generation, id: nat, calculate: Payload -> Outcome) returns (t: Run)
    requires Valid(s, calculate) && Extends(r, s) && Sent(Last(s, calculate), c, payload, g, id) && calculate(payload).Result?
    ensures Valid(t, calculate) && Extends(r, t)
    ensures Last(t, calculate).gate.Free? && c in Last(t, calculate).returned
    ensures Last(t, calculate).returned[c] == Succeeded(calculate(payload).value)
  {
    hide Valid, Last, Extends;
    t := LineAnswered(r, s, c, payload, g, id, calculate);
    t := Step(r, t, Exchange(TakeResult), calculate);
    t := Step(r, t, Exchange(Respond), calculate);
  }

  // The call has the gate, its child is ready or there is none.
  ghost predicate AboutToStart(s: State, c: CallId, payload: Payload) {
    && s.gate == Calculating(c, payload, Starting) && s.reader.None? && WellFormed(s)
    && (s.current.Some? ==> InGoodOrder(s.processes[s.current.value]))
  }

  lemma StartedSucceeds(r: Run, s: Run, c: CallId, payload: Payload, calculate: Payload -> Outcome) returns (t: Run)
    requires Valid(s, calculate) && Extends(r, s) && AboutToStart(Last(s, calculate), c, payload) && calculate(payload).Result?
    ensures Valid(t, calculate) && Extends(r, t)
    ensures Last(t, calculate).gate.Free? && c in Last(t, calculate).returned
    ensures Last(t, calculate).returned[c] == Succeeded(calculate(payload).value)
  {
    hide Valid, Last, Extends;
    t := Step(r, s, Call(if Last(s, calculate).current.Some? then StartNotNeeded else StartSucceeds), calculate);
    assert InGoodOrder(Last(t, calculate).processes[Last(t, calculate).current.value]);
    t := Step(r, t, Call(Send), calculate);
    var u := Last(t, calculate);
    t := ExchangeSucceeds(r, t, c, payload, u.current.value, u.gate.phase.id, calculate);
  }

  // What the invariant says of a free gate.
  lemma FreeGate(r: Run, calculate: Payload -> Outcome)
    requires Valid(r, calculate) && Last(r, calculate).gate.Free?
    ensures var s := Last(r, calculate);
            && WellFormed(s) && s.reader.None? && s.returned.Keys <= s.payloads.Keys
            && (s.current.Some? && s.processes[s.current.value].alive && !s.processes[s.current.value].stopping ==>
                  InGoodOrder(s.processes[s.current.value]))
  {
    RunKeepsInvariant(r, calculate);
  }

  // A child that is being stopped is waited for and replaced.
  lemma StoppedIsReplaced(r: Run, s: Run, c: CallId, payload: Payload, calculate: Payload -> Outcome) returns (t: Run)
    requires Valid(s, calculate) && Extends(r, s) && Last(s, calculate).gate == Calculating(c, payload, Inspecting)
    requires var u := Last(s, calculate);
             WellFormed(u) && u.reader.None? && u.current.Some? && u.processes[u.current.value].stopping
    ensures Valid(t, calculate) && Extends(r, t) && AboutToStart(Last(t, calculate), c, payload)
  {
    hide Valid, Last, Extends;
    var g := Last(s, calculate).current.value;
    t := Step(r, s, Call(Inspect), calculate);
    t := Step(r, t, Child(g, Reap), calculate);
    t := Step(r, t, Stop(RecycleDone), calculate);
  }

  // The next call to take the gate can succeed unless the child has died unnoticed.
  lemma NextCallSucceeds(r: Run, s: Run, c: CallId, payload: Payload, calculate: Payload -> Outcome) returns (t: Run)
    requires Valid(s, calculate) && Extends(r, s) && calculate(payload).Result?
    requires var u := Last(s, calculate);
             && u.gate.Free? && !u.cancelled && c !in u.payloads && WellFormed(u)
             && (u.current.Some? ==> u.processes[u.current.value].alive || u.processes[u.current.value].stopping)
    ensures Valid(t, calculate) && Extends(r, t)
    ensures Last(t, calculate).gate.Free? && c in Last(t, calculate).returned
    ensures Last(t, calculate).returned[c] == Succeeded(calculate(payload).value)
  {
    FreeGate(s, calculate);
    hide Valid, Last, Extends, InGoodOrder;
    t := Step(r, s, Call(TakeGate(c, payload)), calculate);
    t := Step(r, t, Call(CheckPasses), calculate);
    var u := Last(t, calculate);
    if u.current.Some? && u.processes[u.current.value].stopping {
      t := StoppedIsReplaced(r, t, c, payload, calculate);
    } else {
      t := Step(r, t, Call(Inspect), calculate);
    }
    t := StartedSucceeds(r, t, c, payload, calculate);
  }

  // A child that has died unnoticed fails one call, and is gone afterwards.
  lemma DeadIsReplaced(r: Run, d: CallId, payload: Payload, calculate: Payload -> Outcome) returns (t: Run)
    requires Valid(r, calculate)
    requires var s := Last(r, calculate);
             && s.gate.Free? && !s.cancelled && d !in s.payloads && WellFormed(s)
             && s.current.Some? && !s.processes[s.current.value].stopping
    ensures Valid(t, calculate) && Extends(r, t)
    ensures var s, u := Last(r, calculate), Last(t, calculate);
            u.gate.Free? && u.cancelled == s.cancelled && u.current.None? && WellFormed(u) && u.payloads == s.payloads[d := payload]
  {
    FreeGate(r, calculate);
    var g := Last(r, calculate).current.value;
    SameRun(r);
    hide Valid, Last, Extends;
    t := Step(r, r, Call(TakeGate(d, payload)), calculate);
    t := Step(r, t, Call(CheckPasses), calculate);
    t := Step(r, t, Call(Inspect), calculate);
    t := Step(r, t, Call(StartNotNeeded), calculate);
    t := Step(r, t, Call(Send), calculate);
    t := DeadExchangeFails(r, t, g, calculate);
  }

  lemma DeadExchangeFails(r: Run, s: Run, g: Generation, calculate: Payload -> Outcome) returns (t: Run)
    requires Valid(s, calculate) && Extends(r, s)
    requires var u := Last(s, calculate);
             && u.gate.Calculating? && u.gate.phase.Waiting? && WellFormed(u)
             && u.current == Some(g) && u.reader.Some? && u.reader.value.stage.Writing?
    ensures Valid(t, calculate) && Extends(r, t)
    ensures var u, v := Last(s, calculate), Last(t, calculate);
            v.gate.Free? && v.cancelled == u.cancelled && v.current.None? && WellFormed(v) && v.payloads == u.payloads
  {
    hide Valid, Last, Extends;
    t := Step(r, s, Read(Fail), calculate);
    t := Step(r, t, Exchange(TakeResult), calculate);
    t := Step(r, t, Child(g, Reap), calculate);
    t := Step(r, t, Stop(RecycleDone), calculate);
  }

  lemma SameRun(r: Run)
    ensures Extends(r, r)
  {
  }

  lemma NewCall(payloads: map<CallId, Payload>, c: CallId) returns (d: CallId)
    ensures d !in payloads && d != c
  {
    d := Bound(payloads.Keys + {c});
    assert c in payloads.Keys + {c};
  }

  lemma {:induction false} Bound(calls: set<CallId>) returns (b: CallId)
    ensures forall c :: c in calls ==> c < b
    decreases |calls|
  {
    if calls == {} {
      b := 0;
    } else {
      var c :| c in calls;
      var rest := Bound(calls - {c});
      b := if c < rest then rest else c + 1;
      assert forall k :: k in calls ==> k == c || k in calls - {c};
    }
  }

  // Main result: from every reachable state in which the gate is free and the supervisor not cancelled, a new call
  // can be answered with the result of its calculation: at once, unless the child has died unnoticed, and then after
  // one other call has found that out.
  lemma CallCanSucceed(r: Run, c: CallId, payload: Payload, calculate: Payload -> Outcome) returns (t: Run)
    requires Valid(r, calculate) && calculate(payload).Result?
    requires var s := Last(r, calculate); s.gate.Free? && !s.cancelled && c !in s.payloads
    ensures Valid(t, calculate) && Extends(r, t)
    ensures Last(t, calculate).gate.Free? && c in Last(t, calculate).returned
    ensures Last(t, calculate).returned[c] == Succeeded(calculate(payload).value)
  {
    FreeGate(r, calculate);
    SameRun(r);
    hide Valid, Last, Extends, InGoodOrder;
    var s := Last(r, calculate);
    t := r;
    if s.current.Some? && !s.processes[s.current.value].alive && !s.processes[s.current.value].stopping {
      var d := NewCall(s.payloads, c);
      t := DeadIsReplaced(r, d, payload, calculate);
    }
    t := NextCallSucceeds(r, t, c, payload, calculate);
  }
}
