/** The Node wrapper as functions of its state: event handlers around one process, one queue and one
    job in flight. `NodeClientClass` holds the object whose methods these functions specify. */
module NodeClient {
  import opened Common
  import opened Daemon
  import opened RequestSpec

  /** What `request` was called with. Only Encodable reaches the queue; the two before it are refused
      after an id was taken. */
  datatype Call = NoUrl | UnusableBody | NotJson | Encodable(url: string, rest: string)

  /** A line of the process's stdout. Garbage is anything that is not a JSON object. */
  datatype Line = Garbage | Object(id: Option<nat>, body: Body)

  /** What the handlers read and change, the listeners that decide which events still reach them, and
      three logs nobody reads: what was accepted, settled and written. */
  datatype State = State(
    queue: seq<Job>,
    inFlight: Option<Job>,
    process: Option<nat>,
    reader: Option<nat>,
    sequence: nat,
    closed: bool,
    timers: set<Job>,
    onExit: set<nat>,
    onError: set<nat>,
    spawned: nat,
    accepted: seq<Job>,
    settled: seq<Settlement>,
    written: seq<Sent>)

  const FRESH := State([], None, None, None, 0, false, {}, {}, {}, 0, [], [], [])

  function AsSeq<T>(o: Option<T>): seq<T> {
    if o.Some? then [o.value] else []
  }

  function AsSet<T(==)>(o: Option<T>): set<T> {
    if o.Some? then {o.value} else {}
  }

  function Pending(s: State): seq<Job> {
    AsSeq(s.inFlight) + s.queue
  }

  // ---------------------------------------------------------------------------------------------
  // The handlers.

  /** Ends the job in flight, if any: its timer goes with it. */
  function Settle(s: State, outcome: Outcome): State {
    if s.inFlight.None? then s
    else s.(inFlight := None, timers := s.timers - {s.inFlight.value},
            settled := s.settled + [Settlement(s.inFlight.value.id, outcome)])
  }

  function RejectQueue(s: State, reason: Reason): State
    decreases |s.queue|
  {
    if s.queue == [] then s
    else RejectQueue(s.(queue := s.queue[1..],
                        settled := s.settled + [Settlement(s.queue[0].id, Failed(reason))]), reason)
  }

  function FailAll(s: State, reason: Reason): State {
    RejectQueue(Settle(s, Failed(reason)), reason)
  }

  function Kill(s: State): State {
    if s.process.None? then s
    else s.(process := None, reader := None,
            onExit := s.onExit - {s.process.value}, onError := s.onError - {s.process.value})
  }

  function Start(s: State): State {
    var generation := s.spawned + 1;
    s.(process := Some(generation), reader := Some(generation), spawned := generation,
       onExit := s.onExit + {generation}, onError := s.onError + {generation})
  }

  function Send(s: State): State
    requires s.queue != [] && s.process.Some?
  {
    var job := s.queue[0];
    s.(queue := s.queue[1..], inFlight := Some(job), timers := s.timers + {job},
       written := s.written + [Sent(s.process.value, job)])
  }

  /** `spawns`: spawn would return a process rather than throw. */
  function Pump(s: State, spawns: bool): State {
    if s.inFlight.Some? || s.queue == [] then s
    else if s.process.Some? then Send(s)
    else if spawns then Send(Start(s))
    else FailAll(s.(reader := None), StartFailed)
  }

  function Enqueue(s: State, job: Job): State {
    s.(sequence := job.id, queue := s.queue + [job], accepted := s.accepted + [job])
  }

  function AfterRequest(s: State, call: Call, spawns: bool): State {
    if call.NoUrl? || s.closed then s
    else
      var id := s.sequence + 1;
      if !call.Encodable? then s.(sequence := id)
      else Pump(Enqueue(s, Job(id, call.url, call.rest)), spawns)
  }

  function AfterClose(s: State): State {
    FailAll(Kill(s.(closed := true)), ClientClosed)
  }

  function AfterLine(s: State, line: Line, spawns: bool): State {
    if s.inFlight.None? || (line.Object? && line.id != Some(s.inFlight.value.id)) then s
    else
      var outcome := if line.Garbage? || line.body.Unusable? then Failed(BadResponse) else Answered(line.body);
      Pump(Settle(s, outcome), spawns)
  }

  /** The callback drops whatever is in flight and rejects the job it was armed for. */
  function AfterTimeout(s: State, job: Job, spawns: bool): State {
    Pump(Kill(s.(inFlight := None, timers := s.timers - {job},
                 settled := s.settled + [Settlement(job.id, Failed(TimedOut))])), spawns)
  }

  function AfterWriteError(s: State, job: Job, spawns: bool): State {
    if s.inFlight != Some(job) then s
    else Pump(Kill(Settle(s, Failed(WriteFailed))), spawns)
  }

  /** A child that exits reports nothing more. */
  function AfterExit(s: State, generation: nat, spawns: bool): State {
    var gone := s.(process := None, reader := None,
                   onExit := s.onExit - {generation}, onError := s.onError - {generation});
    Pump(Settle(gone, Failed(TransportExited)), spawns)
  }

  function AfterSpawnError(s: State, generation: nat): State {
    FailAll(s.(process := None, reader := None,
               onExit := s.onExit - {generation}, onError := s.onError - {generation}), StartFailed)
  }

  // ---------------------------------------------------------------------------------------------
  // Events.

  datatype Event =
    | Requested(call: Call)
    | CloseCalled
    | LineRead(line: Line)
    | TimerFired(job: Job)
    | WriteErred(job: Job)
    | Exited(generation: nat)
    | SpawnErred(generation: nat)

  /** Callers may call at any time and any write may report an error late; the rest needs a listener. */
  ghost predicate Enabled(s: State, event: Event) {
    match event
    case LineRead(_) => s.reader.Some?
    case TimerFired(job) => job in s.timers
    case WriteErred(job) => exists g :: Sent(g, job) in s.written
    case Exited(g) => g in s.onExit
    case SpawnErred(g) => g in s.onError
    case _ => true
  }

  function Step(s: State, event: Event, spawns: bool): State {
    match event
    case Requested(call) => AfterRequest(s, call, spawns)
    case CloseCalled => AfterClose(s)
    case LineRead(line) => AfterLine(s, line, spawns)
    case TimerFired(job) => AfterTimeout(s, job, spawns)
    case WriteErred(job) => AfterWriteError(s, job, spawns)
    case Exited(g) => AfterExit(s, g, spawns)
    case SpawnErred(g) => AfterSpawnError(s, g)
  }

  /** The response an event brings. A line without an id, or with a field of the wrong type, brings none. */
  function Heard(event: Event): set<Response> {
    match event
    case LineRead(Object(Some(id), body)) => if body.Unusable? then {} else {Response(id, body)}
    case _ => {}
  }

  function ViewOf(s: State): View {
    View(s.sequence, s.closed, s.accepted, s.settled, s.written)
  }

  // ---------------------------------------------------------------------------------------------
  // Invariants.

  /** The accepted jobs are the settled ones, then the one in flight, then the queue. */
  ghost predicate Outstanding(accepted: seq<Job>, settled: seq<Settlement>, pending: seq<Job>) {
    && InCallOrder(settled, accepted)
    && |accepted| == |settled| + |pending|
    && forall i :: 0 <= i < |pending| ==> accepted[|settled| + i] == pending[i]
  }

  /** Nothing queued was ever written. */
  ghost predicate Unwritten(queue: seq<Job>, written: seq<Sent>) {
    forall i, j :: 0 <= i < |written| && 0 <= j < |queue| ==> written[i].job.id < queue[j].id
  }

  /** The logs agree with the queue, and a timer is armed for the job in flight and for no other. */
  ghost predicate Books(s: State) {
    && Numbered(s.accepted, s.sequence)
    && Outstanding(s.accepted, s.settled, Pending(s))
    && WrittenOnce(s.written, s.accepted)
    && Unwritten(s.queue, s.written)
    && s.timers == AsSet(s.inFlight)
  }

  /** The only listeners left are those of the newest process, while it lives. */
  ghost predicate Handles(s: State) {
    && s.reader == s.process
    && s.onExit == s.onError == AsSet(s.process)
    && (s.process.Some? ==> s.process.value == s.spawned)
  }

  ghost predicate Inv(s: State) {
    && Books(s)
    && Handles(s)
    && (s.queue != [] ==> s.inFlight.Some?)
    && (s.inFlight.Some? ==> s.process.Some?)
    && (s.closed ==> s.process.None? && s.inFlight.None?)
  }

  function Failures(jobs: seq<Job>, reason: Reason): (fs: seq<Settlement>)
    ensures |fs| == |jobs| && forall i :: 0 <= i < |jobs| ==> fs[i] == Settlement(jobs[i].id, Failed(reason))
  {
    seq(|jobs|, i requires 0 <= i < |jobs| => Settlement(jobs[i].id, Failed(reason)))
  }

  lemma {:induction false} RejectQueueIs(s: State, reason: Reason)
    ensures RejectQueue(s, reason) == s.(queue := [], settled := s.settled + Failures(s.queue, reason))
    decreases |s.queue|
  {
    if s.queue == [] {
      assert s.settled + Failures(s.queue, reason) == s.settled;
    } else {
      var next := s.(queue := s.queue[1..],
                     settled := s.settled + [Settlement(s.queue[0].id, Failed(reason))]);
      RejectQueueIs(next, reason);
      assert next.settled + Failures(next.queue, reason) == s.settled + Failures(s.queue, reason);
    }
  }

  lemma AllFail(accepted: seq<Job>, settled: seq<Settlement>, pending: seq<Job>, reason: Reason)
    requires Outstanding(accepted, settled, pending)
    ensures Outstanding(accepted, settled + Failures(pending, reason), [])
  {
    forall i | |settled| <= i < |accepted|
      ensures (settled + Failures(pending, reason))[i].id == accepted[i].id
    {
      assert accepted[|settled| + (i - |settled|)] == pending[i - |settled|];
    }
  }

  lemma FailAllIs(s: State, reason: Reason)
    requires s.timers == AsSet(s.inFlight)
    ensures FailAll(s, reason) ==
            s.(queue := [], inFlight := None, timers := {}, settled := s.settled + Failures(Pending(s), reason))
  {
    hide RejectQueue;
    RejectQueueIs(Settle(s, Failed(reason)), reason);
    var settled := Settle(s, Failed(reason)).settled;
    assert settled + Failures(s.queue, reason) == s.settled + Failures(Pending(s), reason);
  }

  lemma NothingPending(s: State)
    requires Books(s) && Pending(s) == []
    ensures Good(ViewOf(s))
  {
  }

  lemma SettlingIsNext(v: View, w: View, more: seq<Settlement>, heard: set<Response>)
    requires Good(w) && !v.closed && w == v.(settled := v.settled + more, closed := w.closed)
    requires forall i :: 0 <= i < |more| && more[i].outcome.Answered? ==>
               Response(more[i].id, more[i].outcome.body) in heard
    ensures Next(v, w, heard)
  {
  }

  /** Failing everything leaves nothing pending, whether or not the client was closed just before. */
  lemma FailAllKeeps(s: State, reason: Reason)
    requires Books(s) && Handles(s)
    requires s.closed ==> s.process.None?
    ensures Inv(FailAll(s, reason))
    ensures Next(ViewOf(s).(closed := false), ViewOf(FailAll(s, reason)), {})
  {
    hide FailAll, Outstanding, WrittenOnce, Numbered, Good, Next;
    FailAllIs(s, reason);
    AllFail(s.accepted, s.settled, Pending(s), reason);
    var t := FailAll(s, reason);
    NothingPending(t);
    SettlingIsNext(ViewOf(s).(closed := false), ViewOf(t), Failures(Pending(s), reason), {});
  }

  lemma OneSettles(accepted: seq<Job>, settled: seq<Settlement>, job: Job, queue: seq<Job>, outcome: Outcome)
    requires Outstanding(accepted, settled, [job] + queue)
    ensures Outstanding(accepted, settled + [Settlement(job.id, outcome)], queue)
  {
    var pending := [job] + queue;
    assert accepted[|settled| + 0] == pending[0];
    forall i | 0 <= i < |queue|
      ensures accepted[|settled| + 1 + i] == queue[i]
    {
      assert accepted[|settled| + (1 + i)] == pending[1 + i];
    }
  }

  lemma OpenBooksAreGood(s: State)
    requires Books(s) && !s.closed
    ensures Good(ViewOf(s))
  {
  }

  lemma SettleKeepsBooks(s: State, outcome: Outcome, heard: set<Response>)
    requires Books(s) && !s.closed && s.inFlight.Some?
    requires outcome.Answered? ==> Response(s.inFlight.value.id, outcome.body) in heard
    ensures Books(Settle(s, outcome))
    ensures Next(ViewOf(s), ViewOf(Settle(s, outcome)), heard)
  {
    hide Outstanding, WrittenOnce, Numbered, Unwritten, Good, Next;
    OneSettles(s.accepted, s.settled, s.inFlight.value, s.queue, outcome);
    var t := Settle(s, outcome);
    assert Pending(t) == s.queue;
    OpenBooksAreGood(t);
    SettlingIsNext(ViewOf(s), ViewOf(t), [Settlement(s.inFlight.value.id, outcome)], heard);
  }

  lemma NextIsWritten(written: seq<Sent>, queue: seq<Job>, accepted: seq<Job>, settled: seq<Settlement>, g: nat,
                      sequence: nat)
    requires Numbered(accepted, sequence) && Outstanding(accepted, settled, queue) && queue != []
    requires WrittenOnce(written, accepted) && Unwritten(queue, written)
    ensures WrittenOnce(written + [Sent(g, queue[0])], accepted)
    ensures Unwritten(queue[1..], written + [Sent(g, queue[0])])
  {
    assert accepted[|settled| + 0] == queue[0];
    forall j | 0 <= j < |queue| - 1
      ensures queue[0].id < queue[1..][j].id
    {
      assert accepted[|settled| + (j + 1)] == queue[j + 1];
    }
  }

  lemma WritingIsNext(v: View, sent: Sent)
    requires Good(v.(written := v.written + [sent])) && !v.closed
    ensures Next(v, v.(written := v.written + [sent]), {})
  {
  }

  lemma SendKeepsBooks(s: State)
    requires Books(s) && s.inFlight.None? && s.queue != [] && s.process.Some? && !s.closed
    ensures Books(Send(s))
    ensures Next(ViewOf(s), ViewOf(Send(s)), {})
  {
    hide Outstanding, WrittenOnce, Numbered, Unwritten, Good, Next;
    assert Pending(s) == s.queue == Pending(Send(s));
    NextIsWritten(s.written, s.queue, s.accepted, s.settled, s.process.value, s.sequence);
    OpenBooksAreGood(Send(s));
    WritingIsNext(ViewOf(s), Sent(s.process.value, s.queue[0]));
  }

  lemma PumpKeeps(s: State, spawns: bool)
    requires Books(s) && Handles(s) && !s.closed
    requires s.inFlight.Some? ==> s.process.Some?
    ensures Inv(Pump(s, spawns))
    ensures Next(ViewOf(s), ViewOf(Pump(s, spawns)), {})
  {
    hide Outstanding, WrittenOnce, Numbered, Unwritten, Good, Next, FailAll, Send;
    if s.inFlight.Some? || s.queue == [] {
      OpenBooksAreGood(s);
      NextStays(ViewOf(s), {});
    } else if s.process.Some? {
      SendKeepsBooks(s);
      SendIs(s);
    } else if spawns {
      SendKeepsBooks(Start(s));
      SendIs(Start(s));
    } else {
      FailAllKeeps(s.(reader := None), StartFailed);
    }
  }

  lemma SendIs(s: State)
    requires s.queue != [] && s.process.Some?
    ensures var t := Send(s);
            && t.inFlight.Some? && t.process == s.process && t.reader == s.reader && t.onExit == s.onExit
            && t.onError == s.onError && t.spawned == s.spawned && t.closed == s.closed
  {
  }

  /** Settling the job in flight and pumping: what a line, a timer, a write error and an exit share. */
  lemma SettleAndPump(s: State, outcome: Outcome, kill: bool, spawns: bool, heard: set<Response>)
    requires Books(s) && Handles(s) && s.inFlight.Some? && !s.closed
    requires outcome.Answered? ==> Response(s.inFlight.value.id, outcome.body) in heard
    ensures var t := Pump(if kill then Kill(Settle(s, outcome)) else Settle(s, outcome), spawns);
            Inv(t) && Next(ViewOf(s), ViewOf(t), heard)
  {
    hide Outstanding, WrittenOnce, Numbered, Unwritten, Good, Next, Pump;
    SettleKeepsBooks(s, outcome, heard);
    var mid := if kill then Kill(Settle(s, outcome)) else Settle(s, outcome);
    PumpKeeps(mid, spawns);
    NextCompose(ViewOf(s), ViewOf(mid), ViewOf(Pump(mid, spawns)), heard, {});
    assert heard + {} == heard;
  }

  lemma OneIsAccepted(accepted: seq<Job>, settled: seq<Settlement>, pending: seq<Job>, written: seq<Sent>, job: Job)
    requires job.id >= 1 && Numbered(accepted, job.id - 1) && Outstanding(accepted, settled, pending)
    requires WrittenOnce(written, accepted)
    ensures Numbered(accepted + [job], job.id)
    ensures Outstanding(accepted + [job], settled, pending + [job])
    ensures WrittenOnce(written, accepted + [job])
  {
  }

  lemma NewerThanWritten(written: seq<Sent>, queue: seq<Job>, accepted: seq<Job>, job: Job)
    requires job.id >= 1 && Numbered(accepted, job.id - 1) && WrittenOnce(written, accepted)
    requires Unwritten(queue, written)
    ensures Unwritten(queue + [job], written)
  {
    forall i | 0 <= i < |written|
      ensures written[i].job.id < job.id
    {
      assert written[i].job in accepted;
      var k :| 0 <= k < |accepted| && accepted[k] == written[i].job;
    }
  }

  lemma AcceptingIsNext(v: View, job: Job)
    requires Good(v.(sequence := job.id, accepted := v.accepted + [job])) && !v.closed && v.sequence < job.id
    ensures Next(v, v.(sequence := job.id, accepted := v.accepted + [job]), {})
  {
  }

  lemma EnqueueKeepsBooks(s: State, job: Job)
    requires Books(s) && !s.closed && job.id == s.sequence + 1
    ensures Books(Enqueue(s, job))
    ensures Next(ViewOf(s), ViewOf(Enqueue(s, job)), {})
  {
    hide Outstanding, WrittenOnce, Numbered, Unwritten, Good, Next;
    assert Pending(Enqueue(s, job)) == Pending(s) + [job];
    OneIsAccepted(s.accepted, s.settled, Pending(s), s.written, job);
    NewerThanWritten(s.written, s.queue, s.accepted, job);
    OpenBooksAreGood(Enqueue(s, job));
    AcceptingIsNext(ViewOf(s), job);
  }

  lemma IdSpent(s: State)
    requires Inv(s) && !s.closed
    ensures Inv(s.(sequence := s.sequence + 1))
    ensures Next(ViewOf(s), ViewOf(s.(sequence := s.sequence + 1)), {})
  {
  }

  lemma RequestKeeps(s: State, call: Call, spawns: bool)
    requires Inv(s) && !s.closed
    ensures Inv(AfterRequest(s, call, spawns))
    ensures Next(ViewOf(s), ViewOf(AfterRequest(s, call, spawns)), {})
  {
    hide Outstanding, WrittenOnce, Numbered, Unwritten, Good, Next, Pump;
    if call.Encodable? {
      var none: set<Response> := {};
      var job := Job(s.sequence + 1, call.url, call.rest);
      EnqueueKeepsBooks(s, job);
      PumpKeeps(Enqueue(s, job), spawns);
      NextCompose(ViewOf(s), ViewOf(Enqueue(s, job)), ViewOf(Pump(Enqueue(s, job), spawns)), none, none);
      assert none + none == none;
    } else if call.NoUrl? {
      OpenBooksAreGood(s);
      NextStays(ViewOf(s), {});
    } else {
      IdSpent(s);
    }
  }

  lemma ClosedBooksAreGood(s: State)
    requires Inv(s) && s.closed
    ensures Good(ViewOf(s))
  {
    assert Pending(s) == [];
    NothingPending(s);
  }

  lemma OpenStepKeeps(s: State, event: Event, spawns: bool)
    requires Inv(s) && Enabled(s, event) && !s.closed && !event.Requested?
    ensures Inv(Step(s, event, spawns))
    ensures Next(ViewOf(s), ViewOf(Step(s, event, spawns)), Heard(event))
  {
    hide Outstanding, WrittenOnce, Numbered, Unwritten, Good, Next, Pump, FailAll;
    OpenBooksAreGood(s);
    NextStays(ViewOf(s), Heard(event));
    match event {
      case CloseCalled =>
        FailAllKeeps(Kill(s.(closed := true)), ClientClosed);
      case LineRead(line) =>
        if AfterLine(s, line, spawns) != s {
          var outcome := if line.Garbage? || line.body.Unusable? then Failed(BadResponse) else Answered(line.body);
          SettleAndPump(s, outcome, false, spawns, Heard(event));
        }
      case TimerFired(job) =>
        SettleAndPump(s, Failed(TimedOut), true, spawns, {});
      case WriteErred(job) =>
        if s.inFlight == Some(job) {
          SettleAndPump(s, Failed(WriteFailed), true, spawns, {});
        }
      case Exited(g) =>
        var gone := s.(process := None, reader := None, onExit := s.onExit - {g}, onError := s.onError - {g});
        if s.inFlight.Some? {
          SettleAndPump(gone, Failed(TransportExited), false, spawns, {});
        } else {
          PumpKeeps(gone, spawns);
        }
      case SpawnErred(g) =>
        FailAllKeeps(
          s.(process := None, reader := None, onExit := s.onExit - {g}, onError := s.onError - {g}), StartFailed);
    }
  }

  /** Every event keeps the invariant, and what it does is a step of the specification. */
  lemma StepKeeps(s: State, event: Event, spawns: bool)
    requires Inv(s) && Enabled(s, event)
    ensures Inv(Step(s, event, spawns))
    ensures Next(ViewOf(s), ViewOf(Step(s, event, spawns)), Heard(event))
  {
    hide Books, Handles, Good, Next, Step, Enabled;
    if s.closed {
      ClosedIsFinal(s, event, spawns);
      ClosedBooksAreGood(s);
      NextStays(ViewOf(s), Heard(event));
    } else if event.Requested? {
      RequestKeeps(s, event.call, spawns);
      StepOfRequest(s, event.call, spawns);
    } else {
      OpenStepKeeps(s, event, spawns);
    }
  }

  lemma StepOfRequest(s: State, call: Call, spawns: bool)
    ensures Step(s, Requested(call), spawns) == AfterRequest(s, call, spawns)
    ensures Heard(Requested(call)) == {}
  {
  }

  /** After close, nothing is accepted, written, settled or spawned, whatever still arrives. */
  lemma ClosedIsFinal(s: State, event: Event, spawns: bool)
    requires Inv(s) && Enabled(s, event) && s.closed
    ensures Step(s, event, spawns) == s
  {
    assert Pending(s) == [];
  }

  /** What firing the armed timer `n` times leaves. */
  ghost function FireTimers(s: State, n: nat, spawns: nat -> bool): State
    requires Inv(s)
    ensures Inv(FireTimers(s, n, spawns))
    decreases n
  {
    if n == 0 || s.inFlight.None? then s
    else
      StepKeeps(s, TimerFired(s.inFlight.value), spawns(n));
      FireTimers(AfterTimeout(s, s.inFlight.value, spawns(n)), n - 1, spawns)
  }

  /** No call waits for ever: at worst the deadlines of the calls outstanding, one after another, settle
      every one of them, even if the process never says a word. */
  lemma {:induction false} DeadlinesSettleEverything(s: State, n: nat, spawns: nat -> bool)
    requires Inv(s) && n >= |Pending(s)|
    ensures var t := FireTimers(s, n, spawns);
            Pending(t) == [] && t.accepted == s.accepted && |t.settled| == |s.accepted|
    decreases n
  {
    if s.inFlight.Some? {
      var job := s.inFlight.value;
      hide Books, Good, Next, Pump;
      StepKeeps(s, TimerFired(job), spawns(n));
      var t := AfterTimeout(s, job, spawns(n));
      PumpShrinks(Kill(Settle(s, Failed(TimedOut))), spawns(n));
      DeadlinesSettleEverything(t, n - 1, spawns);
    }
  }

  lemma PumpShrinks(s: State, spawns: bool)
    ensures |Pending(Pump(s, spawns))| <= |Pending(s)| && Pump(s, spawns).accepted == s.accepted
  {
    RejectQueueIs(s.(reader := None), StartFailed);
  }
}
