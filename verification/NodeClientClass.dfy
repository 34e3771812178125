/** The Node wrapper's object. Every public handler is proved equal to the function of the state that
    `NodeClient` reasons about, and so to a step of the specification both wrappers share. */
module NodeClientClass {
  import opened Common
  import opened Daemon
  import opened RequestSpec
  import opened NodeClient

  class Client {
    var queue: seq<Job>
    var inFlight: Option<Job>
    var process: Option<nat>
    var reader: Option<nat>
    var sequence: nat
    var closed: bool

    // The runtime's side: armed timers, attached listeners, how many processes there were.
    var timers: set<Job>
    var onExit: set<nat>
    var onError: set<nat>
    var spawned: nat

    // The logs.
    var accepted: seq<Job>
    var settled: seq<Settlement>
    var written: seq<Sent>

    function Model(): State
      reads this
    {
      State(queue, inFlight, process, reader, sequence, closed, timers, onExit, onError, spawned,
            accepted, settled, written)
    }

    ghost predicate Valid()
      reads this
    {
      Inv(Model())
    }

    constructor ()
      ensures Valid() && Model() == FRESH && ViewOf(Model()) == START
    {
      queue, inFlight, process, reader, sequence, closed := [], None, None, None, 0, false;
      timers, onExit, onError, spawned := {}, {}, {}, 0;
      accepted, settled, written := [], [], [];
    }

    // --- the public surface ---

    method Request(call: Call, spawns: bool)
      requires Valid()
      modifies this
      ensures Valid() && Model() == AfterRequest(old(Model()), call, spawns)
      ensures Next(old(ViewOf(Model())), ViewOf(Model()), {})
    {
      hide Inv, Next, Pump, FailAll;
      StepKeeps(Model(), Requested(call), spawns);
      if call.NoUrl? || closed {
        return;
      }
      sequence := sequence + 1;
      if !call.Encodable? {
        return;
      }
      var job := Job(sequence, call.url, call.rest);
      accepted := accepted + [job];
      queue := queue + [job];
      DoPump(spawns);
    }

    method Close()
      requires Valid()
      modifies this
      ensures Valid() && Model() == AfterClose(old(Model()))
      ensures Next(old(ViewOf(Model())), ViewOf(Model()), {})
    {
      hide Inv, Next, Pump, FailAll;
      StepKeeps(Model(), CloseCalled, false);
      closed := true;
      DoKill();
      DoFailAll(ClientClosed);
    }

    // --- what the listeners call ---

    method OnLine(line: Line, spawns: bool)
      requires Valid() && Enabled(Model(), LineRead(line))
      modifies this
      ensures Valid() && Model() == AfterLine(old(Model()), line, spawns)
      ensures Next(old(ViewOf(Model())), ViewOf(Model()), Heard(LineRead(line)))
    {
      hide Inv, Next, Pump, FailAll;
      StepKeeps(Model(), LineRead(line), spawns);
      if line.Garbage? {
        if inFlight.None? {
          return;
        }
        var job := inFlight.value;
        inFlight := None;
        ClearTimeout(job);
        Reject(job, BadResponse);
        DoPump(spawns);
        return;
      }
      if inFlight.None? || line.id != Some(inFlight.value.id) {
        // An abandoned answer, the normal aftermath of a timeout.
        return;
      }
      var job := inFlight.value;
      inFlight := None;
      ClearTimeout(job);
      if line.body.Unusable? {
        Reject(job, BadResponse);
      } else {
        settled := settled + [Settlement(job.id, Answered(line.body))];
      }
      DoPump(spawns);
    }

    method OnTimeout(job: Job, spawns: bool)
      requires Valid() && Enabled(Model(), TimerFired(job))
      modifies this
      ensures Valid() && Model() == AfterTimeout(old(Model()), job, spawns)
      ensures Next(old(ViewOf(Model())), ViewOf(Model()), {})
    {
      hide Inv, Next, Pump, FailAll;
      StepKeeps(Model(), TimerFired(job), spawns);
      timers := timers - {job};
      inFlight := None;
      Reject(job, TimedOut);
      Restart(spawns);
    }

    method OnWriteError(job: Job, spawns: bool)
      requires Valid() && Enabled(Model(), WriteErred(job))
      modifies this
      ensures Valid() && Model() == AfterWriteError(old(Model()), job, spawns)
      ensures Next(old(ViewOf(Model())), ViewOf(Model()), {})
    {
      hide Inv, Next, Pump, FailAll;
      StepKeeps(Model(), WriteErred(job), spawns);
      if inFlight != Some(job) {
        return;
      }
      inFlight := None;
      ClearTimeout(job);
      Reject(job, WriteFailed);
      Restart(spawns);
    }

    method OnExit(generation: nat, spawns: bool)
      requires Valid() && Enabled(Model(), Exited(generation))
      modifies this
      ensures Valid() && Model() == AfterExit(old(Model()), generation, spawns)
      ensures Next(old(ViewOf(Model())), ViewOf(Model()), {})
    {
      hide Inv, Next, Pump, FailAll;
      StepKeeps(Model(), Exited(generation), spawns);
      onExit, onError := onExit - {generation}, onError - {generation};
      process := None;
      CloseReaders();
      FailInFlight(TransportExited);
      DoPump(spawns);
    }

    method OnSpawnError(generation: nat)
      requires Valid() && Enabled(Model(), SpawnErred(generation))
      modifies this
      ensures Valid() && Model() == AfterSpawnError(old(Model()), generation)
      ensures Next(old(ViewOf(Model())), ViewOf(Model()), {})
    {
      hide Inv, Next, Pump, FailAll;
      StepKeeps(Model(), SpawnErred(generation), false);
      onError := onError - {generation};
      // 'exit' may follow 'error'; detached before a replacement can start.
      onExit := onExit - {generation};
      process := None;
      CloseReaders();
      DoFailAll(StartFailed);
    }

    // --- internals ---

    method CloseReaders()
      modifies `reader
      ensures reader.None?
    {
      reader := None;
    }

    method ClearTimeout(job: Job)
      modifies `timers
      ensures timers == old(timers) - {job}
    {
      timers := timers - {job};
    }

    method Reject(job: Job, reason: Reason)
      modifies `settled
      ensures settled == old(settled) + [Settlement(job.id, Failed(reason))]
    {
      settled := settled + [Settlement(job.id, Failed(reason))];
    }

    method DoStart()
      modifies this
      ensures Model() == Start(old(Model()))
    {
      CloseReaders();
      spawned := spawned + 1;
      process := Some(spawned);
      reader := Some(spawned);
      onError := onError + {spawned};
      onExit := onExit + {spawned};
    }

    method DoKill()
      modifies this
      ensures Model() == Kill(old(Model()))
    {
      if process.None? {
        return;
      }
      var killed := process.value;
      process := None;
      onExit := onExit - {killed};
      onError := onError - {killed};
      CloseReaders();
    }

    method Restart(spawns: bool)
      modifies this
      ensures Model() == Pump(Kill(old(Model())), spawns)
    {
      DoKill();
      DoPump(spawns);
    }

    method FailInFlight(reason: Reason)
      modifies this
      ensures Model() == Settle(old(Model()), Failed(reason))
    {
      if inFlight.None? {
        return;
      }
      var job := inFlight.value;
      inFlight := None;
      ClearTimeout(job);
      Reject(job, reason);
    }

    method DoFailAll(reason: Reason)
      modifies this
      ensures Model() == FailAll(old(Model()), reason)
    {
      FailInFlight(reason);
      while queue != []
        invariant RejectQueue(Model(), reason) == FailAll(old(Model()), reason)
        decreases |queue|
      {
        var job := queue[0];
        queue := queue[1..];
        Reject(job, reason);
      }
    }

    method DoPump(spawns: bool)
      modifies this
      ensures Model() == Pump(old(Model()), spawns)
    {
      if inFlight.Some? || queue == [] {
        return;
      }
      if process.None? {
        if !spawns {
          CloseReaders();
          DoFailAll(StartFailed);
          return;
        }
        DoStart();
      }
      var job := queue[0];
      queue := queue[1..];
      inFlight := Some(job);
      timers := timers + {job};
      written := written + [Sent(process.value, job)];
    }
  }
}
