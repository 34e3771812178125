/** What each event makes of the calls outstanding in the Node wrapper: which of them end, how, and what is
    sent next. */
module NodeOutcomes {
  import opened Common
  import opened Daemon
  import opened RequestSpec
  import opened NodeClient

  /** These calls ended, and the head of the queue, if there is one, is in flight: written to the process of
      this generation, with its timer and no other armed. */
  ghost predicate Proceeds(s: State, t: State, ended: seq<Settlement>, generation: nat) {
    && t.settled == s.settled + ended
    && t.accepted == s.accepted && t.sequence == s.sequence && t.closed == s.closed
    && if s.queue == [] then t.inFlight == None && t.queue == [] && t.timers == {} && t.written == s.written
       else && t.inFlight == Some(s.queue[0]) && t.queue == s.queue[1..] && t.timers == {s.queue[0]}
            && t.process == Some(generation) && t.written == s.written + [Sent(generation, s.queue[0])]
  }

  /** Every call outstanding ended with this reason, in call order, and no process is left. */
  ghost predicate AllFailed(s: State, t: State, jobs: seq<Job>, reason: Reason) {
    && t.inFlight == None && t.queue == [] && t.timers == {} && t.process == None
    && t.accepted == s.accepted && t.written == s.written
    && |t.settled| == |s.settled| + |jobs| && s.settled <= t.settled
    && forall i :: 0 <= i < |jobs| ==> t.settled[|s.settled| + i] == Settlement(jobs[i].id, Failed(reason))
  }

  /** The process is gone. One call ended; the queue, if any, goes to a replacement, or fails with it. */
  ghost predicate Replaces(s: State, t: State, job: Job, reason: Reason, spawns: bool) {
    var ended := [Settlement(job.id, Failed(reason))];
    if s.queue == [] then Proceeds(s, t, ended, 0) && t.process == None && t.spawned == s.spawned
    else if spawns then Proceeds(s, t, ended, s.spawned + 1) && t.spawned == s.spawned + 1
    else AllFailed(s.(settled := s.settled + ended), t, s.queue, StartFailed)
  }

  /** A line while a call is in flight: a usable answer under its id answers it, with what the line says; an
      unusable one and garbage fail it; an answer under any other id, or none, changes nothing at all. */
  lemma LineEnds(s: State, job: Job, line: Line, spawns: bool)
    requires Inv(s) && Enabled(s, LineRead(line)) && s.inFlight == Some(job)
    ensures var t := Step(s, LineRead(line), spawns);
            && s.process.Some?
            && (forall content: string :: line == Object(Some(job.id), Page(content)) ==>
                  Proceeds(s, t, [Settlement(job.id, Answered(Page(content)))], s.process.value))
            && (forall message: string :: line == Object(Some(job.id), Failure(message)) ==>
                  Proceeds(s, t, [Settlement(job.id, Answered(Failure(message)))], s.process.value))
            && (line == Object(Some(job.id), Unusable) || line == Garbage ==>
                  Proceeds(s, t, [Settlement(job.id, Failed(BadResponse))], s.process.value))
            && (line == Garbage || (line.Object? && line.id == Some(job.id)) ==> t.process == s.process)
            && (line.Object? && line.id != Some(job.id) ==> t == s)
  {
    hide Numbered, Outstanding, WrittenOnce, Unwritten;
  }

  /** Nothing is waiting for anything that arrives while nothing is in flight. */
  lemma LineIgnored(s: State, line: Line, spawns: bool)
    requires Inv(s) && s.inFlight == None
    ensures Step(s, LineRead(line), spawns) == s
  {
  }

  lemma PumpReplaces(s: State, gone: State, job: Job, reason: Reason, spawns: bool)
    requires gone.settled == s.settled + [Settlement(job.id, Failed(reason))] && gone.queue == s.queue
    requires gone.inFlight == None && gone.timers == {} && gone.process == None && gone.spawned == s.spawned
    requires gone.accepted == s.accepted && gone.written == s.written && gone.sequence == s.sequence
    requires gone.closed == s.closed
    ensures Replaces(s, Pump(gone, spawns), job, reason, spawns)
  {
    hide FailAll;
    if s.queue != [] && !spawns {
      assert AsSet(gone.inFlight) == {};
      FailAllIs(gone.(reader := None), StartFailed);
      assert Pending(gone) == s.queue;
    }
  }

  /** The deadline, and a failed write, end the call in flight and its process with it. */
  lemma DeadlineEnds(s: State, job: Job, spawns: bool)
    requires Inv(s) && Enabled(s, TimerFired(job))
    ensures s.inFlight == Some(job)
    ensures Replaces(s, Step(s, TimerFired(job), spawns), job, TimedOut, spawns)
  {
    hide Numbered, Outstanding, WrittenOnce, Unwritten, Pump, Replaces;
    PumpReplaces(s, Kill(Settle(s, Failed(TimedOut))), job, TimedOut, spawns);
  }

  lemma WriteErrorEnds(s: State, job: Job, spawns: bool)
    requires Inv(s) && Enabled(s, WriteErred(job))
    ensures s.inFlight == Some(job) ==> Replaces(s, Step(s, WriteErred(job), spawns), job, WriteFailed, spawns)
    ensures s.inFlight != Some(job) ==> Step(s, WriteErred(job), spawns) == s
  {
    hide Numbered, Outstanding, WrittenOnce, Unwritten, Pump, Replaces;
    if s.inFlight == Some(job) {
      PumpReplaces(s, Kill(Settle(s, Failed(WriteFailed))), job, WriteFailed, spawns);
    }
  }

  /** An exit ends the call in flight and no other. */
  lemma ExitEnds(s: State, generation: nat, spawns: bool)
    requires Inv(s) && Enabled(s, Exited(generation))
    ensures var t := Step(s, Exited(generation), spawns);
            && (s.inFlight.Some? ==> Replaces(s, t, s.inFlight.value, TransportExited, spawns))
            && (s.inFlight.None? ==> t.process == None && t.settled == s.settled && t.written == s.written)
  {
    hide Numbered, Outstanding, WrittenOnce, Unwritten, Pump, Replaces;
    if s.inFlight.Some? {
      var gone := s.(process := None, reader := None, onExit := s.onExit - {generation},
                     onError := s.onError - {generation});
      PumpReplaces(s, Settle(gone, Failed(TransportExited)), s.inFlight.value, TransportExited, spawns);
    } else {
      PumpStays(s, generation, spawns);
    }
  }

  lemma PumpStays(s: State, generation: nat, spawns: bool)
    requires s.inFlight.None? && s.queue == []
    ensures Step(s, Exited(generation), spawns) ==
            s.(process := None, reader := None, onExit := s.onExit - {generation},
               onError := s.onError - {generation})
  {
  }

  lemma FailingAll(s: State, gone: State, reason: Reason)
    requires gone.timers == AsSet(gone.inFlight) && gone.process == None
    requires gone.inFlight == s.inFlight && gone.queue == s.queue && gone.settled == s.settled
    requires gone.accepted == s.accepted && gone.written == s.written
    ensures AllFailed(s, FailAll(gone, reason), Pending(s), reason)
    ensures FailAll(gone, reason).closed == gone.closed
  {
    hide FailAll;
    FailAllIs(gone, reason);
    assert Pending(gone) == Pending(s);
  }

  /** A process that could not be started, and closing, end every call outstanding. */
  lemma EverythingFails(s: State, event: Event, spawns: bool)
    requires Inv(s) && Enabled(s, event) && (event.SpawnErred? || event.CloseCalled?)
    ensures var t := Step(s, event, spawns);
            && AllFailed(s, t, Pending(s), if event.CloseCalled? then ClientClosed else StartFailed)
            && (t.closed <==> s.closed || event.CloseCalled?)
  {
    hide Numbered, Outstanding, WrittenOnce, Unwritten, FailAll, AllFailed;
    if event.CloseCalled? {
      FailingAll(s, Kill(s.(closed := true)), ClientClosed);
    } else {
      var g := event.generation;
      FailingAll(s, s.(process := None, reader := None, onExit := s.onExit - {g}, onError := s.onError - {g}),
                 StartFailed);
    }
  }

  /** A call that can be encoded is accepted under the next id. Behind another it waits; alone it is sent, to
      the process there is or to a new one, or fails because none can be started. */
  lemma CallIsTaken(s: State, url: string, rest: string, spawns: bool)
    requires Inv(s) && !s.closed
    ensures var job, t := Job(s.sequence + 1, url, rest), Step(s, Requested(Encodable(url, rest)), spawns);
            && t.sequence == s.sequence + 1 && t.accepted == s.accepted + [job]
            && (s.inFlight.Some? ==> t == s.(sequence := t.sequence, accepted := t.accepted, queue := s.queue + [job]))
            && (s.inFlight.None? && (s.process.Some? || spawns) ==>
                  && t.inFlight == Some(job) && t.queue == [] && t.settled == s.settled
                  && t.process == Some(if s.process.Some? then s.process.value else s.spawned + 1)
                  && t.written == s.written + [Sent(t.process.value, job)])
            && (s.inFlight.None? && s.process.None? && !spawns ==>
                  t.settled == s.settled + [Settlement(job.id, Failed(StartFailed))] && t.written == s.written)
  {
    hide Numbered, Outstanding, WrittenOnce, Unwritten, FailAll;
    var queued := Enqueue(s, Job(s.sequence + 1, url, rest));
    FailAllIs(queued.(reader := None), StartFailed);
  }

  /** The others end before they begin: they leave nothing behind, or a gap in the ids. */
  lemma CallIsRefused(s: State, call: Call, spawns: bool)
    requires s.closed || !call.Encodable?
    ensures Step(s, Requested(call), spawns) ==
            if s.closed || call.NoUrl? then s else s.(sequence := s.sequence + 1)
  {
  }
}
