/** What both wrappers promise their callers, over every run of one client, the processes it spawned
    one after another, and the pipes between them. */
module RequestSpec {
  import opened Daemon

  datatype Reason = BadResponse | TimedOut | WriteFailed | TransportExited | StartFailed | ClientClosed

  datatype Outcome = Answered(body: Body) | Failed(reason: Reason)

  datatype Settlement = Settlement(id: nat, outcome: Outcome)

  /** A job written to the process of one generation. */
  datatype Sent = Sent(generation: nat, job: Job)

  /** A client as its callers and its processes see it: the calls it took on, in call order, how they
      ended, in the order they ended, and every line it wrote. */
  datatype View = View(
    sequence: nat, closed: bool, accepted: seq<Job>, settled: seq<Settlement>, written: seq<Sent>)

  const START := View(0, false, [], [], [])

  /** Ids only go up and none is 0. */
  ghost predicate Numbered(jobs: seq<Job>, sequence: nat) {
    && (forall i, j :: 0 <= i < j < |jobs| ==> jobs[i].id < jobs[j].id)
    && (forall i :: 0 <= i < |jobs| ==> 1 <= jobs[i].id <= sequence)
  }

  /** The i-th settlement is the i-th call's. */
  ghost predicate InCallOrder(settled: seq<Settlement>, jobs: seq<Job>) {
    && |settled| <= |jobs|
    && forall i :: 0 <= i < |settled| ==> settled[i].id == jobs[i].id
  }

  /** Only accepted jobs are written, and none of them twice. */
  ghost predicate WrittenOnce(written: seq<Sent>, jobs: seq<Job>) {
    && (forall i :: 0 <= i < |written| ==> written[i].job in jobs)
    && (forall i, j :: 0 <= i < j < |written| ==> written[i].job.id < written[j].job.id)
  }

  ghost predicate Good(v: View) {
    && Numbered(v.accepted, v.sequence)
    && InCallOrder(v.settled, v.accepted)
    && WrittenOnce(v.written, v.accepted)
    && (v.closed ==> |v.settled| == |v.accepted|)
  }

  /** One or more steps of a client that heard the given responses on its pipe. */
  ghost predicate Next(v: View, w: View, heard: set<Response>) {
    && Good(w)
    && v.sequence <= w.sequence
    && v.accepted <= w.accepted
    && v.settled <= w.settled
    && v.written <= w.written
    && (forall i :: |v.accepted| <= i < |w.accepted| ==> v.sequence < w.accepted[i].id)
    // An answer settles the job whose id it carries, and only an answer that was heard does.
    && (forall i :: |v.settled| <= i < |w.settled| && w.settled[i].outcome.Answered? ==>
          Response(w.settled[i].id, w.settled[i].outcome.body) in heard)
    // Closing is final.
    && (v.closed ==> w.closed && w.accepted == v.accepted && w.settled == v.settled && w.written == v.written)
  }

  lemma NextStays(v: View, heard: set<Response>)
    requires Good(v)
    ensures Next(v, v, heard)
  {
  }

  lemma NextCompose(u: View, v: View, w: View, h1: set<Response>, h2: set<Response>)
    requires Next(u, v, h1) && Next(v, w, h2)
    ensures Next(u, w, h1 + h2)
  {
    forall i | |u.settled| <= i < |w.settled| && w.settled[i].outcome.Answered?
      ensures Response(w.settled[i].id, w.settled[i].outcome.body) in h1 + h2
    {
      if i < |v.settled| {
        assert w.settled[i] == v.settled[i];
      }
    }
    forall i | |u.accepted| <= i < |w.accepted|
      ensures u.sequence < w.accepted[i].id
    {
      if i < |v.accepted| {
        assert w.accepted[i] == v.accepted[i];
      }
    }
  }

  // ---------------------------------------------------------------------------------------------
  // The client, its processes and its pipes.

  /** A line some process emitted: the input it answers, and the answer. */
  datatype Emission = Emission(generation: nat, input: Input, trial: Trial, response: Response)

  datatype World = World(view: View, emitted: set<Emission>)

  const WORLD_START := World(START, {})

  /** What a process can have read: a line written to it, or the stump of one. */
  ghost predicate Readable(written: seq<Sent>, generation: nat, input: Input) {
    || input == BadSyntax
    || (input.Request? && Sent(generation, input.job) in written)
  }

  /** The pipes may delay, repeat and reorder lines and mix those of dead processes with those of live
      ones, but they do not invent a response. */
  ghost predicate Delivered(heard: set<Response>, emitted: set<Emission>) {
    forall r <- heard :: exists e <- emitted :: e.response == r
  }

  ghost predicate ClientStep(a: World, b: World) {
    b.emitted == a.emitted && exists heard :: Delivered(heard, a.emitted) && Next(a.view, b.view, heard)
  }

  ghost predicate DaemonStep(a: World, b: World) {
    b.view == a.view &&
    exists g, input: Input, trial ::
      && !input.Blank?
      && Readable(a.view.written, g, input)
      && b.emitted == a.emitted + {Emission(g, input, trial, Handle(input, trial))}
  }

  ghost predicate IsRun(run: seq<World>) {
    && run != []
    && run[0] == WORLD_START
    && forall i :: 0 <= i < |run| - 1 ==> ClientStep(run[i], run[i + 1]) || DaemonStep(run[i], run[i + 1])
  }

  /** The answer to this job came out of `Handle` applied to this very job. */
  ghost predicate AnsweredFor(job: Job, body: Body, written: seq<Sent>) {
    exists g, trial :: Sent(g, job) in written && Handle(Request(job), trial) == Response(job.id, body)
  }

  ghost predicate EmissionsHonest(w: World) {
    forall e <- w.emitted ::
      && !e.input.Blank?
      && Readable(w.view.written, e.generation, e.input)
      && e.response == Handle(e.input, e.trial)
  }

  ghost predicate NoCrossing(v: View)
    requires |v.settled| <= |v.accepted|
  {
    forall i :: 0 <= i < |v.settled| && v.settled[i].outcome.Answered? ==>
      AnsweredFor(v.accepted[i], v.settled[i].outcome.body, v.written)
  }

  lemma HeardFor(w: World, i: nat, body: Body)
    requires EmissionsHonest(w) && Good(w.view) && i < |w.view.accepted|
    requires exists e <- w.emitted :: e.response == Response(w.view.accepted[i].id, body)
    ensures AnsweredFor(w.view.accepted[i], body, w.view.written)
  {
    var job := w.view.accepted[i];
    var e :| e in w.emitted && e.response == Response(job.id, body);
    // Every answer echoes the id of its input and no id is 0, so the input was a job with this id;
    // no id names two jobs, so it was this one.
    assert e.input.Request?;
    assert Sent(e.generation, e.input.job) in w.view.written;
    assert e.input.job in w.view.accepted && e.input.job.id == job.id;
    assert e.input.job == job;
    assert Handle(Request(job), e.trial) == Response(job.id, body);
  }

  lemma StepKeepsNoCrossing(a: World, b: World)
    requires Good(a.view) && EmissionsHonest(a) && NoCrossing(a.view)
    requires ClientStep(a, b) || DaemonStep(a, b)
    ensures Good(b.view) && EmissionsHonest(b) && NoCrossing(b.view)
  {
    if ClientStep(a, b) {
      var heard :| Delivered(heard, a.emitted) && Next(a.view, b.view, heard);
      assert EmissionsHonest(b);
      forall i | 0 <= i < |b.view.settled| && b.view.settled[i].outcome.Answered?
        ensures AnsweredFor(b.view.accepted[i], b.view.settled[i].outcome.body, b.view.written)
      {
        var body := b.view.settled[i].outcome.body;
        if i < |a.view.settled| {
          assert b.view.settled[i] == a.view.settled[i] && b.view.accepted[i] == a.view.accepted[i];
          var g, trial :| Sent(g, a.view.accepted[i]) in a.view.written
                       && Handle(Request(a.view.accepted[i]), trial) == Response(a.view.accepted[i].id, body);
          assert Sent(g, b.view.accepted[i]) in b.view.written;
        } else {
          assert Response(b.view.settled[i].id, body) in heard;
          HeardFor(b, i, body);
        }
      }
    }
  }

  /** Over every run: each settled call is the next one in call order, and a call that was answered was
      answered with what a process made of exactly that call. */
  lemma {:induction false} NoAnswerCrosses(run: seq<World>, n: nat)
    requires IsRun(run) && n < |run|
    ensures Good(run[n].view) && EmissionsHonest(run[n]) && NoCrossing(run[n].view)
  {
    if n > 0 {
      NoAnswerCrosses(run, n - 1);
      StepKeepsNoCrossing(run[n - 1], run[n]);
    }
  }
}
