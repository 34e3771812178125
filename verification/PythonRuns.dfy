/** The Python wrapper among its processes and pipes: its runs are runs of the specification. */
module PythonRuns {
  import opened Common
  import opened Daemon
  import opened RequestSpec
  import P = PythonClient

  datatype Machine = Machine(client: P.Core, emitted: set<Emission>)

  const POWER_ON := Machine(P.FRESH_CORE, {})

  function Seen(m: Machine): World {
    World(m.client.view, m.emitted)
  }

  /** What a reader thread may put into the queue: a usable response only if some process, of whatever
      generation, has emitted it by now. Lines of any other kind may come at any time. */
  ghost predicate MayArrive(step: P.Step, emitted: set<Emission>) {
    step.Arrive? ==> Delivered(P.HeardIn(step.item), emitted)
  }

  ghost predicate ClientMoves(a: Machine, b: Machine) {
    && b.emitted == a.emitted
    && exists step :: P.Enabled(a.client, step) && MayArrive(step, a.emitted) && b.client == P.Apply(a.client, step)
  }

  ghost predicate DaemonMoves(a: Machine, b: Machine) {
    b.client == a.client && DaemonStep(Seen(a), Seen(b))
  }

  ghost predicate IsMachineRun(run: seq<Machine>) {
    && run != []
    && run[0] == POWER_ON
    && forall i :: 0 <= i < |run| - 1 ==> ClientMoves(run[i], run[i + 1]) || DaemonMoves(run[i], run[i + 1])
  }

  /** Whatever usable answer waits in the queue came out of some process. */
  ghost predicate Inv(m: Machine) {
    P.Orderly(m.client) && Delivered(P.HeardOn(m.client.lines), m.emitted)
  }

  lemma Longer(heard: set<Response>, more: set<Response>, emitted: set<Emission>, later: set<Emission>)
    requires Delivered(heard, emitted) && Delivered(more, emitted) && emitted <= later
    ensures Delivered(heard + more, later)
  {
    forall r | r in heard + more
      ensures exists e <- later :: e.response == r
    {
      if r in heard {
        var e :| e in emitted && e.response == r;
        assert e in later;
      } else {
        var e :| e in emitted && e.response == r;
        assert e in later;
      }
    }
  }

  /** No step brings anything into the queue but what arrives. */
  lemma QueueHolds(c: P.Core, step: P.Step)
    requires P.Enabled(c, step)
    ensures P.HeardOn(P.Apply(c, step).lines) <=
            P.HeardOn(c.lines) + (if step.Arrive? then P.HeardIn(step.item) else {})
    ensures step.Get? ==> P.HeardIn(c.lines[0]) <= P.HeardOn(c.lines)
  {
    if step.Arrive? {
      P.HeardSnoc(c.lines, step.item);
    }
  }

  lemma Fewer(heard: set<Response>, fewer: set<Response>, emitted: set<Emission>)
    requires Delivered(heard, emitted) && fewer <= heard
    ensures Delivered(fewer, emitted)
  {
  }

  lemma ClientMoveIsAStep(a: Machine, b: Machine)
    requires Inv(a) && ClientMoves(a, b)
    ensures Inv(b) && ClientStep(Seen(a), Seen(b))
  {
    hide P.Orderly, Next, P.Apply, P.Enabled, P.HeardOn, P.HeardIn, Delivered;
    var step :| P.Enabled(a.client, step) && MayArrive(step, a.emitted) && b.client == P.Apply(a.client, step);
    P.StepIsNext(a.client, step);
    QueueHolds(a.client, step);
    var arrived := if step.Arrive? then P.HeardIn(step.item) else {};
    NothingIsDelivered(a.emitted);
    Longer(P.HeardOn(a.client.lines), arrived, a.emitted, a.emitted);
    Fewer(P.HeardOn(a.client.lines) + arrived, P.HeardOn(b.client.lines), b.emitted);
    var heard := P.HeardBy(a.client, step);
    Fewer(P.HeardOn(a.client.lines), heard, a.emitted);
    assert Delivered(heard, Seen(a).emitted) && Next(Seen(a).view, Seen(b).view, heard);
  }

  lemma NothingIsDelivered(emitted: set<Emission>)
    ensures Delivered({}, emitted)
  {
  }

  lemma DaemonMoveKeeps(a: Machine, b: Machine)
    requires Inv(a) && DaemonMoves(a, b)
    ensures Inv(b)
  {
    hide P.Orderly, P.HeardOn, Delivered;
    NothingIsDelivered(a.emitted);
    Longer(P.HeardOn(a.client.lines), {}, a.emitted, b.emitted);
    assert P.HeardOn(a.client.lines) + {} == P.HeardOn(a.client.lines);
  }

  lemma FreshIsSound()
    ensures Inv(POWER_ON) && Seen(POWER_ON) == WORLD_START
  {
  }

  function SeenAll(run: seq<Machine>): (ws: seq<World>)
    ensures |ws| == |run| && forall i :: 0 <= i < |run| ==> ws[i] == Seen(run[i])
  {
    if run == [] then [] else [Seen(run[0])] + SeenAll(run[1..])
  }

  lemma {:induction false} MachineKeeps(run: seq<Machine>, n: nat)
    requires IsMachineRun(run) && n < |run|
    ensures Inv(run[n])
    ensures IsRun(SeenAll(run[..n + 1]))
  {
    hide Inv, ClientMoves, DaemonMoves, ClientStep, DaemonStep, Seen;
    FreshIsSound();
    if n > 0 {
      MachineKeeps(run, n - 1);
      MoveIsAStep(run[n - 1], run[n]);
      var before, after := SeenAll(run[..n]), SeenAll(run[..n + 1]);
      forall i | 0 <= i < n
        ensures ClientStep(after[i], after[i + 1]) || DaemonStep(after[i], after[i + 1])
      {
        if i < n - 1 {
          assert after[i] == before[i] && after[i + 1] == before[i + 1];
        } else {
          assert run[..n + 1][n - 1] == run[n - 1] && run[..n + 1][n] == run[n];
        }
      }
    }
  }

  lemma MoveIsAStep(a: Machine, b: Machine)
    requires Inv(a) && (ClientMoves(a, b) || DaemonMoves(a, b))
    ensures Inv(b) && (ClientStep(Seen(a), Seen(b)) || DaemonStep(Seen(a), Seen(b)))
  {
    if ClientMoves(a, b) {
      ClientMoveIsAStep(a, b);
    } else {
      DaemonMoveKeeps(a, b);
    }
  }

  /** In every run of the Python client with its processes and pipes, every call that was answered was answered
      with what a process made of exactly that call, and calls settle in call order, each at most once. */
  lemma PythonAnswersDoNotCross(run: seq<Machine>, n: nat)
    requires IsMachineRun(run) && n < |run|
    ensures var v := run[n].client.view;
            && InCallOrder(v.settled, v.accepted)
            && NoCrossing(v)
  {
    MachineKeeps(run, n);
    hide Inv, NoCrossing, IsMachineRun;
    var seen := SeenAll(run[..n + 1]);
    NoAnswerCrosses(seen, n);
    assert seen[n] == Seen(run[n]);
  }

  // ---------------------------------------------------------------------------------------------
  // Answered calls do occur.

  const JOB := Job(1, "https://example.com/", "")

  const PAGE := Response(1, Page("hello"))

  const EMITTED := Emission(1, Request(JOB), Fetched("hello"), PAGE)

  const LINE := P.Text(P.NodeClient.Object(Common.Some(1), Page("hello")))

  lemma RunSnoc(run: seq<Machine>, m: Machine)
    requires run != [] && IsMachineRun(run) && (ClientMoves(run[|run| - 1], m) || DaemonMoves(run[|run| - 1], m))
    ensures IsMachineRun(run + [m])
  {
    hide ClientMoves, DaemonMoves;
  }

  lemma Moved(run: seq<Machine>, step: P.Step, m: Machine)
    requires run != [] && IsMachineRun(run)
    requires P.Enabled(run[|run| - 1].client, step) && MayArrive(step, run[|run| - 1].emitted)
    requires m == Machine(P.Apply(run[|run| - 1].client, step), run[|run| - 1].emitted)
    ensures IsMachineRun(run + [m])
  {
    hide P.Apply, P.Enabled, MayArrive, IsMachineRun;
    assert ClientMoves(run[|run| - 1], m);
    RunSnoc(run, m);
  }

  lemma Asked() returns (run: seq<Machine>)
    ensures run != [] && IsMachineRun(run)
    ensures run[|run| - 1] ==
            Machine(P.Core(View(1, false, [JOB], [], [Sent(1, JOB)]), Some(1), 1, [], P.Waiting(JOB)), {})
  {
    hide IsMachineRun;
    run := [POWER_ON];
    JustStarted();
    var taken := Machine(P.Core(View(1, false, [JOB], [], []), None, 0, [], P.Taken(JOB)), {});
    Moved(run, P.Take(P.NodeClient.Encodable(JOB.url, JOB.rest)), taken);
    run := run + [taken];
    var started := Machine(P.Core(View(1, false, [JOB], [], []), Some(1), 1, [], P.Started(JOB)), {});
    Moved(run, P.Start(true), started);
    run := run + [started];
    var written := Machine(P.Core(View(1, false, [JOB], [], [Sent(1, JOB)]), Some(1), 1, [], P.Waiting(JOB)), {});
    Moved(run, P.Write(true), written);
    run := run + [written];
  }

  lemma JustStarted()
    ensures IsMachineRun([POWER_ON])
  {
  }

  lemma TheProcessAnswers(c: P.Core)
    requires Sent(1, JOB) in c.view.written
    ensures DaemonMoves(Machine(c, {}), Machine(c, {EMITTED}))
    ensures Delivered(P.HeardIn(LINE), {EMITTED})
  {
    assert Readable(c.view.written, 1, Request(JOB));
    assert EMITTED == Emission(1, Request(JOB), Fetched("hello"), Handle(Request(JOB), Fetched("hello")));
    assert {} + {EMITTED} == {EMITTED};
    assert P.HeardIn(LINE) == {PAGE} && EMITTED.response == PAGE;
  }

  /** A run in which a call is taken, a process started, the line written, answered, read and settled. */
  lemma AnAnsweredRun() returns (run: seq<Machine>)
    ensures run != [] && IsMachineRun(run)
    ensures run[|run| - 1].client.view.settled == [Settlement(1, Answered(Page("hello")))]
  {
    hide IsMachineRun, DaemonMoves, Delivered;
    run := Asked();
    var c := run[|run| - 1].client;
    TheProcessAnswers(c);
    RunSnoc(run, Machine(c, {EMITTED}));
    run := run + [Machine(c, {EMITTED})];
    var arrived := Machine(c.(lines := [LINE]), {EMITTED});
    Moved(run, P.Arrive(LINE), arrived);
    run := run + [arrived];
    var settled := Machine(P.AfterGet(arrived.client), {EMITTED});
    Moved(run, P.Get, settled);
    run := run + [settled];
  }
}
