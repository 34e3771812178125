/** The Node wrapper among its processes and pipes: its runs are runs of the specification. */
module NodeRuns {
  import opened Common
  import opened Daemon
  import opened RequestSpec
  import opened NodeClient

  datatype Machine = Machine(client: State, emitted: set<Emission>)

  const POWER_ON := Machine(FRESH, {})

  function Seen(m: Machine): World {
    World(ViewOf(m.client), m.emitted)
  }

  /** An event reaches a listener that is still attached; a usable response among the lines read was emitted
      by some process, of whatever generation. Lines of any other kind may come at any time. */
  ghost predicate ClientMoves(a: Machine, b: Machine) {
    && b.emitted == a.emitted
    && exists event: Event, spawns: bool ::
         Enabled(a.client, event) && Delivered(Heard(event), a.emitted) && b.client == Step(a.client, event, spawns)
  }

  ghost predicate DaemonMoves(a: Machine, b: Machine) {
    b.client == a.client && DaemonStep(Seen(a), Seen(b))
  }

  ghost predicate IsMachineRun(run: seq<Machine>) {
    && run != []
    && run[0] == POWER_ON
    && forall i :: 0 <= i < |run| - 1 ==> ClientMoves(run[i], run[i + 1]) || DaemonMoves(run[i], run[i + 1])
  }

  function SeenAll(run: seq<Machine>): (ws: seq<World>)
    ensures |ws| == |run| && forall i :: 0 <= i < |run| ==> ws[i] == Seen(run[i])
  {
    if run == [] then [] else [Seen(run[0])] + SeenAll(run[1..])
  }

  lemma MoveIsAStep(a: Machine, b: Machine)
    requires Inv(a.client) && (ClientMoves(a, b) || DaemonMoves(a, b))
    ensures Inv(b.client) && (ClientStep(Seen(a), Seen(b)) || DaemonStep(Seen(a), Seen(b)))
  {
    hide Inv, Next, Step, Enabled, DaemonStep;
    if ClientMoves(a, b) {
      var event, spawns :| Enabled(a.client, event) && Delivered(Heard(event), a.emitted) &&
                           b.client == Step(a.client, event, spawns);
      StepKeeps(a.client, event, spawns);
      assert Delivered(Heard(event), Seen(a).emitted) && Next(Seen(a).view, Seen(b).view, Heard(event));
    }
  }

  lemma FreshIsSound()
    ensures Inv(FRESH) && Seen(POWER_ON) == WORLD_START
  {
  }

  lemma {:induction false} MachineKeeps(run: seq<Machine>, n: nat)
    requires IsMachineRun(run) && n < |run|
    ensures Inv(run[n].client)
    ensures IsRun(SeenAll(run[..n + 1]))
  {
    hide Inv, ClientMoves, DaemonMoves, ClientStep, DaemonStep, Seen;
    FreshIsSound();
    if n > 0 {
      MachineKeeps(run, n - 1);
      MoveIsAStep(run[n - 1], run[n]);
      var before, after := SeenAll(run[..n]), SeenAll(run[..n + 1]);
      forall i | 0 <= i < n
        ensures ClientStep(after[i], after[i + 1]) || DaemonStep(after[i], after[i + 1])
      {
        if i < n - 1 {
          assert after[i] == before[i] && after[i + 1] == before[i + 1];
        } else {
          assert run[..n + 1][n - 1] == run[n - 1] && run[..n + 1][n] == run[n];
        }
      }
    }
  }

  /** In every run of the Node client with its processes and pipes, every call that was answered was answered
      with what a process made of exactly that call, and calls settle in call order, each at most once. */
  lemma NodeAnswersDoNotCross(run: seq<Machine>, n: nat)
    requires IsMachineRun(run) && n < |run|
    ensures var v := ViewOf(run[n].client);
            && InCallOrder(v.settled, v.accepted)
            && NoCrossing(v)
  {
    MachineKeeps(run, n);
    hide Inv, NoCrossing, ViewOf, IsMachineRun;
    var seen := SeenAll(run[..n + 1]);
    NoAnswerCrosses(seen, n);
    assert seen[n] == Seen(run[n]);
  }

  // ---------------------------------------------------------------------------------------------
  // Answered calls do occur.

  const JOB := Job(1, "https://example.com/", "")

  const EMITTED := Emission(1, Request(JOB), Fetched("hello"), Response(1, Page("hello")))

  const LINE := Object(Some(1), Page("hello"))

  lemma RunSnoc(run: seq<Machine>, m: Machine)
    requires run != [] && IsMachineRun(run) && (ClientMoves(run[|run| - 1], m) || DaemonMoves(run[|run| - 1], m))
    ensures IsMachineRun(run + [m])
  {
    hide ClientMoves, DaemonMoves;
  }

  lemma Moved(run: seq<Machine>, event: Event, m: Machine)
    requires run != [] && IsMachineRun(run)
    requires Enabled(run[|run| - 1].client, event) && Delivered(Heard(event), run[|run| - 1].emitted)
    requires m == Machine(Step(run[|run| - 1].client, event, true), run[|run| - 1].emitted)
    ensures IsMachineRun(run + [m])
  {
    hide Step, Enabled, Delivered, IsMachineRun;
    assert ClientMoves(run[|run| - 1], m);
    RunSnoc(run, m);
  }

  lemma JustStarted()
    ensures IsMachineRun([POWER_ON])
  {
  }

  lemma Asked() returns (run: seq<Machine>)
    ensures run != [] && IsMachineRun(run)
    ensures run[|run| - 1].emitted == {}
    ensures var c := run[|run| - 1].client;
            c.inFlight == Some(JOB) && c.queue == [] && c.settled == [] && c.reader == Some(1) &&
            c.process == Some(1) && c.written == [Sent(1, JOB)]
  {
    hide IsMachineRun;
    JustStarted();
    var asked := Machine(Step(FRESH, Requested(Encodable(JOB.url, JOB.rest)), true), {});
    Moved([POWER_ON], Requested(Encodable(JOB.url, JOB.rest)), asked);
    run := [POWER_ON, asked];
    assert run == [POWER_ON] + [asked];
  }

  lemma TheProcessAnswers(c: State)
    requires Sent(1, JOB) in c.written
    ensures DaemonMoves(Machine(c, {}), Machine(c, {EMITTED}))
    ensures Delivered(Heard(LineRead(LINE)), {EMITTED})
  {
    assert Readable(c.written, 1, Request(JOB));
    assert EMITTED == Emission(1, Request(JOB), Fetched("hello"), Handle(Request(JOB), Fetched("hello")));
    assert {} + {EMITTED} == {EMITTED};
    assert Heard(LineRead(LINE)) == {EMITTED.response};
  }

  /** A run in which a call is taken, a process started, the line written, answered, read and settled. */
  lemma AnAnsweredRun() returns (run: seq<Machine>)
    ensures run != [] && IsMachineRun(run)
    ensures run[|run| - 1].client.settled == [Settlement(1, Answered(Page("hello")))]
  {
    hide IsMachineRun, DaemonMoves, Delivered;
    run := Asked();
    var c := run[|run| - 1].client;
    TheProcessAnswers(c);
    assert run[|run| - 1] == Machine(c, {});
    RunSnoc(run, Machine(c, {EMITTED}));
    run := run + [Machine(c, {EMITTED})];
    var settled := Machine(Step(c, LineRead(LINE), true), {EMITTED});
    Moved(run, LineRead(LINE), settled);
    run := run + [settled];
  }
}
