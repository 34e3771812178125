/** What a server does for its connections until it is closed: whoever comes in time is registered and served,
    nobody is refused or cut off before Close, and what arrives on a connection is worked off or still to do. */
module Serving {
  import opened Shutdown

  /** When the flag is up: from the first moment of Close in the capture server, from the snapshot on in the
      proxy. */
  predicate FlagFollowsClose(s: State) {
    s.flag <==> s.closer.Sweeping? || s.closer.Returned? || (s.early && s.closer.Listeners?)
  }

  /** Nobody is refused while the flag is down, and nobody is cut off but by the sweep. */
  predicate OnlyCloseTurnsAway(s: State) {
    forall c :: 0 <= c < |s.conns| ==>
      && (s.conns[c].place.Refused? ==> s.flag)
      && (s.conns[c].closed ==> s.conns[c].place.Ending? || s.conns[c].place.Ended? || s.closer.Returned? ||
                                (s.closer.Sweeping? && c !in s.closer.left))
  }

  lemma StepKeepsTheFlag(s: State, step: Step)
    requires FlagFollowsClose(s) && Enabled(s, step)
    ensures FlagFollowsClose(Apply(s, step)) && Apply(s, step).early == s.early
    ensures s.flag ==> Apply(s, step).flag
  {
  }

  lemma LoopTurnsNobodyAway(s: State, step: Step)
    requires OnlyCloseTurnsAway(s) && Enabled(s, step) && OfALoop(step)
    ensures OnlyCloseTurnsAway(Apply(s, step))
  {
  }

  lemma HandlerTurnsNobodyAway(s: State, step: Step)
    requires OnlyCloseTurnsAway(s) && Enabled(s, step) && !OfALoop(step)
    ensures OnlyCloseTurnsAway(Apply(s, step))
  {
  }

  lemma StepTurnsNobodyAway(s: State, step: Step)
    requires FlagFollowsClose(s) && OnlyCloseTurnsAway(s) && Enabled(s, step)
    ensures FlagFollowsClose(Apply(s, step)) && OnlyCloseTurnsAway(Apply(s, step))
    ensures Apply(s, step).early == s.early
  {
    hide FlagFollowsClose, OnlyCloseTurnsAway, Enabled, Apply;
    StepKeepsTheFlag(s, step);
    if OfALoop(step) {
      LoopTurnsNobodyAway(s, step);
    } else {
      HandlerTurnsNobodyAway(s, step);
    }
  }

  lemma {:induction false} RunTurnsNobodyAway(early: bool, loops: nat, states: seq<State>, steps: seq<Step>, n: nat)
    requires IsRun(states, steps) && states[0] == Initial(early, loops) && n <= |steps|
    ensures FlagFollowsClose(states[n]) && OnlyCloseTurnsAway(states[n]) && states[n].early == early
  {
    if n > 0 {
      RunTurnsNobodyAway(early, loops, states, steps, n - 1);
      hide FlagFollowsClose, OnlyCloseTurnsAway, Apply, Enabled;
      assert Enabled(states[n - 1], steps[n - 1]) && states[n - 1 + 1] == Apply(states[n - 1], steps[n - 1]);
      StepTurnsNobodyAway(states[n - 1], steps[n - 1]);
    }
  }

  /** In every interleaving: the flag is down until Close is called, and in the proxy until its snapshot. A
      connection whose handler asks while the flag is down is registered and served, with nothing to do yet;
      one that asks later is refused. */
  lemma WhoAsksInTimeIsServed(early: bool, loops: nat, states: seq<State>, steps: seq<Step>, n: nat, c: nat)
    requires IsRun(states, steps) && states[0] == Initial(early, loops) && n < |steps| && steps[n] == Track(c)
    ensures c < |states[n].conns| && c < |states[n + 1].conns|
    ensures states[n].closer.Idle? || (!early && states[n].closer.Listeners?) ==> !states[n].flag
    ensures !states[n].flag ==> states[n + 1].conns[c].place == Serving(0) && states[n + 1].open == states[n].open + {c}
    ensures states[n].flag ==> states[n + 1].conns[c].place == Refused && states[n + 1].open == states[n].open
  {
    RunTurnsNobodyAway(early, loops, states, steps, n);
    assert Enabled(states[n], steps[n]) && states[n + 1] == Apply(states[n], steps[n]);
  }

  /** Until Close is called no connection has been refused, each that has a handler at work is registered and
      open, and none has been closed but by the end of its own handler. */
  lemma NobodyIsTurnedAwayBeforeClose(early: bool, loops: nat, states: seq<State>, steps: seq<Step>, n: nat, c: nat)
    requires IsRun(states, steps) && states[0] == Initial(early, loops) && n <= |steps| && c < |states[n].conns|
    requires states[n].closer.Idle?
    ensures var conn := states[n].conns[c];
            && !conn.place.Refused?
            && (conn.place.Serving? <==> c in states[n].open)
            && (conn.closed <==> conn.place.Ending? || conn.place.Ended?)
            && (conn.place.Serving? ==> forall k: nat :: Enabled(states[n], Arrive(c, k)))
  {
    RunTurnsNobodyAway(early, loops, states, steps, n);
    InitialIsSound(early, loops);
    RunKeeps(states, steps, n);
  }

  /** One stage after another: a connection is held by the loop that accepted it, counted, started; asks; is served
      or refused; is forgotten, closed, and ends. No step takes it anywhere else. */
  predicate NextStage(s: State, t: State, step: Step, c: nat)
    requires c < |s.conns| && c < |t.conns|
  {
    var place, next := s.conns[c].place, t.conns[c].place;
    match place
    case Held(a) => step == Add(a) && next == Counted(a)
    case Counted(a) => step == Go(a) && next == Started
    case Started => step == Track(c) && next == (if s.flag then Refused else Serving(0))
    case Refused => step == Refuse(c) && next == Ending && t.conns[c].closed
    case Serving(left) =>
      || (step.Arrive? && step.c == c && next == Serving(left + step.n))
      || (step == Work(c) && left > 0 && next == Serving(left - 1))
      || (step == Leave(c) && next == Forgotten)
    case Forgotten => step == CloseOwn(c) && next == Ending && t.conns[c].closed
    case Ending => step == Finish(c) && next == Ended
    case Ended => false
  }

  lemma LoopStage(s: State, step: Step, c: nat)
    requires HandsMatch(s) && Enabled(s, step) && c < |s.conns| && OfALoop(step)
    ensures var t := Apply(s, step);
            && c < |t.conns| && (s.conns[c].closed ==> t.conns[c].closed)
            && (t.conns[c].place != s.conns[c].place ==> NextStage(s, t, step, c))
            && |t.conns| == |s.conns| + (if step.Accept? then 1 else 0)
            && (step.Accept? ==> t.conns[|s.conns|] == Conn(Held(step.a), false))
  {
  }

  lemma HandlerStage(s: State, step: Step, c: nat)
    requires Enabled(s, step) && c < |s.conns| && !OfALoop(step)
    ensures var t := Apply(s, step);
            && |t.conns| == |s.conns| && (s.conns[c].closed ==> t.conns[c].closed)
            && (t.conns[c].place != s.conns[c].place ==> NextStage(s, t, step, c))
  {
  }

  lemma OneStageAtATime(s: State, step: Step, c: nat)
    requires HandsMatch(s) && Enabled(s, step) && c < |s.conns|
    ensures var t := Apply(s, step);
            && c < |t.conns| && (s.conns[c].closed ==> t.conns[c].closed)
            && (t.conns[c].place != s.conns[c].place ==> NextStage(s, t, step, c))
            && |t.conns| == |s.conns| + (if step.Accept? then 1 else 0)
            && (step.Accept? ==> t.conns[|s.conns|] == Conn(Held(step.a), false))
  {
    hide HandsMatch, Apply, Enabled, NextStage;
    if OfALoop(step) {
      LoopStage(s, step, c);
    } else {
      HandlerStage(s, step, c);
    }
  }

  // ---------------------------------------------------------------------------------------------
  // What arrives is worked off.

  /** How much a connection has brought. */
  function Brought(steps: seq<Step>, c: nat): nat {
    if steps == [] then 0
    else
      var last := steps[|steps| - 1];
      Brought(steps[..|steps| - 1], c) + (if last.Arrive? && last.c == c then last.n else 0)
  }

  /** And how much of it was worked off. */
  function WorkedOff(steps: seq<Step>, c: nat): nat {
    if steps == [] then 0
    else WorkedOff(steps[..|steps| - 1], c) + (if steps[|steps| - 1] == Work(c) then 1 else 0)
  }

  predicate Balanced(s: State, c: nat, brought: nat, worked: nat) {
    if c >= |s.conns| then brought == worked == 0
    else match s.conns[c].place
      case Held(_) => brought == worked == 0
      case Counted(_) => brought == worked == 0
      case Started => brought == worked == 0
      case Refused => brought == worked == 0
      case Serving(left) => brought == worked + left
      case _ => worked <= brought
  }

  lemma LoopKeepsTheBalance(s: State, step: Step, c: nat, brought: nat, worked: nat)
    requires Enabled(s, step) && Balanced(s, c, brought, worked) && OfALoop(step)
    ensures Balanced(Apply(s, step), c, brought, worked)
  {
  }

  lemma HandlerKeepsTheBalance(s: State, step: Step, c: nat, brought: nat, worked: nat)
    requires Enabled(s, step) && Balanced(s, c, brought, worked) && !OfALoop(step)
    ensures Balanced(Apply(s, step), c, brought + (if step.Arrive? && step.c == c then step.n else 0),
                     worked + (if step == Work(c) then 1 else 0))
  {
  }

  lemma StepKeepsTheBalance(s: State, step: Step, c: nat, brought: nat, worked: nat)
    requires Enabled(s, step) && Balanced(s, c, brought, worked)
    ensures Balanced(Apply(s, step), c, brought + (if step.Arrive? && step.c == c then step.n else 0),
                     worked + (if step == Work(c) then 1 else 0))
  {
    hide Balanced, Enabled, Apply;
    if OfALoop(step) {
      LoopKeepsTheBalance(s, step, c, brought, worked);
    } else {
      HandlerKeepsTheBalance(s, step, c, brought, worked);
    }
  }

  /** In every interleaving, what a connection being served has brought is what was worked off and what is still
      to do, to the unit; before it is served it has brought nothing, and afterwards no more was worked off than it
      brought. */
  lemma {:induction false} NothingThatArrivesIsLost(early: bool, loops: nat, states: seq<State>, steps: seq<Step>,
                                                    n: nat, c: nat)
    requires IsRun(states, steps) && states[0] == Initial(early, loops) && n <= |steps|
    ensures Balanced(states[n], c, Brought(steps[..n], c), WorkedOff(steps[..n], c))
  {
    hide Apply, Enabled, Balanced;
    if n > 0 {
      NothingThatArrivesIsLost(early, loops, states, steps, n - 1, c);
      assert Enabled(states[n - 1], steps[n - 1]) && states[n - 1 + 1] == Apply(states[n - 1], steps[n - 1]);
      StepKeepsTheBalance(states[n - 1], steps[n - 1], c, Brought(steps[..n - 1], c), WorkedOff(steps[..n - 1], c));
      assert steps[..n][..n - 1] == steps[..n - 1];
    } else {
      NothingYet(early, loops, c);
    }
  }

  lemma NothingYet(early: bool, loops: nat, c: nat)
    ensures Balanced(Initial(early, loops), c, 0, 0)
  {
  }
}
