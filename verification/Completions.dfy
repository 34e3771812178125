/** Waiting for finished captures: a queue under a mutex, and a channel that is closed and replaced at every
    completion so that all waiters wake and compete. */
module Completions {

  /** Channels are numbered; every one before the current is closed. */
  datatype Waiter = Looking | Blocked(channel: nat) | Got(place: nat) | GaveUp

  datatype State = State(
    completed: seq<nat>,    // sessions in the queue
    ready: nat,             // the current channel
    waiters: seq<Waiter>,
    log: seq<nat>,          // every completion, ever
    taken: seq<nat>,        // every session handed out
    takers: seq<nat>)       // and to which waiter

  datatype Step =
    | Complete(session: nat)
    | Enter                 // somebody calls Await
    | Look(w: nat)          // the part under the mutex
    | Wake(w: nat)          // the channel it holds is closed
    | GiveUp(w: nat)        // its context ends, or the server closes

  const INITIAL := State([], 0, [], [], [], [])

  predicate Enabled(s: State, step: Step) {
    match step
    case Complete(_) => true
    case Enter => true
    case Look(w) => w < |s.waiters| && s.waiters[w].Looking?
    case Wake(w) => w < |s.waiters| && s.waiters[w].Blocked? && s.waiters[w].channel < s.ready
    case GiveUp(w) => w < |s.waiters| && s.waiters[w].Blocked?
  }

  function Apply(s: State, step: Step): State
    requires Enabled(s, step)
  {
    match step
    case Complete(session) =>
      s.(completed := s.completed + [session], ready := s.ready + 1, log := s.log + [session])
    case Enter => s.(waiters := s.waiters + [Looking])
    case Look(w) =>
      if s.completed == [] then s.(waiters := s.waiters[w := Blocked(s.ready)])
      else s.(completed := s.completed[1..], waiters := s.waiters[w := Got(|s.taken|)],
              taken := s.taken + [s.completed[0]], takers := s.takers + [w])
    case Wake(w) => s.(waiters := s.waiters[w := Looking])
    case GiveUp(w) => s.(waiters := s.waiters[w := GaveUp])
  }

  /** First in, first out, and nothing lost or handed out twice. */
  predicate Fifo(s: State) {
    s.taken + s.completed == s.log
  }

  /** What was handed out and who holds it are two sides of one list. */
  predicate OneTakerEach(s: State) {
    && |s.takers| == |s.taken|
    && (forall p :: 0 <= p < |s.takers| ==> s.takers[p] < |s.waiters| && s.waiters[s.takers[p]] == Got(p))
    && (forall w :: 0 <= w < |s.waiters| && s.waiters[w].Got? ==>
          s.waiters[w].place < |s.takers| && s.takers[s.waiters[w].place] == w)
  }

  /** Whoever is blocked on a channel that is still open has nothing to wait for yet. */
  predicate NoLostWakeup(s: State) {
    forall w :: 0 <= w < |s.waiters| && s.waiters[w].Blocked? ==>
      s.waiters[w].channel <= s.ready && (s.waiters[w].channel == s.ready ==> s.completed == [])
  }

  predicate Inv(s: State) {
    Fifo(s) && OneTakerEach(s) && NoLostWakeup(s)
  }

  lemma FifoKept(s: State, step: Step)
    requires Fifo(s) && Enabled(s, step)
    ensures Fifo(Apply(s, step))
  {
    var t := Apply(s, step);
    if step.Look? && s.completed != [] {
      assert s.completed == [s.completed[0]] + s.completed[1..];
      assert t.taken + t.completed == s.taken + s.completed;
    } else if step.Complete? {
      assert t.taken + t.completed == (s.taken + s.completed) + [step.session];
    }
  }

  lemma TakersKept(s: State, step: Step)
    requires OneTakerEach(s) && Enabled(s, step)
    ensures OneTakerEach(Apply(s, step))
  {
  }

  lemma WakeupsKept(s: State, step: Step)
    requires NoLostWakeup(s) && Enabled(s, step)
    ensures NoLostWakeup(Apply(s, step))
  {
  }

  /** Every completion and every move of a waiter keeps the queue's books. */
  lemma StepKeeps(s: State, step: Step)
    requires Inv(s) && Enabled(s, step)
    ensures Inv(Apply(s, step))
  {
    hide Fifo, OneTakerEach, NoLostWakeup;
    FifoKept(s, step);
    TakersKept(s, step);
    WakeupsKept(s, step);
  }

  predicate IsRun(states: seq<State>, steps: seq<Step>) {
    && |states| == |steps| + 1
    && states[0] == INITIAL
    && forall i :: 0 <= i < |steps| ==> Enabled(states[i], steps[i]) && states[i + 1] == Apply(states[i], steps[i])
  }

  lemma {:induction false} RunKeeps(states: seq<State>, steps: seq<Step>, n: nat)
    requires IsRun(states, steps) && n <= |steps|
    ensures Inv(states[n])
  {
    if n > 0 {
      RunKeeps(states, steps, n - 1);
      hide Inv, Apply, Enabled;
      assert Enabled(states[n - 1], steps[n - 1]) && states[n - 1 + 1] == Apply(states[n - 1], steps[n - 1]);
      StepKeeps(states[n - 1], steps[n - 1]);
    }
  }

  /** In every interleaving: what was handed out is a prefix of what was completed, in order; no two waiters
      hold the same completion; and while anything is queued every blocked waiter can wake. */
  lemma WaitersAreServed(states: seq<State>, steps: seq<Step>, n: nat, v: nat, w: nat)
    requires IsRun(states, steps) && n <= |steps| && v < |states[n].waiters| && w < |states[n].waiters|
    ensures states[n].taken + states[n].completed == states[n].log
    ensures states[n].waiters[v].Got? && states[n].waiters[v] == states[n].waiters[w] ==> v == w
    ensures states[n].completed != [] && states[n].waiters[w].Blocked? ==> Enabled(states[n], Wake(w))
  {
    RunKeeps(states, steps, n);
  }

  lemma GotHasAPlace(s: State, w: nat)
    requires Fifo(s) && OneTakerEach(s) && w < |s.waiters| && s.waiters[w].Got?
    ensures var p := s.waiters[w].place; p < |s.taken| && p < |s.log| && s.taken[p] == s.log[p]
  {
  }

  lemma StepKeepsGot(s: State, step: Step, w: nat)
    requires Enabled(s, step) && w < |s.waiters| && s.waiters[w].Got?
    ensures w < |Apply(s, step).waiters| && Apply(s, step).waiters[w] == s.waiters[w]
    ensures s.log <= Apply(s, step).log
  {
  }

  /** What a waiter got it keeps, and it got the completion of its place in the order of completions. */
  lemma {:induction false} GotIsKept(states: seq<State>, steps: seq<Step>, n: nat, m: nat, w: nat)
    requires IsRun(states, steps) && n <= m <= |steps| && w < |states[n].waiters| && states[n].waiters[w].Got?
    ensures w < |states[m].waiters| && states[m].waiters[w] == states[n].waiters[w]
    ensures states[n].log <= states[m].log
    ensures var p := states[n].waiters[w].place;
            && p < |states[n].taken| && p < |states[n].log| && p < |states[m].log|
            && states[m].log[p] == states[n].log[p] == states[n].taken[p]
  {
    hide Apply, Enabled, NoLostWakeup, Fifo, OneTakerEach;
    RunKeeps(states, steps, n);
    GotHasAPlace(states[n], w);
    if n < m {
      GotIsKept(states, steps, n, m - 1, w);
      assert Enabled(states[m - 1], steps[m - 1]) && states[m - 1 + 1] == Apply(states[m - 1], steps[m - 1]);
      StepKeepsGot(states[m - 1], steps[m - 1], w);
    }
  }

  /** A waiter that looks while anything is queued gets the oldest completion nobody has yet; otherwise it waits
      for the next one. It is woken by that, and looks again. */
  lemma WhoLooksGetsTheOldest(states: seq<State>, steps: seq<Step>, n: nat, w: nat)
    requires IsRun(states, steps) && n < |steps| && steps[n] == Look(w)
    ensures w < |states[n].waiters| && w < |states[n + 1].waiters|
    ensures var before, after := states[n], states[n + 1];
            if |before.taken| < |before.log| then
              && after.waiters[w] == Got(|before.taken|)
              && after.taken == before.taken + [before.log[|before.taken|]]
              && after.takers == before.takers + [w]
            else after.waiters[w] == Blocked(before.ready) && after.taken == before.taken
  {
    RunKeeps(states, steps, n);
    assert Enabled(states[n], steps[n]) && states[n + 1] == Apply(states[n], steps[n]);
  }

  // ---------------------------------------------------------------------------------------------
  // The queue as the server keeps it.

  class Queue {
    var completed: seq<nat>
    var ready: nat

    ghost predicate Is(s: State)
      reads this
    {
      completed == s.completed && ready == s.ready
    }

    constructor ()
      ensures Is(INITIAL)
    {
      completed, ready := [], 0;
    }

    method Complete(ghost s: State, session: nat)
      requires Is(s)
      modifies this
      ensures Is(Apply(s, Step.Complete(session)))
      ensures completed == old(completed) + [session] && ready == old(ready) + 1
    {
      completed := completed + [session];
      ready := ready + 1;
    }

    /** One turn of `Await` under the mutex: a session, or the channel to wait on. */
    method Look(ghost s: State, ghost w: nat) returns (session: seq<nat>, channel: nat)
      requires Is(s) && Enabled(s, Step.Look(w))
      modifies this
      ensures Is(Apply(s, Step.Look(w)))
      ensures ready == old(ready) && session + completed == old(completed)
      ensures if old(completed) == [] then session == [] && channel == ready else |session| == 1
      ensures session == [] ==> Apply(s, Step.Look(w)).waiters[w] == Blocked(channel)
      ensures session != [] ==> Apply(s, Step.Look(w)).taken == s.taken + session
    {
      channel := ready;
      if |completed| > 0 {
        session := [completed[0]];
        completed := completed[1..];
        return;
      }
      session := [];
    }
  }
}
