/** The batch run: one dispatcher handing out a list over an unbuffered channel, workers that fetch and
    record under a mutex, and a sink whose failure stops the dispatcher. */
module Batch {
  import opened Text

  datatype Job = Job(url: string, occurrence: nat)

  /** What came of the `index`-th entry of the list. */
  datatype Outcome = Outcome(index: nat, failed: bool)

  datatype Worker = Waiting | Fetching(index: nat) | Ended

  datatype Dispatcher = Handing | Closed

  datatype State = State(
    urls: seq<string>,
    handed: seq<Job>,          // what has gone through the channel
    dispatcher: Dispatcher,
    workers: seq<Worker>,
    records: seq<Outcome>,
    failures: nat,
    sink: seq<Outcome>,        // the lines written
    sinkFailed: bool,
    cancelled: bool)           // the run's own context

  datatype Step =
    | Hand(w: nat)                                        // a worker receives the next entry
    | Close                                               // the list is done, or the context is
    | Finish(w: nat, failed: bool, sinkFails: bool)       // the worker's turn under the mutex
    | Exit(w: nat)                                        // the channel is closed and empty
    | Cancel                                              // from outside

  function Initial(urls: seq<string>, workers: nat): State {
    State(urls, [], Handing, seq(workers, _ => Waiting), [], 0, [], false, false)
  }

  predicate Enabled(s: State, step: Step) {
    match step
    case Hand(w) => s.dispatcher.Handing? && |s.handed| < |s.urls| && w < |s.workers| && s.workers[w].Waiting?
    case Close => s.dispatcher.Handing? && (|s.handed| == |s.urls| || s.cancelled)
    case Finish(w, _, _) => w < |s.workers| && s.workers[w].Fetching?
    case Exit(w) => s.dispatcher.Closed? && w < |s.workers| && s.workers[w].Waiting?
    case Cancel => true
  }

  function Count(urls: seq<string>, url: string): nat {
    if urls == [] then 0
    else Count(urls[..|urls| - 1], url) + (if urls[|urls| - 1] == url then 1 else 0)
  }

  /** Which time this is that the entry's URL comes up in the list. */
  function OccurrenceOf(urls: seq<string>, i: nat): nat
    requires i < |urls|
  {
    Count(urls[..i + 1], urls[i])
  }

  function Apply(s: State, step: Step): State
    requires Enabled(s, step)
  {
    match step
    case Hand(w) =>
      var i := |s.handed|;
      s.(handed := s.handed + [Job(s.urls[i], OccurrenceOf(s.urls, i))], workers := s.workers[w := Fetching(i)])
    case Close => s.(dispatcher := Closed)
    case Finish(w, failed, sinkFails) =>
      var r := Outcome(s.workers[w].index, failed);
      s.(workers := s.workers[w := Waiting],
         records := s.records + [r],
         failures := s.failures + (if failed then 1 else 0),
         sink := if s.sinkFailed || sinkFails then s.sink else s.sink + [r],
         sinkFailed := s.sinkFailed || sinkFails,
         cancelled := s.cancelled || (!s.sinkFailed && sinkFails))
    case Exit(w) => s.(workers := s.workers[w := Ended])
    case Cancel => s.(cancelled := true)
  }

  // ---------------------------------------------------------------------------------------------
  // What every step keeps.

  /** How often the `i`-th entry is recorded, and how many workers are fetching it. */
  function Recorded(records: seq<Outcome>, i: nat): nat {
    if records == [] then 0
    else Recorded(records[..|records| - 1], i) + (if records[|records| - 1].index == i then 1 else 0)
  }

  function InFlight(workers: seq<Worker>, i: nat): nat {
    if workers == [] then 0
    else InFlight(workers[..|workers| - 1], i) + (if workers[|workers| - 1] == Fetching(i) then 1 else 0)
  }

  function Failed(records: seq<Outcome>): nat {
    if records == [] then 0
    else Failed(records[..|records| - 1]) + (if records[|records| - 1].failed then 1 else 0)
  }

  /** Everything handed out is being fetched or recorded, exactly once. */
  ghost predicate Accounted(s: State) {
    forall i: nat :: Recorded(s.records, i) + InFlight(s.workers, i) == if i < |s.handed| then 1 else 0
  }

  predicate HandedIsPrefix(s: State) {
    && |s.handed| <= |s.urls|
    && forall i :: 0 <= i < |s.handed| ==> s.handed[i] == Job(s.urls[i], OccurrenceOf(s.urls, i))
  }

  /** The sink holds the records up to the first that could not be written. */
  predicate SinkIsPrefix(s: State) {
    && s.sink <= s.records
    && (!s.sinkFailed ==> s.sink == s.records)
    && (s.sinkFailed ==> s.sink < s.records && s.cancelled)
  }

  /** The list is cut short only when the run was cancelled, and a worker ends only after the list. */
  predicate CutOnlyIfCancelled(s: State) {
    && (s.dispatcher.Closed? ==> |s.handed| == |s.urls| || s.cancelled)
    && (forall w :: 0 <= w < |s.workers| && s.workers[w].Ended? ==> s.dispatcher.Closed?)
  }

  ghost predicate Inv(s: State) {
    Accounted(s) && HandedIsPrefix(s) && SinkIsPrefix(s) && CutOnlyIfCancelled(s) && s.failures == Failed(s.records)
  }

  lemma {:induction false} InFlightAfter(workers: seq<Worker>, w: nat, x: Worker, i: nat)
    requires w < |workers|
    ensures InFlight(workers[w := x], i) ==
            InFlight(workers, i) - (if workers[w] == Fetching(i) then 1 else 0) + (if x == Fetching(i) then 1 else 0)
  {
    var n := |workers| - 1;
    if w < n {
      InFlightAfter(workers[..n], w, x, i);
      assert workers[w := x][..n] == workers[..n][w := x];
    } else {
      assert workers[w := x][..n] == workers[..n];
    }
  }

  lemma RecordsSnoc(records: seq<Outcome>, r: Outcome, i: nat)
    ensures Recorded(records + [r], i) == Recorded(records, i) + (if r.index == i then 1 else 0)
    ensures Failed(records + [r]) == Failed(records) + (if r.failed then 1 else 0)
  {
    assert (records + [r])[..|records|] == records;
  }

  lemma AccountedKept(s: State, step: Step)
    requires Accounted(s) && Enabled(s, step)
    ensures Accounted(Apply(s, step))
  {
    hide Recorded, InFlight, OccurrenceOf;
    var t := Apply(s, step);
    forall i: nat
      ensures Recorded(t.records, i) + InFlight(t.workers, i) == if i < |t.handed| then 1 else 0
    {
      match step
      case Hand(w) => InFlightAfter(s.workers, w, Fetching(|s.handed|), i);
      case Finish(w, failed, sinkFails) =>
        InFlightAfter(s.workers, w, Waiting, i);
        RecordsSnoc(s.records, Outcome(s.workers[w].index, failed), i);
      case Exit(w) => InFlightAfter(s.workers, w, Ended, i);
      case _ =>
    }
  }

  lemma HandedKept(s: State, step: Step)
    requires HandedIsPrefix(s) && Enabled(s, step)
    ensures HandedIsPrefix(Apply(s, step))
  {
    hide OccurrenceOf;
  }

  lemma SinkKept(s: State, step: Step)
    requires SinkIsPrefix(s) && Enabled(s, step)
    ensures SinkIsPrefix(Apply(s, step))
  {
    hide OccurrenceOf;
  }

  /** Every turn of the dispatcher and of the workers keeps the books. */
  lemma StepKeeps(s: State, step: Step)
    requires Inv(s) && Enabled(s, step)
    ensures Inv(Apply(s, step))
  {
    hide Accounted, Recorded, InFlight, HandedIsPrefix, SinkIsPrefix, OccurrenceOf, Failed;
    AccountedKept(s, step);
    HandedKept(s, step);
    SinkKept(s, step);
    if step.Finish? {
      RecordsSnoc(s.records, Outcome(s.workers[step.w].index, step.failed), 0);
    }
  }

  lemma {:induction false} NobodyFetching(workers: seq<Worker>, i: nat)
    requires forall w :: 0 <= w < |workers| ==> !workers[w].Fetching?
    ensures InFlight(workers, i) == 0
  {
    if workers != [] {
      NobodyFetching(workers[..|workers| - 1], i);
    }
  }

  predicate IsRun(states: seq<State>, steps: seq<Step>, urls: seq<string>, workers: nat) {
    && |states| == |steps| + 1
    && states[0] == Initial(urls, workers)
    && forall i :: 0 <= i < |steps| ==> Enabled(states[i], steps[i]) && states[i + 1] == Apply(states[i], steps[i])
  }

  lemma InitialIsSound(urls: seq<string>, workers: nat)
    ensures Inv(Initial(urls, workers))
  {
    hide OccurrenceOf;
    forall i: nat
      ensures InFlight(Initial(urls, workers).workers, i) == 0
    {
      NobodyFetching(Initial(urls, workers).workers, i);
    }
  }

  lemma StepKeepsTheList(s: State, step: Step)
    requires Enabled(s, step)
    ensures Apply(s, step).urls == s.urls && |Apply(s, step).workers| == |s.workers|
  {
    hide OccurrenceOf;
  }

  lemma {:induction false} RunKeeps(states: seq<State>, steps: seq<Step>, urls: seq<string>, workers: nat, n: nat)
    requires IsRun(states, steps, urls, workers) && n <= |steps|
    ensures Inv(states[n]) && states[n].urls == urls && |states[n].workers| == workers
  {
    hide Inv, Apply, Enabled;
    if n == 0 {
      InitialIsSound(urls, workers);
    } else {
      RunKeeps(states, steps, urls, workers, n - 1);
      assert Enabled(states[n - 1], steps[n - 1]) && states[n - 1 + 1] == Apply(states[n - 1], steps[n - 1]);
      StepKeeps(states[n - 1], steps[n - 1]);
      StepKeepsTheList(states[n - 1], steps[n - 1]);
    }
  }

  predicate Over(s: State) {
    s.dispatcher.Closed? && forall w :: 0 <= w < |s.workers| ==> s.workers[w].Ended?
  }

  /** When the run is over, in every interleaving: the records are those of the entries handed out, once
      each, and these are the whole list unless the run was cancelled; the failures are the records that
      say so; and what was written is the records up to the first the sink refused. */
  lemma EveryEntryIsRecordedOnce(states: seq<State>, steps: seq<Step>, urls: seq<string>, workers: nat, n: nat)
    requires IsRun(states, steps, urls, workers) && n <= |steps| && Over(states[n])
    ensures var s := states[n];
            && (forall i: nat :: Recorded(s.records, i) == if i < |s.handed| then 1 else 0)
            && |s.handed| <= |urls| && (!s.cancelled ==> |s.handed| == |urls|)
            && s.failures == Failed(s.records)
            && s.sink <= s.records && (s.sink == s.records <==> !s.sinkFailed)
            && (s.sinkFailed ==> s.cancelled)
  {
    RunKeeps(states, steps, urls, workers, n);
    var s := states[n];
    forall i: nat
      ensures Recorded(s.records, i) == if i < |s.handed| then 1 else 0
    {
      NobodyFetching(s.workers, i);
    }
  }

  // ---------------------------------------------------------------------------------------------
  // Why the run ends.

  /** Until the run is over somebody can move, as long as there is a worker at all. */
  lemma NeverStuck(s: State) returns (step: Step)
    requires CutOnlyIfCancelled(s) && HandedIsPrefix(s) && s.workers != [] && !Over(s)
    ensures Enabled(s, step) && !step.Cancel?
  {
    hide OccurrenceOf;
    if w :| 0 <= w < |s.workers| && s.workers[w].Fetching? {
      step := Finish(w, false, false);
    } else if s.dispatcher.Closed? {
      var w :| 0 <= w < |s.workers| && !s.workers[w].Ended?;
      step := Exit(w);
    } else if |s.handed| == |s.urls| || s.cancelled {
      step := Close;
    } else {
      assert !s.workers[0].Ended? && !s.workers[0].Fetching?;
      step := Hand(0);
    }
  }

  function WorkOf(w: Worker): nat {
    match w
    case Waiting => 1
    case Fetching(_) => 2
    case Ended => 0
  }

  function WorkersWork(workers: seq<Worker>): nat {
    if workers == [] then 0 else WorkersWork(workers[..|workers| - 1]) + WorkOf(workers[|workers| - 1])
  }

  function WorkLeft(s: State): int {
    2 * (|s.urls| - |s.handed|) + WorkersWork(s.workers) + (if s.dispatcher.Handing? then 1 else 0)
  }

  lemma {:induction false} WorkersWorkAfter(workers: seq<Worker>, w: nat, x: Worker)
    requires w < |workers|
    ensures WorkersWork(workers[w := x]) == WorkersWork(workers) - WorkOf(workers[w]) + WorkOf(x)
  {
    var n := |workers| - 1;
    if w < n {
      WorkersWorkAfter(workers[..n], w, x);
      assert workers[w := x][..n] == workers[..n][w := x];
    } else {
      assert workers[w := x][..n] == workers[..n];
    }
  }

  /** Every turn but a cancellation from outside leaves one less to do. */
  lemma TurnsDescend(s: State, step: Step)
    requires Enabled(s, step)
    ensures WorkLeft(Apply(s, step)) == WorkLeft(s) - (if step.Cancel? then 0 else 1)
  {
    hide WorkersWork, OccurrenceOf;
    match step
    case Hand(w) => WorkersWorkAfter(s.workers, w, Fetching(|s.handed|));
    case Finish(w, failed, sinkFails) => WorkersWorkAfter(s.workers, w, Waiting);
    case Exit(w) => WorkersWorkAfter(s.workers, w, Ended);
    case _ =>
  }

  function Turns(steps: seq<Step>): nat {
    if steps == [] then 0
    else Turns(steps[..|steps| - 1]) + (if steps[|steps| - 1].Cancel? then 0 else 1)
  }

  lemma {:induction false} TurnsAreSpent(states: seq<State>, steps: seq<Step>, urls: seq<string>, workers: nat, n: nat)
    requires IsRun(states, steps, urls, workers) && n <= |steps|
    ensures Turns(steps[..n]) + WorkLeft(states[n]) == WorkLeft(states[0])
  {
    hide Apply, Enabled, WorkLeft;
    if n > 0 {
      TurnsAreSpent(states, steps, urls, workers, n - 1);
      assert Enabled(states[n - 1], steps[n - 1]) && states[n - 1 + 1] == Apply(states[n - 1], steps[n - 1]);
      TurnsDescend(states[n - 1], steps[n - 1]);
      assert steps[..n][..n - 1] == steps[..n - 1];
    }
  }

  lemma {:induction false} AllWaiting(workers: seq<Worker>)
    requires forall w <- workers :: w.Waiting?
    ensures WorkersWork(workers) == |workers|
  {
    if workers != [] {
      AllWaiting(workers[..|workers| - 1]);
    }
  }

  /** Whatever is scheduled, and however often it is cancelled, a run takes at most two turns an entry, one a
      worker and one to close the list; and with a worker at all it does not stop before it is over. */
  lemma TheRunEnds(states: seq<State>, steps: seq<Step>, urls: seq<string>, workers: nat)
    requires IsRun(states, steps, urls, workers)
    ensures Turns(steps) <= 2 * |urls| + workers + 1
    ensures workers > 0 && !Over(states[|steps|]) ==> exists step :: Enabled(states[|steps|], step) && !step.Cancel?
  {
    hide WorkersWork, OccurrenceOf, Turns, Recorded, InFlight;
    var n := |steps|;
    assert steps[..n] == steps;
    TurnsAreSpent(states, steps, urls, workers, n);
    AllWaiting(Initial(urls, workers).workers);
    RunKeeps(states, steps, urls, workers, n);
    if workers > 0 && !Over(states[n]) {
      var step := NeverStuck(states[n]);
    }
  }

  // ---------------------------------------------------------------------------------------------
  // File names.

  lemma {:induction false} CountGrows(urls: seq<string>, i: nat, j: nat, url: string)
    requires i <= j <= |urls|
    ensures Count(urls[..i], url) <= Count(urls[..j], url)
  {
    if i < j {
      CountGrows(urls, i, j - 1, url);
      assert urls[..j][..j - 1] == urls[..j - 1];
    }
  }

  /** No two entries of a list share both URL and occurrence. */
  lemma OccurrencesAreDistinct(urls: seq<string>, i: nat, j: nat)
    requires i < j < |urls|
    ensures urls[i] == urls[j] ==> OccurrenceOf(urls, i) < OccurrenceOf(urls, j)
    ensures OccurrenceOf(urls, i) >= 1
  {
    CountGrows(urls, i + 1, j, urls[j]);
    assert urls[..j + 1][..j] == urls[..j];
    CountGrows(urls, 0, i, urls[i]);
    assert urls[..i + 1][..i] == urls[..i];
  }

  lemma DecimalInjective(m: nat, n: nat)
    requires Decimal(m) == Decimal(n)
    ensures m == n
  {
    DigitsRead(m);
    DigitsRead(n);
  }

  /** The body's file, from sixteen hex digits of a hash of the URL. */
  function FileName(job: Job, hash: string -> string): string {
    hash(job.url) + (if job.occurrence > 1 then "-" + Decimal(job.occurrence) else "") + ".html"
  }

  /** Two entries write to one file only if their URLs differ and the hash does not tell them apart. */
  lemma FilesAreDistinct(urls: seq<string>, i: nat, j: nat, hash: string -> string)
    requires i < j < |urls| && |hash(urls[i])| == |hash(urls[j])| == 16
    ensures FileName(Job(urls[i], OccurrenceOf(urls, i)), hash) == FileName(Job(urls[j], OccurrenceOf(urls, j)), hash)
            ==> urls[i] != urls[j] && hash(urls[i]) == hash(urls[j])
  {
    hide Decimal, OccurrenceOf;
    OccurrencesAreDistinct(urls, i, j);
    OccurrenceIsPositive(urls, j);
    var a, b := Job(urls[i], OccurrenceOf(urls, i)), Job(urls[j], OccurrenceOf(urls, j));
    if FileName(a, hash) == FileName(b, hash) {
      SameFile(a, b, hash);
    }
  }

  lemma OccurrenceIsPositive(urls: seq<string>, j: nat)
    requires j < |urls|
    ensures OccurrenceOf(urls, j) >= 1
  {
    assert urls[..j + 1][..j] == urls[..j];
  }

  function Suffix(occurrence: nat): string {
    if occurrence > 1 then "-" + Decimal(occurrence) else ""
  }

  lemma SameFile(a: Job, b: Job, hash: string -> string)
    requires |hash(a.url)| == |hash(b.url)| == 16 && a.occurrence >= 1 && b.occurrence >= 1
    requires FileName(a, hash) == FileName(b, hash)
    ensures hash(a.url) == hash(b.url) && a.occurrence == b.occurrence
  {
    hide Decimal;
    var x, y := FileName(a, hash), FileName(b, hash);
    assert hash(a.url) == x[..16] && hash(b.url) == y[..16];
    var s, t := Suffix(a.occurrence), Suffix(b.occurrence);
    assert s == x[16..|x| - 5] && t == y[16..|y| - 5];
    if a.occurrence > 1 && b.occurrence > 1 {
      assert Decimal(a.occurrence) == s[1..] && Decimal(b.occurrence) == t[1..];
      DecimalInjective(a.occurrence, b.occurrence);
    }
  }

  /** Occurrences are counted from one: a URL's first entry is its first, and every later one is the next after the
      one before. */
  lemma HowOccurrencesAreCounted(urls: seq<string>, i: nat, j: nat)
    requires i < |urls|
    ensures (forall k :: 0 <= k < i ==> urls[k] != urls[i]) ==> OccurrenceOf(urls, i) == 1
    ensures (j < i && urls[j] == urls[i] && forall k :: j < k < i ==> urls[k] != urls[i]) ==>
              OccurrenceOf(urls, i) == OccurrenceOf(urls, j) + 1
  {
    assert urls[..i + 1][..i] == urls[..i];
    if forall k :: 0 <= k < i ==> urls[k] != urls[i] {
      NothingCounted(urls, 0, i, urls[i]);
    }
    if j < i && urls[j] == urls[i] && forall k :: j < k < i ==> urls[k] != urls[i] {
      NothingCounted(urls, j + 1, i, urls[i]);
    }
  }

  lemma {:induction false} NothingCounted(urls: seq<string>, i: nat, j: nat, url: string)
    requires i <= j <= |urls| && forall k :: i <= k < j ==> urls[k] != url
    ensures Count(urls[..j], url) == Count(urls[..i], url)
  {
    if i < j {
      NothingCounted(urls, i, j - 1, url);
      assert urls[..j][..j - 1] == urls[..j - 1];
    }
  }

  /** A first occurrence is filed under the hash alone, a later one with its number behind it. */
  lemma HowAFileIsNamed(url: string, occurrence: nat, hash: string -> string)
    ensures occurrence <= 1 ==> FileName(Job(url, occurrence), hash) == hash(url) + ".html"
    ensures occurrence > 1 ==> exists digits ::
              && FileName(Job(url, occurrence), hash) == hash(url) + ("-" + digits) + ".html"
              && digits != "" && digits[0] != '0' && (forall c <- digits :: '0' <= c <= '9')
              && NumberOf(digits) == occurrence
  {
    hide Decimal, NumberOf;
    DecimalIs(occurrence);
    assert hash(url) + "" == hash(url);
  }

  /** What the workers are handed: the list from its front, each entry with its URL and its occurrence. */
  lemma WhatIsHandedOut(states: seq<State>, steps: seq<Step>, urls: seq<string>, workers: nat, n: nat, i: nat)
    requires IsRun(states, steps, urls, workers) && n <= |steps| && i < |states[n].handed|
    ensures i < |urls| && states[n].handed[i] == Job(urls[i], OccurrenceOf(urls, i))
  {
    hide OccurrenceOf;
    RunKeeps(states, steps, urls, workers, n);
  }

  // ---------------------------------------------------------------------------------------------
  // Repeating a fetch.

  datatype Try = Succeeded | Error | ErrorAndCancelled | ErrorThenCancelledInThePause

  predicate GoesOn(t: Try) {
    t.Error?
  }

  const MAX_INT: int := 0x7FFF_FFFF_FFFF_FFFF

  type Counter = x: int | 0 <= x <= MAX_INT

  /** One try and at most as many again as asked for; it stops early exactly at the first try that
      succeeded or was cancelled. The counter has 64 bits and never leaves them: the command line refuses the
      largest number, and the comparison does not form `repeat` + 1. */
  method Fetch(repeat: Counter, tries: Counter -> Try) returns (attempts: Counter, ok: bool)
    requires repeat < MAX_INT
    ensures 1 <= attempts <= repeat + 1
    ensures forall k: Counter :: 1 <= k < attempts ==> GoesOn(tries(k))
    ensures attempts <= repeat ==> !GoesOn(tries(attempts))
    ensures ok <==> tries(attempts).Succeeded?
  {
    attempts := 1;
    while true
      invariant 1 <= attempts <= repeat + 1
      invariant forall k: Counter :: 1 <= k < attempts ==> GoesOn(tries(k))
      decreases repeat + 1 - attempts
    {
      var t := tries(attempts);
      if t.Succeeded? {
        return attempts, true;
      }
      if t.ErrorAndCancelled? || attempts > repeat {
        return attempts, false;
      }
      if t.ErrorThenCancelledInThePause? {
        return attempts, false;
      }
      attempts := attempts + 1;
    }
  }
}
