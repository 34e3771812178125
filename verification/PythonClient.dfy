/** The Python wrapper: one lock, one request at a time, and one queue of lines per process. The steps are
    those between which other threads, the pipes and the processes can move; `Client` holds the methods
    that take them. */
module PythonClient {
  import opened Common
  import opened Daemon
  import opened RequestSpec
  import opened NodeClient

  /** What the line queue hands over. */
  datatype Item = Text(line: Line) | EndOfFile

  /** How far the request that holds the lock has come. */
  datatype Phase = Idle | Taken(job: Job) | Started(job: Job) | Waiting(job: Job)

  datatype Core = Core(view: View, process: Option<nat>, spawned: nat, lines: seq<Item>, phase: Phase)

  const FRESH_CORE := Core(START, None, 0, [], Idle)

  // ---------------------------------------------------------------------------------------------
  // Steps.

  datatype Step =
    | Take(call: Call)      // the lock is had, and an id
    | Start(spawns: bool)   // _ensure_started
    | Write(writes: bool)
    | Arrive(item: Item)    // a reader thread puts a line into the queue
    | Get                   // and the request takes one out
    | Expire                // the queue is empty at the deadline
    | Close

  predicate Enabled(c: Core, step: Step) {
    match step
    case Take(_) => c.phase.Idle?
    case Start(_) => c.phase.Taken?
    case Write(_) => c.phase.Started? && c.process.Some?
    case Arrive(_) => true
    case Get => c.phase.Waiting? && c.lines != []
    case Expire => c.phase.Waiting? && c.lines == []
    case Close => c.phase.Idle?
  }

  /** An answer to a request nobody waits for any more. */
  predicate Stale(item: Item, id: nat) {
    item.Text? && item.line.Object? && item.line.id != Some(id)
  }

  /** What an item that is not stale makes of the request. */
  function OutcomeOf(item: Item): Outcome {
    match item
    case EndOfFile => Failed(TransportExited)
    case Text(Garbage) => Failed(BadResponse)
    case Text(Object(_, body)) => if body.Unusable? then Failed(BadResponse) else Answered(body)
  }

  /** The request is over; the process may go with it. */
  function Over(c: Core, outcome: Outcome, stop: bool): Core
    requires !c.phase.Idle?
  {
    c.(view := c.view.(settled := c.view.settled + [Settlement(c.phase.job.id, outcome)]),
       process := if stop then None else c.process, phase := Idle)
  }

  function AfterTake(c: Core, call: Call): Core {
    if call.NoUrl? || c.view.closed then c
    else if !call.Encodable? then c.(view := c.view.(sequence := c.view.sequence + 1))
    else
      var job := Job(c.view.sequence + 1, call.url, call.rest);
      c.(view := c.view.(sequence := job.id, accepted := c.view.accepted + [job]), phase := Taken(job))
  }

  /** A new process comes with a new queue. */
  function AfterStart(c: Core, spawns: bool): Core
    requires c.phase.Taken?
  {
    if c.process.Some? then c.(phase := Started(c.phase.job))
    else if !spawns then Over(c, Failed(StartFailed), true)
    else c.(process := Some(c.spawned + 1), spawned := c.spawned + 1, lines := [], phase := Started(c.phase.job))
  }

  function AfterWrite(c: Core, writes: bool): Core
    requires c.phase.Started? && c.process.Some?
  {
    var d := c.(view := c.view.(written := c.view.written + [Sent(c.process.value, c.phase.job)]));
    if writes then d.(phase := Waiting(c.phase.job)) else Over(d, Failed(WriteFailed), true)
  }

  function AfterGet(c: Core): Core
    requires c.phase.Waiting? && c.lines != []
  {
    var d := c.(lines := c.lines[1..]);
    if Stale(c.lines[0], c.phase.job.id) then d else Over(d, OutcomeOf(c.lines[0]), c.lines[0].EndOfFile?)
  }

  function Apply(c: Core, step: Step): Core
    requires Enabled(c, step)
  {
    match step
    case Take(call) => AfterTake(c, call)
    case Start(spawns) => AfterStart(c, spawns)
    case Write(writes) => AfterWrite(c, writes)
    case Arrive(item) => c.(lines := c.lines + [item])
    case Get => AfterGet(c)
    case Expire => Over(c, Failed(TimedOut), true)
    case Close => c.(view := c.view.(closed := true), process := None)
  }

  /** The usable response an item carries. */
  function HeardIn(item: Item): set<Response> {
    match item
    case Text(Object(Some(id), body)) => if body.Unusable? then {} else {Response(id, body)}
    case _ => {}
  }

  function HeardOn(lines: seq<Item>): set<Response> {
    if lines == [] then {} else HeardIn(lines[0]) + HeardOn(lines[1..])
  }

  function HeardBy(c: Core, step: Step): set<Response>
    requires Enabled(c, step)
  {
    if step.Get? then HeardIn(c.lines[0]) else {}
  }

  // ---------------------------------------------------------------------------------------------
  // What every step keeps.

  /** At most the request that holds the lock is outstanding, and it is written once. */
  ghost predicate Orderly(c: Core) {
    && Numbered(c.view.accepted, c.view.sequence)
    && InCallOrder(c.view.settled, c.view.accepted)
    && WrittenOnce(c.view.written, c.view.accepted)
    && |c.view.accepted| == |c.view.settled| + (if c.phase.Idle? then 0 else 1)
    && (!c.phase.Idle? ==> c.view.accepted[|c.view.settled|] == c.phase.job)
    && (c.phase.Taken? || c.phase.Started? ==> Unwritten([c.phase.job], c.view.written))
    && (c.phase.Started? || c.phase.Waiting? ==> c.process.Some?)
    && (c.view.closed ==> c.phase.Idle? && c.process.None?)
  }

  lemma InvIsGood(c: Core)
    requires Orderly(c)
    ensures Good(c.view)
  {
  }

  lemma TakeIsNext(c: Core, call: Call)
    requires Orderly(c) && c.phase.Idle?
    ensures Orderly(AfterTake(c, call)) && Next(c.view, AfterTake(c, call).view, {})
  {
    hide Numbered, WrittenOnce, Unwritten, InCallOrder, Good, Next;
    InvIsGood(c);
    if call.NoUrl? || c.view.closed {
      NextStays(c.view, {});
    } else if !call.Encodable? {
      IdIsSpent(c);
    } else {
      JobIsTaken(c, Job(c.view.sequence + 1, call.url, call.rest));
    }
  }

  lemma IdIsSpent(c: Core)
    requires Orderly(c) && c.phase.Idle? && !c.view.closed
    ensures var d := c.(view := c.view.(sequence := c.view.sequence + 1)); Orderly(d) && Next(c.view, d.view, {})
  {
  }

  lemma NewestIsUnwritten(written: seq<Sent>, accepted: seq<Job>, job: Job)
    requires job.id >= 1 && Numbered(accepted, job.id - 1) && WrittenOnce(written, accepted)
    ensures Unwritten([job], written)
    ensures Numbered(accepted + [job], job.id) && WrittenOnce(written, accepted + [job])
  {
    forall i | 0 <= i < |written|
      ensures written[i].job.id < job.id
    {
      assert written[i].job in accepted;
      var k :| 0 <= k < |accepted| && accepted[k] == written[i].job;
    }
  }

  lemma JobIsTaken(c: Core, job: Job)
    requires Orderly(c) && c.phase.Idle? && !c.view.closed && job.id == c.view.sequence + 1
    ensures var d := c.(view := c.view.(sequence := job.id, accepted := c.view.accepted + [job]), phase := Taken(job));
            Orderly(d) && Next(c.view, d.view, {})
  {
    hide Numbered, WrittenOnce, Unwritten, Next, Good;
    NewestIsUnwritten(c.view.written, c.view.accepted, job);
    var d := c.(view := c.view.(sequence := job.id, accepted := c.view.accepted + [job]), phase := Taken(job));
    assert Orderly(d);
    InvIsGood(d);
    AcceptingIsNext(c.view, job);
  }

  /** However a request ends, it is settled as the next in call order, by an answer only if it was heard. */
  lemma OverIsNext(c: Core, outcome: Outcome, stop: bool, heard: set<Response>)
    requires Orderly(c) && !c.phase.Idle?
    requires outcome.Answered? ==> Response(c.phase.job.id, outcome.body) in heard
    ensures Orderly(Over(c, outcome, stop)) && Next(c.view, Over(c, outcome, stop).view, heard)
  {
    hide Numbered, WrittenOnce, Unwritten, Good, Next;
    var d := Over(c, outcome, stop);
    assert Orderly(d);
    InvIsGood(d);
    SettlingIsNext(c.view, d.view, [Settlement(c.phase.job.id, outcome)], heard);
  }

  lemma WriteKeeps(c: Core)
    requires Orderly(c) && c.phase.Started?
    ensures var d := c.(view := c.view.(written := c.view.written + [Sent(c.process.value, c.phase.job)]),
                        phase := Waiting(c.phase.job));
            Orderly(d) && Next(c.view, d.view, {})
  {
    var v := c.view.(written := c.view.written + [Sent(c.process.value, c.phase.job)]);
    assert [c.phase.job][0] == c.phase.job;
    assert WrittenOnce(v.written, v.accepted);
    var d := c.(view := v, phase := Waiting(c.phase.job));
    hide Numbered, WrittenOnce, Unwritten, Next, Good;
    InvIsGood(d);
    WritingIsNext(c.view, Sent(c.process.value, c.phase.job));
  }

  lemma WriteIsNext(c: Core, writes: bool)
    requires Orderly(c) && c.phase.Started?
    ensures Orderly(AfterWrite(c, writes)) && Next(c.view, AfterWrite(c, writes).view, {})
  {
    assert c.process.Some?;
    hide Orderly, Next;
    WriteKeeps(c);
    if !writes {
      var none: set<Response> := {};
      var d := c.(view := c.view.(written := c.view.written + [Sent(c.process.value, c.phase.job)]),
                  phase := Waiting(c.phase.job));
      OverIsNext(d, Failed(WriteFailed), true, none);
      NextCompose(c.view, d.view, Over(d, Failed(WriteFailed), true).view, none, none);
      assert none + none == none;
    }
  }

  lemma GetIsNext(c: Core)
    requires Orderly(c) && c.phase.Waiting? && c.lines != []
    ensures Orderly(AfterGet(c)) && Next(c.view, AfterGet(c).view, HeardIn(c.lines[0]))
  {
    InvIsGood(c);
    hide Numbered, WrittenOnce, Unwritten, InCallOrder, Good, Next;
    var d := c.(lines := c.lines[1..]);
    assert Orderly(d);
    hide Orderly;
    if Stale(c.lines[0], c.phase.job.id) {
      NextStays(c.view, HeardIn(c.lines[0]));
    } else {
      OverIsNext(d, OutcomeOf(c.lines[0]), c.lines[0].EndOfFile?, HeardIn(c.lines[0]));
    }
  }

  lemma QuietStep(c: Core, step: Step)
    requires Orderly(c) && Enabled(c, step) && (step.Arrive? || step.Close? || step.Start?)
    ensures Orderly(Apply(c, step)) && Next(c.view, Apply(c, step).view, {})
  {
    InvIsGood(c);
    if step.Start? && c.process.None? && !step.spawns {
      OverIsNext(c, Failed(StartFailed), true, {});
    } else {
      hide Numbered, WrittenOnce, Unwritten, InCallOrder;
    }
  }

  /** Every step keeps the invariant and is a step of the specification. */
  lemma StepIsNext(c: Core, step: Step)
    requires Orderly(c) && Enabled(c, step)
    ensures Orderly(Apply(c, step)) && Next(c.view, Apply(c, step).view, HeardBy(c, step))
  {
    if step.Take? {
      TakeIsNext(c, step.call);
    } else if step.Write? {
      WriteIsNext(c, step.writes);
    } else if step.Get? {
      GetIsNext(c);
    } else if step.Expire? {
      OverIsNext(c, Failed(TimedOut), true, {});
    } else {
      QuietStep(c, step);
    }
  }

  // ---------------------------------------------------------------------------------------------
  // The waiting loop.

  /** Getting one line after another until the request is over or nothing more came. */
  function Finish(c: Core): Core
    requires c.phase.Waiting?
    decreases |c.lines|
  {
    if c.lines == [] then Apply(c, Expire)
    else
      var d := AfterGet(c);
      if d.phase.Idle? then d else Finish(d)
  }

  /** Where the first item that is not stale is. */
  function FirstFresh(feed: seq<Item>, id: nat): (k: nat)
    ensures k <= |feed|
    ensures forall j :: 0 <= j < k ==> Stale(feed[j], id)
    ensures k < |feed| ==> !Stale(feed[k], id)
  {
    if feed == [] || !Stale(feed[0], id) then 0 else 1 + FirstFresh(feed[1..], id)
  }

  /** The request ends by the first line that is not stale, which takes the process along only at the end
      of the file, or else by the deadline. What came after that line is left in the queue. */
  lemma {:induction false} FinishIs(c: Core)
    requires c.phase.Waiting?
    ensures var k, d := FirstFresh(c.lines, c.phase.job.id), Finish(c);
            && d.phase.Idle?
            && d.view == c.view.(settled := d.view.settled)
            && d.spawned == c.spawned
            && (k == |c.lines| ==> d == Over(c.(lines := []), Failed(TimedOut), true))
            && (k < |c.lines| ==> d == Over(c.(lines := c.lines[k + 1..]), OutcomeOf(c.lines[k]), c.lines[k].EndOfFile?))
    decreases |c.lines|
  {
    if c.lines != [] && Stale(c.lines[0], c.phase.job.id) {
      FinishIs(AfterGet(c));
    }
  }

  /** An answer is taken only under the id that was asked for. */
  lemma AnswerWasHeard(c: Core)
    requires c.phase.Waiting?
    ensures var last := Finish(c).view.settled;
            && last != []
            && last[|last| - 1].id == c.phase.job.id
            && (last[|last| - 1].outcome.Answered? ==>
                  Response(c.phase.job.id, last[|last| - 1].outcome.body) in HeardOn(c.lines))
  {
    FinishIs(c);
    var k := FirstFresh(c.lines, c.phase.job.id);
    if k < |c.lines| {
      HeardAt(c.lines, k);
    }
  }

  lemma {:induction false} HeardAt(lines: seq<Item>, k: nat)
    requires k < |lines|
    ensures HeardIn(lines[k]) <= HeardOn(lines)
  {
    if k > 0 {
      HeardAt(lines[1..], k - 1);
    }
  }

  lemma {:induction false} HeardSnoc(lines: seq<Item>, item: Item)
    ensures HeardOn(lines + [item]) == HeardOn(lines) + HeardIn(item)
  {
    if lines == [] {
      assert [item][1..] == [] && [] + [item] == [item];
    } else {
      HeardSnoc(lines[1..], item);
      assert (lines + [item])[1..] == lines[1..] + [item];
    }
  }

  lemma {:induction false} FinishIsNext(c: Core)
    requires Orderly(c) && c.phase.Waiting?
    ensures Orderly(Finish(c)) && Next(c.view, Finish(c).view, HeardOn(c.lines))
    decreases |c.lines|
  {
    hide Orderly, Next;
    if c.lines == [] {
      StepIsNext(c, Expire);
    } else {
      GetIsNext(c);
      var d := AfterGet(c);
      if d.phase.Idle? {
        WiderIsNext(c.view, d.view, HeardIn(c.lines[0]), HeardOn(c.lines));
      } else {
        FinishIsNext(d);
        NextCompose(c.view, d.view, Finish(d).view, HeardIn(c.lines[0]), HeardOn(d.lines));
      }
    }
  }

  lemma WiderIsNext(v: View, w: View, heard: set<Response>, more: set<Response>)
    requires Next(v, w, heard) && heard <= more
    ensures Next(v, w, more)
  {
  }

  /** A whole request: its steps one after another, with what the reader threads put into the queue between
      the write and the deadline. */
  function Whole(c: Core, call: Call, spawns: bool, writes: bool, arrivals: seq<Item>): Core
    requires c.phase.Idle?
  {
    var taken := AfterTake(c, call);
    if taken.phase.Idle? then taken else Exchanged(taken, spawns, writes, arrivals)
  }

  function Exchanged(taken: Core, spawns: bool, writes: bool, arrivals: seq<Item>): (over: Core)
    requires taken.phase.Taken?
    ensures over.phase.Idle?
  {
    var started := AfterStart(taken, spawns);
    if started.phase.Idle? then started
    else
      var written := AfterWrite(started, writes);
      if written.phase.Idle? then written
      else
        FinishIs(written.(lines := written.lines + arrivals));
        Finish(written.(lines := written.lines + arrivals))
  }

  /** What a request may hear: leftovers of the same process, and what arrives. */
  function Audible(c: Core, arrivals: seq<Item>): set<Response> {
    HeardOn((if c.process.Some? then c.lines else []) + arrivals)
  }

  lemma StartAndWrite(taken: Core, spawns: bool, writes: bool)
    requires Orderly(taken) && taken.phase.Taken?
    ensures var started := AfterStart(taken, spawns);
            if started.phase.Idle? then Orderly(started) && Next(taken.view, started.view, {})
            else Orderly(AfterWrite(started, writes)) && Next(taken.view, AfterWrite(started, writes).view, {})
  {
    hide Orderly, Next;
    QuietStep(taken, Start(spawns));
    var started := AfterStart(taken, spawns);
    if !started.phase.Idle? {
      var none: set<Response> := {};
      WriteIsNext(started, writes);
      NextCompose(taken.view, started.view, AfterWrite(started, writes).view, none, none);
      assert none + none == none;
    }
  }

  lemma LinesDoNotMatter(c: Core, lines: seq<Item>)
    requires Orderly(c)
    ensures Orderly(c.(lines := lines))
  {
    hide Numbered, InCallOrder, WrittenOnce, Unwritten;
  }

  lemma ExchangedIsNext(taken: Core, spawns: bool, writes: bool, arrivals: seq<Item>)
    requires Orderly(taken) && taken.phase.Taken?
    ensures var over := Exchanged(taken, spawns, writes, arrivals);
            Orderly(over) && Next(taken.view, over.view, Audible(taken, arrivals))
  {
    hide Orderly, Next, Finish, HeardOn;
    StartAndWrite(taken, spawns, writes);
    var started := AfterStart(taken, spawns);
    var none: set<Response> := {};
    if started.phase.Idle? {
      WiderIsNext(taken.view, started.view, none, Audible(taken, arrivals));
    } else {
      var written := AfterWrite(started, writes);
      if written.phase.Idle? {
        WiderIsNext(taken.view, written.view, none, Audible(taken, arrivals));
      } else {
        var full := written.(lines := written.lines + arrivals);
        LinesDoNotMatter(written, full.lines);
        FinishIsNext(full);
        NextCompose(taken.view, written.view, Finish(full).view, none, HeardOn(full.lines));
        assert none + HeardOn(full.lines) == HeardOn(full.lines);
      }
    }
  }

  lemma WholeIsNext(c: Core, call: Call, spawns: bool, writes: bool, arrivals: seq<Item>)
    requires Orderly(c) && c.phase.Idle?
    ensures var d := Whole(c, call, spawns, writes, arrivals);
            && d.phase.Idle? && Orderly(d)
            && Next(c.view, d.view, Audible(c, arrivals))
  {
    hide Orderly, Next, Exchanged;
    var none: set<Response> := {};
    TakeIsNext(c, call);
    var taken := AfterTake(c, call);
    if taken.phase.Idle? {
      WiderIsNext(c.view, taken.view, none, Audible(c, arrivals));
    } else {
      ExchangedIsNext(taken, spawns, writes, arrivals);
      NextCompose(c.view, taken.view, Exchanged(taken, spawns, writes, arrivals).view, none, Audible(c, arrivals));
      assert none + Audible(c, arrivals) == Audible(c, arrivals);
    }
  }

  // ---------------------------------------------------------------------------------------------
  // What a request comes to.

  /** A call that never gets a process. */
  lemma RequestIsRefused(c: Core, call: Call, spawns: bool, writes: bool, arrivals: seq<Item>)
    requires Orderly(c) && c.phase.Idle?
    ensures var d := Whole(c, call, spawns, writes, arrivals);
            && (c.view.closed || call.NoUrl? ==> d == c)
            && (!c.view.closed && (call.UnusableBody? || call.NotJson?) ==>
                  d == c.(view := c.view.(sequence := c.view.sequence + 1)))
            && (!c.view.closed && call.Encodable? ==>
                  && d.view.sequence == c.view.sequence + 1
                  && d.view.accepted == c.view.accepted + [Job(c.view.sequence + 1, call.url, call.rest)]
                  && (c.process.None? && !spawns ==>
                        && d.view.settled == c.view.settled + [Settlement(c.view.sequence + 1, Failed(StartFailed))]
                        && d.view.written == c.view.written && d.process == None))
  {
    hide Finish, Orderly, Exchanged;
    if !c.view.closed && call.Encodable? {
      ExchangeAccepts(AfterTake(c, call), spawns, writes, arrivals);
    }
  }

  lemma ExchangeAccepts(taken: Core, spawns: bool, writes: bool, arrivals: seq<Item>)
    requires taken.phase.Taken?
    ensures var d := Exchanged(taken, spawns, writes, arrivals);
            && d.view.sequence == taken.view.sequence && d.view.accepted == taken.view.accepted
            && (taken.process.None? && !spawns ==>
                  && d.view.settled == taken.view.settled + [Settlement(taken.phase.job.id, Failed(StartFailed))]
                  && d.view.written == taken.view.written && d.process == None)
  {
    hide Finish;
    if taken.process.Some? || spawns {
      var started := AfterStart(taken, spawns);
      var written := AfterWrite(started, writes);
      if writes {
        FinishIs(written.(lines := written.lines + arrivals));
      }
    }
  }

  /** Where the answer is looked for: nothing but lines under other ids stands before the place. */
  predicate OnlyOthersBefore(feed: seq<Item>, id: nat, place: nat) {
    && place <= |feed|
    && forall j :: 0 <= j < place ==> feed[j].Text? && feed[j].line.Object? && feed[j].line.id != Some(id)
  }

  /** A call that is written: to the process there is, whose queue may hold leftovers, or to a new one, whose
      queue is empty. The first line under its own id answers it; an unusable one, garbage, or the end of the
      output fails it; nothing in time does too. The process is stopped for a failed write, at the end of its
      output, and at the deadline. */
  lemma RequestEnds(c: Core, url: string, rest: string, spawns: bool, writes: bool, arrivals: seq<Item>, place: nat)
    requires Orderly(c) && c.phase.Idle? && !c.view.closed && (c.process.Some? || spawns)
    requires var feed := (if c.process.Some? then c.lines else []) + arrivals;
             OnlyOthersBefore(feed, c.view.sequence + 1, place)
    ensures var feed := (if c.process.Some? then c.lines else []) + arrivals;
            var g := if c.process.Some? then c.process.value else c.spawned + 1;
            var id, d := c.view.sequence + 1, Whole(c, Encodable(url, rest), spawns, writes, arrivals);
            && d.view.written == c.view.written + [Sent(g, Job(id, url, rest))]
            && (!writes ==>
                  d.view.settled == c.view.settled + [Settlement(id, Failed(WriteFailed))] && d.process == None)
            && (writes && place == |feed| ==>
                  d.view.settled == c.view.settled + [Settlement(id, Failed(TimedOut))] && d.process == None)
            && (writes && place < |feed| && feed[place] == EndOfFile ==>
                  d.view.settled == c.view.settled + [Settlement(id, Failed(TransportExited))] && d.process == None)
            && (writes && place < |feed| && (feed[place] == Text(Garbage) ||
                                             feed[place] == Text(Object(Some(id), Unusable))) ==>
                  d.view.settled == c.view.settled + [Settlement(id, Failed(BadResponse))] &&
                  d.process == Some(g) && d.lines == feed[place + 1..])
            && (forall content: string :: writes && place < |feed| &&
                                          feed[place] == Text(Object(Some(id), Page(content))) ==>
                  d.view.settled == c.view.settled + [Settlement(id, Answered(Page(content)))] &&
                  d.process == Some(g) && d.lines == feed[place + 1..])
            && (forall message: string :: writes && place < |feed| &&
                                          feed[place] == Text(Object(Some(id), Failure(message))) ==>
                  d.view.settled == c.view.settled + [Settlement(id, Answered(Failure(message)))] &&
                  d.process == Some(g) && d.lines == feed[place + 1..])
  {
    hide Finish, Orderly, FirstFresh;
    var taken := AfterTake(c, Encodable(url, rest));
    var started := AfterStart(taken, spawns);
    var written := AfterWrite(started, writes);
    if writes {
      var waiting := written.(lines := written.lines + arrivals);
      FinishIs(waiting);
      if place == |waiting.lines| || !Stale(waiting.lines[place], c.view.sequence + 1) {
        FirstFreshAt(waiting.lines, c.view.sequence + 1, place);
      }
    }
  }

  lemma FirstFreshAt(feed: seq<Item>, id: nat, place: nat)
    requires OnlyOthersBefore(feed, id, place)
    requires place == |feed| || !Stale(feed[place], id)
    ensures FirstFresh(feed, id) == place
  {
  }

  // ---------------------------------------------------------------------------------------------
  // The object.

  class Client {
    var sequence: nat
    var closed: bool
    var process: Option<nat>
    var spawned: nat
    var lines: seq<Item>

    // The logs.
    var accepted: seq<Job>
    var settled: seq<Settlement>
    var written: seq<Sent>

    function Seen(): View
      reads this
    {
      View(sequence, closed, accepted, settled, written)
    }

    /** The state, with the running request this far. */
    function Model(phase: Phase): Core
      reads this
    {
      Core(Seen(), process, spawned, lines, phase)
    }

    ghost predicate Valid()
      reads this
    {
      Orderly(Model(Idle))
    }

    constructor ()
      ensures Valid() && Model(Idle) == FRESH_CORE
    {
      sequence, closed, process, spawned, lines := 0, false, None, 0, [];
      accepted, settled, written := [], [], [];
    }

    /** One request under the lock. `arrivals` is what the reader threads put into the queue between the write
        and the deadline; `writes` says whether the pipe took the line. */
    method Request(call: Call, spawns: bool, writes: bool, arrivals: seq<Item>)
      requires Valid()
      modifies this
      ensures Valid() && Model(Idle) == Whole(old(Model(Idle)), call, spawns, writes, arrivals)
      ensures Next(old(Seen()), Seen(), Audible(old(Model(Idle)), arrivals))
    {
      hide Orderly, Next, Exchanged;
      WholeIsNext(Model(Idle), call, spawns, writes, arrivals);
      if call.NoUrl? || closed {
        return;
      }
      sequence := sequence + 1;
      if !call.Encodable? {
        return;
      }
      var job := Job(sequence, call.url, call.rest);
      accepted := accepted + [job];
      Exchange(job, spawns, writes, arrivals);
    }

    method Close()
      requires Valid()
      modifies this
      ensures Valid() && Model(Idle) == Apply(old(Model(Idle)), Step.Close)
      ensures closed && process == None && lines == old(lines) && spawned == old(spawned)
      ensures Seen() == old(Seen()).(closed := true)
      ensures Next(old(Seen()), Seen(), {})
    {
      StepIsNext(Model(Idle), Step.Close);
      closed := true;
      Stop();
    }

    method Stop()
      modifies `process
      ensures process.None?
    {
      process := None;
    }

    method Settle(job: Job, outcome: Outcome)
      modifies `settled
      ensures settled == old(settled) + [Settlement(job.id, outcome)]
    {
      settled := settled + [Settlement(job.id, outcome)];
    }

    /** Every new process gets a queue of its own. */
    method EnsureStarted(job: Job, spawns: bool) returns (up: bool)
      modifies `process, `spawned, `lines, `settled
      ensures up == (old(process).Some? || spawns) && (up ==> process.Some?)
      ensures Model(if up then Started(job) else Idle) == AfterStart(old(Model(Taken(job))), spawns)
    {
      if process.Some? {
        return true;
      }
      if !spawns {
        Settle(job, Failed(StartFailed));
        return false;
      }
      spawned := spawned + 1;
      process := Some(spawned);
      lines := [];
      up := true;
    }

    method WriteLine(job: Job, writes: bool) returns (ok: bool)
      requires process.Some?
      modifies `process, `written, `settled
      ensures ok == writes
      ensures Model(if writes then Waiting(job) else Idle) == AfterWrite(old(Model(Started(job))), writes)
    {
      written := written + [Sent(process.value, job)];
      if !writes {
        Stop();
        Settle(job, Failed(WriteFailed));
      }
      return writes;
    }

    /** What the first item that is not stale makes of the request. */
    method EndBy(job: Job, item: Item)
      requires !Stale(item, job.id)
      modifies `process, `settled
      ensures Model(Idle) == Over(old(Model(Waiting(job))), OutcomeOf(item), item.EndOfFile?)
    {
      if item.EndOfFile? {
        Stop();
        Settle(job, Failed(TransportExited));
      } else if item.line.Garbage? || item.line.body.Unusable? {
        Settle(job, Failed(BadResponse));
      } else {
        Settle(job, Answered(item.line.body));
      }
    }

    /** The steps of one exchange, in the order in which the code takes them. */
    method Exchange(job: Job, spawns: bool, writes: bool, arrivals: seq<Item>)
      modifies `process, `spawned, `lines, `written, `settled
      ensures Model(Idle) == Exchanged(old(Model(Taken(job))), spawns, writes, arrivals)
    {
      hide AfterStart, AfterWrite;
      var up := EnsureStarted(job, spawns);
      if !up {
        return;
      }
      var ok := WriteLine(job, writes);
      if !ok {
        return;
      }
      lines := lines + arrivals;
      ghost var end := Finish(Model(Waiting(job)));
      assert end == Exchanged(old(Model(Taken(job))), spawns, writes, arrivals);
      hide Exchanged;
      while true
        invariant Finish(Model(Waiting(job))) == end
        decreases |lines|
      {
        if lines == [] {
          Stop();
          Settle(job, Failed(TimedOut));
          return;
        }
        var item := lines[0];
        lines := lines[1..];
        if item.Text? && item.line.Object? && item.line.id != Some(job.id) {
          continue;
        }
        EndBy(job, item);
        return;
      }
    }
  }
}
