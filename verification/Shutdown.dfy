/** Close in the proxy and in the capture server, as interleaved steps of the accept loops, the connection
    handlers and the one goroutine that closes.

    The two servers differ in one thing. The proxy raises its flag under the mutex, together with the
    snapshot of the open connections; the capture server closes its channel before anything else, and
    outside the mutex. `early` tells them apart. */
module Shutdown {

  datatype Acceptor = Listening | Holding(conn: nat) | Stopped

  /** Where a connection stands, from Accept to the end of its handler. */
  datatype Place =
    | Held(loop: nat)      // accepted, not yet counted
    | Counted(loop: nat)  // in the wait group, its handler not started
    | Started              // about to call track
    | Refused              // track said the server is closed
    | Serving(left: nat)   // registered, with this much received and not yet worked off
    | Forgotten            // no longer registered, not yet closed
    | Ending               // closed, still in the wait group
    | Ended

  datatype Conn = Conn(place: Place, closed: bool)

  datatype Closer = Idle | Listeners(closed: nat) | Sweeping(left: set<nat>) | Returned

  datatype State = State(
    early: bool,
    flag: bool,
    listening: seq<bool>,
    acceptors: seq<Acceptor>,
    conns: seq<Conn>,
    open: set<nat>,
    group: int,
    closer: Closer)

  datatype Step =
    | Accept(a: nat)         // Accept returns a connection
    | Add(a: nat)            // wg.Add(1)
    | Go(a: nat)             // the handler starts
    | Stop(a: nat)           // Accept fails, the loop ends
    | Track(c: nat)
    | Refuse(c: nat)         // the refused handler closes its connection
    | Arrive(c: nat, n: nat) // a read returns something to do
    | Work(c: nat)
    | Leave(c: nat)          // the handler returns: it is forgotten first
    | CloseOwn(c: nat)       // and then closed
    | Finish(c: nat)         // wg.Done()
    | Begin                  // Close is called
    | CloseListener
    | Snapshot
    | CloseOne(c: nat)
    | Return

  function Initial(early: bool, loops: nat): State {
    State(early, false, seq(loops, _ => true), seq(loops, _ => Listening), [], {}, loops, Idle)
  }

  predicate At(s: State, c: nat, p: Place) {
    c < |s.conns| && s.conns[c].place == p
  }

  predicate Enabled(s: State, step: Step) {
    match step
    case Accept(a) => a < |s.acceptors| && s.acceptors[a].Listening? && a < |s.listening| && s.listening[a]
    case Add(a) => a < |s.acceptors| && s.acceptors[a].Holding? && At(s, s.acceptors[a].conn, Held(a))
    case Go(a) => a < |s.acceptors| && s.acceptors[a].Holding? && At(s, s.acceptors[a].conn, Counted(a))
    case Stop(a) => a < |s.acceptors| && s.acceptors[a].Listening? && a < |s.listening| && !s.listening[a]
    case Track(c) => At(s, c, Started)
    case Refuse(c) => At(s, c, Refused)
    case Arrive(c, n) => c < |s.conns| && s.conns[c].place.Serving? && !s.conns[c].closed
    case Work(c) => c < |s.conns| && s.conns[c].place.Serving? && s.conns[c].place.left > 0
    case Leave(c) => c < |s.conns| && s.conns[c].place.Serving?
    case CloseOwn(c) => At(s, c, Forgotten)
    case Finish(c) => At(s, c, Ending)
    case Begin => s.closer.Idle?
    case CloseListener => s.closer.Listeners? && s.closer.closed < |s.listening|
    case Snapshot => s.closer.Listeners? && s.closer.closed == |s.listening|
    case CloseOne(c) => s.closer.Sweeping? && c in s.closer.left && c < |s.conns|
    case Return => s.closer == Sweeping({}) && s.group == 0
  }

  /** The steps only the peer can cause: a connection, something to read, or a hang-up. A handler with
      nothing left to work off, reading an open connection, gets no further without it. */
  predicate NeedsPeer(s: State, step: Step) {
    || step.Accept?
    || step.Arrive?
    || (step.Leave? && step.c < |s.conns| && s.conns[step.c].place == Serving(0) && !s.conns[step.c].closed)
  }

  function Moved(s: State, c: nat, p: Place): State
    requires c < |s.conns|
  {
    s.(conns := s.conns[c := s.conns[c].(place := p)])
  }

  function Shut(s: State, c: nat, p: Place): State
    requires c < |s.conns|
  {
    s.(conns := s.conns[c := Conn(p, true)])
  }

  function Apply(s: State, step: Step): State
    requires Enabled(s, step)
  {
    match step
    case Accept(a) =>
      s.(acceptors := s.acceptors[a := Holding(|s.conns|)], conns := s.conns + [Conn(Held(a), false)])
    case Add(a) => Moved(s, s.acceptors[a].conn, Counted(a)).(group := s.group + 1)
    case Go(a) => Moved(s, s.acceptors[a].conn, Started).(acceptors := s.acceptors[a := Listening])
    case Stop(a) => s.(acceptors := s.acceptors[a := Stopped], group := s.group - 1)
    case Track(c) => if s.flag then Moved(s, c, Refused) else Moved(s, c, Serving(0)).(open := s.open + {c})
    case Refuse(c) => Shut(s, c, Ending)
    case Arrive(c, n) => Moved(s, c, Serving(s.conns[c].place.left + n))
    case Work(c) => Moved(s, c, Serving(s.conns[c].place.left - 1))
    case Leave(c) => Moved(s, c, Forgotten).(open := s.open - {c})
    case CloseOwn(c) => Shut(s, c, Ending)
    case Finish(c) => Moved(s, c, Ended).(group := s.group - 1)
    case Begin => s.(flag := s.flag || s.early, closer := Listeners(0))
    case CloseListener =>
      s.(listening := s.listening[s.closer.closed := false], closer := Listeners(s.closer.closed + 1))
    case Snapshot => s.(flag := true, closer := Sweeping(s.open))
    case CloseOne(c) => Shut(s, c, s.conns[c].place).(closer := Sweeping(s.closer.left - {c}))
    case Return => s.(closer := Returned)
  }

  // ---------------------------------------------------------------------------------------------
  // What every step keeps.

  function LoopsRunning(acceptors: seq<Acceptor>): nat {
    if acceptors == [] then 0
    else LoopsRunning(acceptors[..|acceptors| - 1]) + (if acceptors[|acceptors| - 1].Stopped? then 0 else 1)
  }

  predicate InGroup(p: Place) {
    !p.Held? && !p.Ended?
  }

  function HandlersRunning(conns: seq<Conn>): nat {
    if conns == [] then 0
    else HandlersRunning(conns[..|conns| - 1]) + (if InGroup(conns[|conns| - 1].place) then 1 else 0)
  }

  /** A connection between Accept and its handler is in the hands of one accept loop. */
  predicate HandsMatch(s: State) {
    && |s.listening| == |s.acceptors|
    && (forall a :: 0 <= a < |s.acceptors| && s.acceptors[a].Holding? ==>
          At(s, s.acceptors[a].conn, Held(a)) || At(s, s.acceptors[a].conn, Counted(a)))
    && (forall c :: 0 <= c < |s.conns| && (s.conns[c].place.Held? || s.conns[c].place.Counted?) ==>
          s.conns[c].place.loop < |s.acceptors| && s.acceptors[s.conns[c].place.loop] == Holding(c))
  }

  /** The registered connections are those being served, and a connection outlives its handler by nothing. */
  predicate RegisterMatches(s: State) {
    && (forall c <- s.open :: c < |s.conns|)
    && (forall c :: 0 <= c < |s.conns| ==> (c in s.open <==> s.conns[c].place.Serving?))
    && (forall c :: 0 <= c < |s.conns| && (s.conns[c].place.Ending? || s.conns[c].place.Ended?) ==>
          s.conns[c].closed)
  }

  predicate GroupCounts(s: State) {
    s.group == LoopsRunning(s.acceptors) + HandlersRunning(s.conns)
  }

  predicate Swept(s: State, left: set<nat>) {
    && s.flag
    && (forall c <- left :: c < |s.conns|)
    && forall c :: 0 <= c < |s.conns| && s.conns[c].place.Serving? ==> c in left || s.conns[c].closed
  }

  predicate AllShut(s: State) {
    forall a :: 0 <= a < |s.listening| ==> !s.listening[a]
  }

  predicate CloserIsSound(s: State) {
    match s.closer
    case Idle => true
    case Listeners(k) => k <= |s.listening| && forall a :: 0 <= a < k ==> !s.listening[a]
    case Sweeping(left) => AllShut(s) && Swept(s, left)
    case Returned => AllShut(s) && Swept(s, {}) && s.group == 0
  }

  predicate Inv(s: State) {
    HandsMatch(s) && RegisterMatches(s) && GroupCounts(s) && CloserIsSound(s)
  }

  lemma {:induction false} LoopsAfter(acceptors: seq<Acceptor>, a: nat, x: Acceptor)
    requires a < |acceptors|
    ensures LoopsRunning(acceptors[a := x]) ==
            LoopsRunning(acceptors) - (if acceptors[a].Stopped? then 0 else 1) + (if x.Stopped? then 0 else 1)
  {
    var n := |acceptors| - 1;
    if a < n {
      LoopsAfter(acceptors[..n], a, x);
      assert acceptors[a := x][..n] == acceptors[..n][a := x];
    } else {
      assert acceptors[a := x][..n] == acceptors[..n];
    }
  }

  lemma {:induction false} HandlersAfter(conns: seq<Conn>, c: nat, x: Conn)
    requires c < |conns|
    ensures HandlersRunning(conns[c := x]) ==
            HandlersRunning(conns) - (if InGroup(conns[c].place) then 1 else 0) + (if InGroup(x.place) then 1 else 0)
  {
    var n := |conns| - 1;
    if c < n {
      HandlersAfter(conns[..n], c, x);
      assert conns[c := x][..n] == conns[..n][c := x];
    } else {
      assert conns[c := x][..n] == conns[..n];
    }
  }

  lemma HandlersAppend(conns: seq<Conn>, x: Conn)
    ensures HandlersRunning(conns + [x]) == HandlersRunning(conns) + (if InGroup(x.place) then 1 else 0)
  {
    assert (conns + [x])[..|conns|] == conns;
  }

  lemma {:induction false} SomeLoopRuns(acceptors: seq<Acceptor>, a: nat)
    requires a < |acceptors| && !acceptors[a].Stopped?
    ensures LoopsRunning(acceptors) > 0
  {
    if a < |acceptors| - 1 {
      SomeLoopRuns(acceptors[..|acceptors| - 1], a);
    }
  }

  lemma {:induction false} SomeHandlerRuns(conns: seq<Conn>, c: nat)
    requires c < |conns| && InGroup(conns[c].place)
    ensures HandlersRunning(conns) > 0
  {
    if c < |conns| - 1 {
      SomeHandlerRuns(conns[..|conns| - 1], c);
    }
  }

  lemma {:induction false} AllLoopsRun(n: nat)
    ensures LoopsRunning(seq(n, _ => Listening)) == n
  {
    if n > 0 {
      AllLoopsRun(n - 1);
      assert seq(n, _ => Listening)[..n - 1] == seq(n - 1, _ => Listening);
    }
  }

  lemma InitialIsSound(early: bool, loops: nat)
    ensures Inv(Initial(early, loops))
  {
    AllLoopsRun(loops);
  }

  /** The steps of the accept loops; the others are those of one handler, and of Close. */
  predicate OfALoop(step: Step) {
    step.Accept? || step.Add? || step.Go? || step.Stop?
  }

  lemma GroupKeptByLoops(s: State, step: Step)
    requires Inv(s) && Enabled(s, step) && OfALoop(step)
    ensures GroupCounts(Apply(s, step))
  {
    hide LoopsRunning, HandlersRunning, RegisterMatches, CloserIsSound;
    match step
    case Accept(a) =>
      LoopsAfter(s.acceptors, a, Holding(|s.conns|));
      HandlersAppend(s.conns, Conn(Held(a), false));
    case Add(a) => HandlersAfter(s.conns, s.acceptors[a].conn, Apply(s, step).conns[s.acceptors[a].conn]);
    case Go(a) =>
      HandlersAfter(s.conns, s.acceptors[a].conn, Apply(s, step).conns[s.acceptors[a].conn]);
      LoopsAfter(s.acceptors, a, Listening);
    case Stop(a) => LoopsAfter(s.acceptors, a, Stopped);
  }

  lemma GroupKeptByHandlers(s: State, step: Step)
    requires Inv(s) && Enabled(s, step) && !OfALoop(step)
    ensures GroupCounts(Apply(s, step))
  {
    hide LoopsRunning, HandlersRunning, RegisterMatches, CloserIsSound, HandsMatch;
    match step
    case Track(c) => HandlersAfter(s.conns, c, Apply(s, step).conns[c]);
    case Refuse(c) => HandlersAfter(s.conns, c, Apply(s, step).conns[c]);
    case Arrive(c, n) => HandlersAfter(s.conns, c, Apply(s, step).conns[c]);
    case Work(c) => HandlersAfter(s.conns, c, Apply(s, step).conns[c]);
    case Leave(c) => HandlersAfter(s.conns, c, Apply(s, step).conns[c]);
    case CloseOwn(c) => HandlersAfter(s.conns, c, Apply(s, step).conns[c]);
    case Finish(c) => HandlersAfter(s.conns, c, Apply(s, step).conns[c]);
    case CloseOne(c) => HandlersAfter(s.conns, c, Apply(s, step).conns[c]);
    case _ =>
  }

  lemma HandsKeptByLoops(s: State, step: Step)
    requires HandsMatch(s) && Enabled(s, step) && OfALoop(step)
    ensures HandsMatch(Apply(s, step))
  {
  }

  lemma HandsKeptByHandlers(s: State, step: Step)
    requires HandsMatch(s) && Enabled(s, step) && !OfALoop(step)
    ensures HandsMatch(Apply(s, step))
  {
    hide InGroup;
    if step.Track? || step.Refuse? || step.Arrive? || step.Work? {
      HandsKeptByServing(s, step);
    }
  }

  lemma HandsKeptByServing(s: State, step: Step)
    requires HandsMatch(s) && Enabled(s, step) && (step.Track? || step.Refuse? || step.Arrive? || step.Work?)
    ensures HandsMatch(Apply(s, step))
  {
    hide InGroup;
  }

  lemma RegisterKeptByLoops(s: State, step: Step)
    requires RegisterMatches(s) && Enabled(s, step) && OfALoop(step)
    ensures RegisterMatches(Apply(s, step))
  {
  }

  lemma RegisterKeptByHandlers(s: State, step: Step)
    requires RegisterMatches(s) && Enabled(s, step) && !OfALoop(step)
    ensures RegisterMatches(Apply(s, step))
  {
  }

  /** With nobody left in the group nothing can move, so nothing can be counted again. */
  lemma NothingMoves(s: State, step: Step)
    requires Inv(s) && s.closer.Returned?
    ensures !Enabled(s, step)
  {
    hide LoopsRunning, HandlersRunning;
    match step
    case Accept(a) => NoLoopLeft(s, a);
    case Add(a) => NoLoopLeft(s, a);
    case Go(a) => NoLoopLeft(s, a);
    case Stop(a) => NoLoopLeft(s, a);
    case Track(c) => NoHandlerLeft(s, c);
    case Refuse(c) => NoHandlerLeft(s, c);
    case Arrive(c, n) => NoHandlerLeft(s, c);
    case Work(c) => NoHandlerLeft(s, c);
    case Leave(c) => NoHandlerLeft(s, c);
    case CloseOwn(c) => NoHandlerLeft(s, c);
    case Finish(c) => NoHandlerLeft(s, c);
    case _ =>
  }

  lemma NoLoopLeft(s: State, a: nat)
    requires GroupCounts(s) && s.group == 0
    ensures a < |s.acceptors| ==> s.acceptors[a].Stopped?
  {
    if a < |s.acceptors| && !s.acceptors[a].Stopped? {
      SomeLoopRuns(s.acceptors, a);
    }
  }

  lemma NoHandlerLeft(s: State, c: nat)
    requires GroupCounts(s) && s.group == 0
    ensures c < |s.conns| ==> !InGroup(s.conns[c].place)
  {
    if c < |s.conns| && InGroup(s.conns[c].place) {
      SomeHandlerRuns(s.conns, c);
    }
  }

  lemma CloserKept(s: State, step: Step)
    requires Inv(s) && Enabled(s, step)
    ensures CloserIsSound(Apply(s, step))
  {
    hide LoopsRunning, HandlersRunning, GroupCounts;
    if s.closer.Returned? {
      NothingMoves(s, step);
    }
  }

  /** Every step of every goroutine keeps the books of the shutdown. */
  lemma StepKeeps(s: State, step: Step)
    requires Inv(s) && Enabled(s, step)
    ensures Inv(Apply(s, step))
  {
    if OfALoop(step) {
      GroupKeptByLoops(s, step);
      HandsKeptByLoops(s, step);
      RegisterKeptByLoops(s, step);
    } else {
      GroupKeptByHandlers(s, step);
      HandsKeptByHandlers(s, step);
      RegisterKeptByHandlers(s, step);
    }
    CloserKept(s, step);
    hide GroupCounts, HandsMatch, RegisterMatches, CloserIsSound, Apply, Enabled;
  }

  predicate IsRun(states: seq<State>, steps: seq<Step>) {
    && |states| == |steps| + 1
    && forall i :: 0 <= i < |steps| ==> Enabled(states[i], steps[i]) && states[i + 1] == Apply(states[i], steps[i])
  }

  lemma {:induction false} RunKeeps(states: seq<State>, steps: seq<Step>, to: nat)
    requires IsRun(states, steps) && Inv(states[0]) && to <= |steps|
    ensures Inv(states[to])
  {
    if to > 0 {
      RunKeeps(states, steps, to - 1);
      hide Inv, Apply, Enabled;
      assert Enabled(states[to - 1], steps[to - 1]) && states[to - 1 + 1] == Apply(states[to - 1], steps[to - 1]);
      StepKeeps(states[to - 1], steps[to - 1]);
    }
  }

  /** When Close returns, in whatever order everything happened, no accept loop and no handler is left, every
      connection ever accepted is closed, and none is registered. */
  lemma CloseLeavesNothing(early: bool, loops: nat, states: seq<State>, steps: seq<Step>, at: nat)
    requires IsRun(states, steps) && states[0] == Initial(early, loops)
    requires at <= |steps| && states[at].closer.Returned?
    ensures forall a <- states[at].acceptors :: a.Stopped?
    ensures forall c <- states[at].conns :: c.place.Ended? && c.closed
    ensures states[at].open == {}
  {
    InitialIsSound(early, loops);
    RunKeeps(states, steps, at);
    var s := states[at];
    forall a | 0 <= a < |s.acceptors|
      ensures s.acceptors[a].Stopped?
    {
      NoLoopLeft(s, a);
    }
    forall c | 0 <= c < |s.conns|
      ensures s.conns[c].place.Ended?
    {
      NoHandlerLeft(s, c);
    }
  }

  // ---------------------------------------------------------------------------------------------
  // Why the wait ends.

  predicate Waiting(s: State) {
    s.closer == Sweeping({})
  }

  function LoopWork(a: Acceptor): nat {
    match a
    case Listening => 1
    case Holding(_) => 2
    case Stopped => 0
  }

  function ConnWork(c: Conn): nat {
    match c.place
    case Held(_) => 6
    case Counted(_) => 5
    case Started => 3
    case Refused => 2
    case Serving(left) => 3 + left
    case Forgotten => 2
    case Ending => 1
    case Ended => 0
  }

  function LoopsWork(acceptors: seq<Acceptor>): nat {
    if acceptors == [] then 0
    else LoopsWork(acceptors[..|acceptors| - 1]) + LoopWork(acceptors[|acceptors| - 1])
  }

  function ConnsWork(conns: seq<Conn>): nat {
    if conns == [] then 0
    else ConnsWork(conns[..|conns| - 1]) + ConnWork(conns[|conns| - 1])
  }

  function WorkLeft(s: State): nat {
    LoopsWork(s.acceptors) + ConnsWork(s.conns) + (if s.closer.Returned? then 0 else 1)
  }

  lemma {:induction false} LoopsWorkAfter(acceptors: seq<Acceptor>, a: nat, x: Acceptor)
    requires a < |acceptors|
    ensures LoopsWork(acceptors[a := x]) == LoopsWork(acceptors) - LoopWork(acceptors[a]) + LoopWork(x)
  {
    var n := |acceptors| - 1;
    if a < n {
      LoopsWorkAfter(acceptors[..n], a, x);
      assert acceptors[a := x][..n] == acceptors[..n][a := x];
    } else {
      assert acceptors[a := x][..n] == acceptors[..n];
    }
  }

  lemma {:induction false} ConnsWorkAfter(conns: seq<Conn>, c: nat, x: Conn)
    requires c < |conns|
    ensures ConnsWork(conns[c := x]) == ConnsWork(conns) - ConnWork(conns[c]) + ConnWork(x)
  {
    var n := |conns| - 1;
    if c < n {
      ConnsWorkAfter(conns[..n], c, x);
      assert conns[c := x][..n] == conns[..n][c := x];
    } else {
      assert conns[c := x][..n] == conns[..n];
    }
  }

  lemma LoopStepsDescend(s: State, step: Step)
    requires HandsMatch(s) && AllShut(s) && Enabled(s, step) && OfALoop(step)
    ensures !step.Accept?
    ensures WorkLeft(Apply(s, step)) < WorkLeft(s)
  {
    hide LoopsWork, ConnsWork;
    match step
    case Accept(a) =>
    case Add(a) => ConnsWorkAfter(s.conns, s.acceptors[a].conn, Apply(s, step).conns[s.acceptors[a].conn]);
    case Go(a) =>
      ConnsWorkAfter(s.conns, s.acceptors[a].conn, Apply(s, step).conns[s.acceptors[a].conn]);
      LoopsWorkAfter(s.acceptors, a, Listening);
    case Stop(a) => LoopsWorkAfter(s.acceptors, a, Stopped);
  }

  lemma HandlerStepsDescend(s: State, step: Step)
    requires Swept(s, {}) && Waiting(s) && Enabled(s, step) && !OfALoop(step)
    ensures !NeedsPeer(s, step)
    ensures WorkLeft(Apply(s, step)) < WorkLeft(s)
  {
    hide LoopsWork, ConnsWork;
    match step
    case Track(c) => ConnsWorkAfter(s.conns, c, Apply(s, step).conns[c]);
    case Refuse(c) => ConnsWorkAfter(s.conns, c, Apply(s, step).conns[c]);
    case Work(c) => ConnsWorkAfter(s.conns, c, Apply(s, step).conns[c]);
    case Leave(c) => ConnsWorkAfter(s.conns, c, Apply(s, step).conns[c]);
    case CloseOwn(c) => ConnsWorkAfter(s.conns, c, Apply(s, step).conns[c]);
    case Finish(c) => ConnsWorkAfter(s.conns, c, Apply(s, step).conns[c]);
    case _ =>
  }

  /** Once Close waits, no step is the peer's to take and every step leaves less to do. */
  lemma WaitingStepsDescend(s: State, step: Step)
    requires Inv(s) && Waiting(s) && Enabled(s, step)
    ensures !NeedsPeer(s, step)
    ensures WorkLeft(Apply(s, step)) < WorkLeft(s)
    ensures Waiting(Apply(s, step)) || Apply(s, step).closer.Returned?
  {
    hide LoopsRunning, HandlersRunning, GroupCounts, WorkLeft;
    if OfALoop(step) {
      LoopStepsDescend(s, step);
    } else {
      HandlerStepsDescend(s, step);
    }
  }

  /** While Close waits, no handler can be held up by its peer: its connection is closed, or it is about to
      close it itself, or it has yet to ask track and will be refused. */
  lemma NobodyWaitsForThePeer(s: State, c: nat)
    requires Inv(s) && Waiting(s) && c < |s.conns|
    ensures var conn := s.conns[c];
            || conn.closed
            || conn.place.Refused? || conn.place.Forgotten?
            || (s.flag && (conn.place.Held? || conn.place.Counted? || conn.place.Started?))
  {
  }

  /** Somebody can always move: until Close returns there is a step that needs no
      peer. */
  lemma NeverStuck(s: State) returns (step: Step)
    requires Inv(s) && !s.closer.Idle? && !s.closer.Returned?
    ensures Enabled(s, step) && !NeedsPeer(s, step)
  {
    if s.closer.Listeners? {
      step := if s.closer.closed < |s.listening| then CloseListener else Snapshot;
    } else if s.closer.left != {} {
      var c :| c in s.closer.left;
      step := CloseOne(c);
    } else if a :| 0 <= a < |s.acceptors| && !s.acceptors[a].Stopped? {
      step := if s.acceptors[a].Listening? then Stop(a)
              else if s.conns[s.acceptors[a].conn].place.Held? then Add(a)
              else Go(a);
    } else if c :| 0 <= c < |s.conns| && !s.conns[c].place.Ended? {
      step := HandlerStep(s, c);
    } else {
      AllEnded(s);
      step := Return;
    }
  }

  function HandlerStep(s: State, c: nat): (step: Step)
    requires HandsMatch(s) && c < |s.conns| && !s.conns[c].place.Ended?
    requires forall a :: 0 <= a < |s.acceptors| ==> s.acceptors[a].Stopped?
    requires s.conns[c].place.Serving? ==> s.conns[c].closed
    ensures Enabled(s, step) && !NeedsPeer(s, step)
  {
    match s.conns[c].place
    case Started => Track(c)
    case Refused => Refuse(c)
    case Serving(_) => Leave(c)
    case Forgotten => CloseOwn(c)
    case Ending => Finish(c)
  }

  lemma {:induction false} NoLoops(acceptors: seq<Acceptor>)
    requires forall a <- acceptors :: a.Stopped?
    ensures LoopsRunning(acceptors) == 0
  {
    if acceptors != [] {
      NoLoops(acceptors[..|acceptors| - 1]);
    }
  }

  lemma {:induction false} NoHandlers(conns: seq<Conn>)
    requires forall c <- conns :: c.place.Ended?
    ensures HandlersRunning(conns) == 0
  {
    if conns != [] {
      NoHandlers(conns[..|conns| - 1]);
    }
  }

  lemma AllEnded(s: State)
    requires Inv(s)
    requires forall a :: 0 <= a < |s.acceptors| ==> s.acceptors[a].Stopped?
    requires forall c :: 0 <= c < |s.conns| ==> s.conns[c].place.Ended?
    ensures s.group == 0
  {
    NoLoops(s.acceptors);
    NoHandlers(s.conns);
  }

  /** The wait is bounded by the work that was left when it began, whatever is scheduled and whatever the
      peers do: a run from there is at most that long, and stops only with Close having returned. */
  lemma {:induction false} TheWaitEnds(states: seq<State>, steps: seq<Step>)
    requires IsRun(states, steps) && Inv(states[0]) && Waiting(states[0])
    ensures |steps| <= WorkLeft(states[0])
    ensures states[|steps|].closer.Returned? || exists step :: Enabled(states[|steps|], step)
    decreases |steps|
  {
    RunKeeps(states, steps, |steps|);
    if steps != [] {
      assert Enabled(states[0], steps[0]) && states[0 + 1] == Apply(states[0], steps[0]);
      StepKeeps(states[0], steps[0]);
      WaitingStepsDescend(states[0], steps[0]);
      hide Inv, Apply, Enabled, WorkLeft;
      if states[1].closer.Returned? {
        AfterReturn(states, steps);
      } else {
        RestOfRun(states, steps);
        TheWaitEnds(states[1..], steps[1..]);
      }
    } else {
      var step := NeverStuck(states[0]);
    }
  }

  lemma RestOfRun(states: seq<State>, steps: seq<Step>)
    requires IsRun(states, steps) && steps != []
    ensures IsRun(states[1..], steps[1..])
  {
    hide Apply, Enabled;
    forall i | 0 <= i < |steps[1..]|
      ensures Enabled(states[1..][i], steps[1..][i]) && states[1..][i + 1] == Apply(states[1..][i], steps[1..][i])
    {
      assert Enabled(states[i + 1], steps[i + 1]) && states[i + 1 + 1] == Apply(states[i + 1], steps[i + 1]);
    }
  }

  lemma AfterReturn(states: seq<State>, steps: seq<Step>)
    requires IsRun(states, steps) && |steps| > 0 && Inv(states[1]) && states[1].closer.Returned?
    ensures |steps| == 1
  {
    if |steps| > 1 {
      NothingMoves(states[1], steps[1]);
    }
  }

  // ---------------------------------------------------------------------------------------------
  // The register itself, as the servers keep it under their mutex.

  class Register {
    var closed: bool
    var conns: set<nat>

    ghost predicate Is(s: State)
      reads this
    {
      closed == s.flag && conns == s.open
    }

    constructor ()
      ensures closed == false && conns == {}
    {
      closed := false;
      conns := {};
    }

    /** `track`, against the Track step. */
    method Track(ghost s: State, conn: nat) returns (open: bool)
      requires Is(s) && Enabled(s, Step.Track(conn))
      modifies this
      ensures Is(Apply(s, Step.Track(conn)))
      ensures open <==> !old(closed)
      ensures closed == old(closed) && conns == old(conns) + (if open then {conn} else {})
      ensures open <==> At(Apply(s, Step.Track(conn)), conn, Serving(0))
    {
      if closed {
        return false;
      }
      conns := conns + {conn};
      return true;
    }

    /** The part of `forget` under the mutex, against the Leave step. */
    method Forget(ghost s: State, conn: nat)
      requires Is(s) && Enabled(s, Leave(conn))
      modifies this
      ensures Is(Apply(s, Leave(conn)))
      ensures closed == old(closed) && conns == old(conns) - {conn}
    {
      conns := conns - {conn};
    }

    /** The part of `Close` under the mutex, against the Snapshot step. The capture server has raised its
        flag before. */
    method TakeSnapshot(ghost s: State) returns (left: set<nat>)
      requires Is(s) && Enabled(s, Snapshot)
      modifies this
      ensures Is(Apply(s, Snapshot)) && Apply(s, Snapshot).closer == Sweeping(left)
      ensures closed && left == conns == old(conns)
    {
      closed := true;
      left := conns;
    }
  }
}
