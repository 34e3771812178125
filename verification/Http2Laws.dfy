/** What holds of every life of an HTTP/2 connection, whatever frames arrive and however streams interleave. */
module Http2Laws {
  import opened Common
  import opened Bytes
  import opened Text
  import opened Http2

  // ---------------------------------------------------------------------------------------------
  // The connection window.

  function Received(frames: seq<Frame>): nat {
    if frames == [] then 0
    else
      var f := frames[|frames| - 1];
      Received(frames[..|frames| - 1]) + (if f.Data? then |f.data| else 0)
  }

  function Replenished(out: seq<Out>): nat {
    if out == [] then 0
    else
      var o := out[|out| - 1];
      Replenished(out[..|out| - 1]) + (if o.Replenish? then o.octets else 0)
  }

  lemma ReplenishedSnoc(out: seq<Out>, o: Out)
    ensures Replenished(out + [o]) == Replenished(out) + (if o.Replenish? then o.octets else 0)
  {
    assert (out + [o])[..|out|] == out;
  }

  lemma AnsweredReplenishesNothing(out: seq<Out>, req: Request, routes: Routes, after: seq<Out>, status: Status)
    requires Answered(out, req, routes, after, status)
    ensures Replenished(after) == Replenished(out)
  {
    if after != out {
      assert after == out + [after[|out|]];
      ReplenishedSnoc(out, after[|out|]);
    }
  }

  lemma FrameReplenishes(s: State, f: Frame, routes: Routes, t: State)
    requires Handled(s, f, routes, t)
    ensures Replenished(t.out) == Replenished(s.out) + if f.Data? then |f.data| else 0
  {
    hide Replenished, Answered, Recorded, RequestOf;
    match f
    case Settings(ack, _) => ReplenishedSnoc(s.out, SettingsAck);
    case Headers(stream, fields, _, truncated, ended) =>
      if !truncated && ended {
        AnsweredReplenishesNothing(s.out, RequestOf(stream, fields), routes, t.out, t.status);
      }
    case Data(stream, data, ended) =>
      ReplenishedSnoc(s.out, Replenish(|data|));
      if stream in s.pending && Append(s.pending[stream], data).Some? && ended {
        AnsweredReplenishesNothing(AfterWindow(s.out, data), Append(s.pending[stream], data).value, routes, t.out,
                                   t.status);
      }
    case Ping(ack, data) => ReplenishedSnoc(s.out, Pong(data));
    case _ =>
  }

  /** After every frame, the one that ends the connection included, the peer has been given back exactly the
      connection window its data took. */
  lemma {:induction false} WindowIsRestored(states: seq<State>, frames: seq<Frame>, routes: Routes, n: nat)
    requires IsRun(states, frames, routes) && n <= |frames|
    ensures Replenished(states[n].out) == Received(frames[..n])
  {
    hide Handled, Replenished;
    if n == 0 {
      NothingReplenished();
    } else {
      WindowIsRestored(states, frames, routes, n - 1);
      assert Handled(states[n - 1], frames[n - 1], routes, states[n - 1 + 1]);
      FrameReplenishes(states[n - 1], frames[n - 1], routes, states[n]);
      assert frames[..n][..n - 1] == frames[..n - 1];
    }
  }

  lemma NothingReplenished()
    ensures Replenished([]) == 0
  {
  }

  // ---------------------------------------------------------------------------------------------
  // One stream on its own.

  predicate OnStream(f: Frame, stream: nat) {
    (f.Headers? || f.Data?) && f.stream == stream
  }

  function Only(frames: seq<Frame>, stream: nat): seq<Frame> {
    if frames == [] then []
    else
      var f := frames[|frames| - 1];
      Only(frames[..|frames| - 1], stream) + (if OnStream(f, stream) then [f] else [])
  }

  /** A stream as a reader of it alone sees it: a request being received, the requests received, and
      whether one has outgrown the limit. */
  datatype View = View(open: Option<Request>, received: seq<Request>, over: bool)

  const QUIET := View(None, [], false)

  function Advance(v: View, f: Frame): View {
    if v.over then v
    else match f
      case Headers(stream, fields, _, _, ended) =>
        if ended then v.(received := v.received + [RequestOf(stream, fields)])
        else v.(open := Some(RequestOf(stream, fields)))
      case Data(_, data, ended) =>
        if v.open.None? then v
        else
          var grown := Append(v.open.value, data);
          if grown.None? then v.(over := true)
          else if ended then View(None, v.received + [grown.value], false)
          else v.(open := grown)
      case _ => v
  }

  function ViewOf(frames: seq<Frame>, stream: nat): View {
    if frames == [] then QUIET
    else
      var f := frames[|frames| - 1];
      var v := ViewOf(frames[..|frames| - 1], stream);
      if OnStream(f, stream) then Advance(v, f) else v
  }

  lemma ViewSnoc(frames: seq<Frame>, f: Frame, stream: nat)
    ensures ViewOf([], stream) == QUIET
    ensures ViewOf(frames + [f], stream) ==
            if OnStream(f, stream) then Advance(ViewOf(frames, stream), f) else ViewOf(frames, stream)
  {
    assert (frames + [f])[..|frames|] == frames;
  }

  lemma {:induction false} ViewSeesOnly(frames: seq<Frame>, stream: nat)
    ensures ViewOf(frames, stream) == ViewOf(Only(frames, stream), stream)
  {
    hide Advance;
    if frames != [] {
      var front, f := frames[..|frames| - 1], frames[|frames| - 1];
      ViewSeesOnly(front, stream);
      if OnStream(f, stream) {
        ViewSnoc(Only(front, stream), f, stream);
      } else {
        assert Only(front, stream) + [] == Only(front, stream);
      }
    }
  }

  /** The requests of one stream among the answers. */
  function AnswersOn(out: seq<Out>, stream: nat): seq<Request> {
    if out == [] then []
    else
      var o := out[|out| - 1];
      AnswersOn(out[..|out| - 1], stream) +
      (if o.Answer? && o.request.stream == stream then [o.request] else [])
  }

  lemma AnswersSnoc(out: seq<Out>, o: Out, stream: nat)
    ensures AnswersOn([], stream) == []
    ensures AnswersOn(out + [o], stream) ==
            AnswersOn(out, stream) + (if o.Answer? && o.request.stream == stream then [o.request] else [])
  {
    assert (out + [o])[..|out|] == out;
  }

  function PendingOn(s: State, stream: nat): Option<Request> {
    if stream in s.pending then Some(s.pending[stream]) else None
  }

  /** The loop's state agrees with what a reader of the stream alone would have seen. */
  ghost predicate Agrees(s: State, v: View, stream: nat) {
    && PendingOn(s, stream) == v.open
    && AnswersOn(s.out, stream) == v.received
    && !v.over
  }

  /** A request waits under its own number, and no body is over the limit. */
  ghost predicate Orderly(s: State) {
    forall n <- s.pending :: s.pending[n].stream == n && |s.pending[n].body| <= MAX_REQUEST_BODY
  }

  lemma AnsweredAnswers(out: seq<Out>, req: Request, routes: Routes, after: seq<Out>, status: Status, stream: nat)
    requires Answered(out, req, routes, after, status)
    ensures AnswersOn(after, stream) ==
            AnswersOn(out, stream) + (if status == Running && req.stream == stream then [req] else [])
  {
    hide AnswersOn, IsResponse;
    if status == Running {
      assert after == out + [after[|out|]];
      AnswersSnoc(out, after[|out|], stream);
    } else {
      assert AnswersOn(out, stream) + [] == AnswersOn(out, stream);
    }
  }

  lemma NoAnswer(out: seq<Out>, o: Out, stream: nat)
    requires !o.Answer?
    ensures AnswersOn(out + [o], stream) == AnswersOn(out, stream)
  {
    AnswersSnoc(out, o, stream);
    assert AnswersOn(out, stream) + [] == AnswersOn(out, stream);
  }

  lemma WindowAnswersNothing(out: seq<Out>, data: seq<byte>, stream: nat)
    ensures AnswersOn(AfterWindow(out, data), stream) == AnswersOn(out, stream)
  {
    if data != [] {
      NoAnswer(out, Replenish(|data|), stream);
    }
  }

  lemma HeadersAgree(s: State, f: Frame, routes: Routes, t: State, v: View, stream: nat)
    requires f.Headers? && Handled(s, f, routes, t) && t.status == Running && Agrees(s, v, stream)
    ensures Agrees(t, if OnStream(f, stream) then Advance(v, f) else v, stream)
  {
    hide AnswersOn, Answered, Recorded, LastOf;
    if f.ended {
      AnsweredAnswers(s.out, RequestOf(f.stream, f.fields), routes, t.out, t.status, stream);
      assert AnswersOn(s.out, stream) + [] == AnswersOn(s.out, stream);
    }
  }

  lemma DataAgrees(s: State, f: Frame, routes: Routes, t: State, v: View, stream: nat)
    requires f.Data? && Handled(s, f, routes, t) && t.status == Running && Agrees(s, v, stream) && Orderly(s)
    ensures Agrees(t, if OnStream(f, stream) then Advance(v, f) else v, stream)
  {
    hide AnswersOn, Answered, Recorded, LastOf, AfterWindow;
    WindowAnswersNothing(s.out, f.data, stream);
    if f.stream in s.pending && f.ended {
      var grown := Append(s.pending[f.stream], f.data);
      AnsweredAnswers(AfterWindow(s.out, f.data), grown.value, routes, t.out, t.status, stream);
      assert AnswersOn(s.out, stream) + [] == AnswersOn(s.out, stream);
    }
  }

  lemma FrameAgrees(s: State, f: Frame, routes: Routes, t: State, v: View, stream: nat)
    requires Handled(s, f, routes, t) && t.status == Running && Agrees(s, v, stream) && Orderly(s)
    ensures Agrees(t, if OnStream(f, stream) then Advance(v, f) else v, stream)
  {
    if f.Headers? {
      HeadersAgree(s, f, routes, t, v, stream);
    } else if f.Data? {
      DataAgrees(s, f, routes, t, v, stream);
    } else {
      hide AnswersOn, Recorded;
      match f
      case Settings(_, _) => NoAnswer(s.out, SettingsAck, stream);
      case Ping(_, data) => NoAnswer(s.out, Pong(data), stream);
      case _ =>
    }
  }

  lemma FrameKeepsOrder(s: State, f: Frame, routes: Routes, t: State)
    requires Handled(s, f, routes, t) && Orderly(s)
    ensures Orderly(t)
  {
    hide Answered, Recorded, LastOf;
  }

  lemma OneMoreFrame(s: State, f: Frame, routes: Routes, t: State, before: seq<Frame>, stream: nat)
    requires Handled(s, f, routes, t) && t.status == Running && Orderly(s)
    requires Agrees(s, ViewOf(before, stream), stream)
    ensures Orderly(t) && Agrees(t, ViewOf(before + [f], stream), stream)
  {
    hide Handled, Agrees, Orderly, Advance, ViewOf;
    FrameAgrees(s, f, routes, t, ViewOf(before, stream), stream);
    FrameKeepsOrder(s, f, routes, t);
    ViewSnoc(before, f, stream);
  }

  lemma NothingYet(stream: nat)
    ensures Orderly(FRESH) && Agrees(FRESH, ViewOf([], stream), stream)
  {
    ViewSnoc([], Other, stream);
    AnswersSnoc([], SettingsAck, stream);
  }

  lemma {:induction false} EveryFrameAgrees(states: seq<State>, frames: seq<Frame>, routes: Routes, n: nat, stream: nat)
    requires IsRun(states, frames, routes) && n <= |frames| && states[n].status == Running
    ensures Orderly(states[n]) && Agrees(states[n], ViewOf(frames[..n], stream), stream)
  {
    hide Handled, Agrees, Orderly, ViewOf;
    if n == 0 {
      NothingYet(stream);
    } else {
      assert Handled(states[n - 1], frames[n - 1], routes, states[n - 1 + 1]);
      EveryFrameAgrees(states, frames, routes, n - 1, stream);
      OneMoreFrame(states[n - 1], frames[n - 1], routes, states[n], frames[..n - 1], stream);
      assert frames[..n] == frames[..n - 1] + [frames[n - 1]];
    }
  }

  /** Between any two frames, the loop holds of every stream exactly what that stream's own frames amount
      to: the requests answered on it, in order, and the one still arriving. */
  lemma StreamsAreIndependent(states: seq<State>, frames: seq<Frame>, routes: Routes, n: nat, stream: nat)
    requires IsRun(states, frames, routes) && n <= |frames| && states[n].status == Running
    ensures Orderly(states[n])
    ensures Agrees(states[n], ViewOf(Only(frames[..n], stream), stream), stream)
  {
    hide IsRun, Agrees, Orderly, ViewOf, Only;
    EveryFrameAgrees(states, frames, routes, n, stream);
    ViewSeesOnly(frames[..n], stream);
  }

  /** The frame that ends a connection answers nothing. */
  lemma StoppingAnswersNothing(s: State, f: Frame, routes: Routes, t: State, stream: nat)
    requires Handled(s, f, routes, t) && t.status != Running
    ensures AnswersOn(t.out, stream) == AnswersOn(s.out, stream)
  {
    hide AnswersOn, Recorded, LastOf, AfterWindow, IsResponse;
    if f.Data? {
      WindowAnswersNothing(s.out, f.data, stream);
    } else if f.Settings? {
      NoAnswer(s.out, SettingsAck, stream);
    } else if f.Ping? {
      NoAnswer(s.out, Pong(f.payload), stream);
    }
  }

  // ---------------------------------------------------------------------------------------------
  // One request on a stream.

  function DataFrames(stream: nat, parts: seq<seq<byte>>): seq<Frame> {
    if parts == [] then []
    else DataFrames(stream, parts[..|parts| - 1]) + [Data(stream, parts[|parts| - 1], false)]
  }

  function Joined(parts: seq<seq<byte>>): seq<byte> {
    if parts == [] then [] else Joined(parts[..|parts| - 1]) + parts[|parts| - 1]
  }

  predicate NoHeaders(frames: seq<Frame>) {
    forall f <- frames :: !f.Headers?
  }

  lemma {:induction false} ViewOfStrayData(v0: seq<Frame>, stray: seq<Frame>, stream: nat)
    requires NoHeaders(stray) && ViewOf(v0, stream).open.None?
    ensures ViewOf(v0 + stray, stream) == ViewOf(v0, stream)
  {
    if stray == [] {
      assert v0 + stray == v0;
    } else {
      var front, f := stray[..|stray| - 1], stray[|stray| - 1];
      assert stray == front + [f];
      ViewOfStrayData(v0, front, stream);
      assert v0 + stray == (v0 + front) + [f];
      ViewSnoc(v0 + front, f, stream);
    }
  }

  lemma PartsSnoc(stream: nat, parts: seq<seq<byte>>, last: seq<byte>)
    ensures DataFrames(stream, []) == [] && Joined([]) == []
    ensures DataFrames(stream, parts + [last]) == DataFrames(stream, parts) + [Data(stream, last, false)]
    ensures Joined(parts + [last]) == Joined(parts) + last
  {
    assert (parts + [last])[..|parts|] == parts;
  }

  lemma {:induction false} ViewOfBody(v0: seq<Frame>, req: Request, stream: nat, parts: seq<seq<byte>>)
    requires ViewOf(v0, stream) == View(Some(req), [], false) && req.body == []
    ensures var v := ViewOf(v0 + DataFrames(stream, parts), stream);
            if |Joined(parts)| <= MAX_REQUEST_BODY then v == View(Some(req.(body := Joined(parts))), [], false)
            else v.over
  {
    hide ViewOf, DataFrames, Joined;
    if parts == [] {
      PartsSnoc(stream, [], []);
      assert v0 + [] == v0;
    } else {
      var front, last := parts[..|parts| - 1], parts[|parts| - 1];
      assert parts == front + [last];
      PartsSnoc(stream, front, last);
      ViewOfBody(v0, req, stream, front);
      var f, before := Data(stream, last, false), DataFrames(stream, front);
      assert v0 + (before + [f]) == (v0 + before) + [f];
      ViewSnoc(v0 + before, f, stream);
    }
  }

  lemma {:induction false} OverStays(v0: seq<Frame>, more: seq<Frame>, stream: nat)
    requires ViewOf(v0, stream).over
    ensures ViewOf(v0 + more, stream).over
  {
    if more == [] {
      assert v0 + more == v0;
    } else {
      var front, f := more[..|more| - 1], more[|more| - 1];
      OverStays(v0, front, stream);
      assert v0 + more == (v0 + front) + [f];
      ViewSnoc(v0 + front, f, stream);
    }
  }

  lemma OpenedBy(stray: seq<Frame>, h: Frame, stream: nat)
    requires NoHeaders(stray) && h.Headers? && h.stream == stream
    ensures ViewOf(stray + [h], stream) ==
            if h.ended then View(None, [RequestOf(stream, h.fields)], false)
            else View(Some(RequestOf(stream, h.fields)), [], false)
  {
    ViewSnoc([], h, stream);
    ViewOfStrayData([], stray, stream);
    assert [] + stray == stray;
    ViewSnoc(stray, h, stream);
  }

  lemma ViewOfRequest(stray: seq<Frame>, h: Frame, parts: seq<seq<byte>>, last: seq<byte>, late: seq<Frame>,
                      stream: nat)
    requires NoHeaders(stray) && NoHeaders(late) && h.Headers? && h.stream == stream && !h.ended
    ensures var v := ViewOf(stray + [h] + DataFrames(stream, parts) + [Data(stream, last, true)] + late, stream);
            if |Joined(parts) + last| <= MAX_REQUEST_BODY then
              v == View(None, [RequestOf(stream, h.fields).(body := Joined(parts) + last)], false)
            else v.over
  {
    hide Joined, DataFrames, LastOf;
    var req := RequestOf(stream, h.fields);
    OpenedBy(stray, h, stream);
    var begun := stray + [h];
    ViewOfBody(begun, req, stream, parts);
    var body := begun + DataFrames(stream, parts);
    var f := Data(stream, last, true);
    ViewSnoc(body, f, stream);
    if |Joined(parts) + last| <= MAX_REQUEST_BODY {
      assert [] + [req.(body := Joined(parts) + last)] == [req.(body := Joined(parts) + last)];
      ViewOfStrayData(body + [f], late, stream);
    } else {
      OverStays(body + [f], late, stream);
    }
  }

  /** However its frames were interleaved with those of other streams: a stream that carried one request
      with a body is answered once, with the concatenation of its data, which is within the limit. Data
      before the headers and after the end changes nothing. */
  lemma OneAnswerPerStream(states: seq<State>, frames: seq<Frame>, routes: Routes, n: nat, stream: nat,
                           stray: seq<Frame>, h: Frame, parts: seq<seq<byte>>, last: seq<byte>, late: seq<Frame>)
    requires IsRun(states, frames, routes) && n <= |frames| && states[n].status == Running
    requires NoHeaders(stray) && NoHeaders(late) && h.Headers? && h.stream == stream && !h.ended
    requires Only(frames[..n], stream) ==
             stray + [h] + DataFrames(stream, parts) + [Data(stream, last, true)] + late
    ensures |Joined(parts) + last| <= 65535
    ensures AnswersOn(states[n].out, stream) == [RequestOf(stream, h.fields).(body := Joined(parts) + last)]
    ensures stream !in states[n].pending
  {
    hide ViewOf, Only, AnswersOn, IsRun, LastOf, Joined, DataFrames;
    StreamsAreIndependent(states, frames, routes, n, stream);
    ViewOfRequest(stray, h, parts, last, late, stream);
  }

  /** The same for a request whose headers end the stream, and for one whose body has not ended. */
  lemma OneAnswerOrNone(states: seq<State>, frames: seq<Frame>, routes: Routes, n: nat, stream: nat,
                        stray: seq<Frame>, h: Frame, parts: seq<seq<byte>>)
    requires IsRun(states, frames, routes) && n <= |frames| && states[n].status == Running
    requires NoHeaders(stray) && h.Headers? && h.stream == stream
    requires Only(frames[..n], stream) == stray + [h] + DataFrames(stream, parts)
    ensures h.ended ==> AnswersOn(states[n].out, stream) == [RequestOf(stream, h.fields)]
    ensures !h.ended ==> AnswersOn(states[n].out, stream) == [] &&
                         PendingOn(states[n], stream) == Some(RequestOf(stream, h.fields).(body := Joined(parts)))
  {
    hide ViewOf, Only, AnswersOn, IsRun, LastOf, Joined;
    StreamsAreIndependent(states, frames, routes, n, stream);
    OpenedBy(stray, h, stream);
    if h.ended {
      DataOnly(stream, parts);
      hide DataFrames;
      ViewOfStrayData(stray + [h], DataFrames(stream, parts), stream);
    } else {
      hide DataFrames;
      ViewOfBody(stray + [h], RequestOf(stream, h.fields), stream, parts);
    }
  }

  lemma {:induction false} DataOnly(stream: nat, parts: seq<seq<byte>>)
    ensures NoHeaders(DataFrames(stream, parts))
  {
    if parts != [] {
      DataOnly(stream, parts[..|parts| - 1]);
    }
  }

  // ---------------------------------------------------------------------------------------------
  // What is measured of the connection.

  function SettingsIn(frames: seq<Frame>): seq<Setting> {
    if frames == [] then []
    else
      var f := frames[|frames| - 1];
      SettingsIn(frames[..|frames| - 1]) + (if f.Settings? && !f.ack then f.settings else [])
  }

  function LastWindow(frames: seq<Frame>): nat {
    if frames == [] then 0
    else
      var f := frames[|frames| - 1];
      if f.WindowUpdate? && f.stream == 0 then f.increment else LastWindow(frames[..|frames| - 1])
  }

  function PrioritiesIn(frames: seq<Frame>): seq<(nat, Priority)> {
    if frames == [] then []
    else
      var f := frames[|frames| - 1];
      PrioritiesIn(frames[..|frames| - 1]) + (if f.PriorityFrame? then [(f.stream, f.priority)] else [])
  }

  lemma RecordStep(s: State, f: Frame, routes: Routes, t: State)
    requires Handled(s, f, routes, t)
    ensures t.record == Recorded(s.record, f)
  {
  }

  function Preamble(frames: seq<Frame>): Record {
    Record(SettingsIn(frames), LastWindow(frames), PrioritiesIn(frames), [], None, false)
  }

  lemma PreambleSnoc(frames: seq<Frame>, f: Frame)
    ensures Preamble([]) == NOTHING
    ensures !f.Headers? ==> Preamble(frames + [f]) == Recorded(Preamble(frames), f)
  {
    assert (frames + [f])[..|frames|] == frames;
    assert SettingsIn(frames) + [] == SettingsIn(frames) && PrioritiesIn(frames) + [] == PrioritiesIn(frames);
  }

  lemma {:induction false} PreambleIsRecorded(states: seq<State>, frames: seq<Frame>, routes: Routes, n: nat)
    requires IsRun(states, frames, routes) && n <= |frames| && NoHeaders(frames[..n])
    ensures states[n].record == Preamble(frames[..n])
  {
    hide Handled, Preamble, Recorded;
    if n == 0 {
      PreambleSnoc([], Other);
    } else {
      var front, f := frames[..n - 1], frames[n - 1];
      assert frames[..n] == front + [f];
      assert f in frames[..n] && forall g <- front :: g in frames[..n];
      PreambleIsRecorded(states, frames, routes, n - 1);
      assert Handled(states[n - 1], f, routes, states[n - 1 + 1]);
      RecordStep(states[n - 1], f, routes, states[n]);
      PreambleSnoc(front, f);
    }
  }

  /** A connection is measured by what came before its first request and by that request; nothing that comes
      after can change the measurement. */
  lemma {:induction false} FirstRequestIsMeasured(states: seq<State>, frames: seq<Frame>, routes: Routes,
                                                  k: nat, n: nat)
    requires IsRun(states, frames, routes) && k < n <= |frames|
    requires NoHeaders(frames[..k]) && frames[k].Headers? && !frames[k].truncated
    ensures states[n].record ==
            Record(SettingsIn(frames[..k]), LastWindow(frames[..k]), PrioritiesIn(frames[..k]), frames[k].fields,
                   if frames[k].weight == NO_PRIORITY then None
                   else Some((frames[k].stream, frames[k].weight)), true)
  {
    assert Handled(states[n - 1], frames[n - 1], routes, states[n - 1 + 1]);
    RecordStep(states[n - 1], frames[n - 1], routes, states[n]);
    hide Handled, SettingsIn, LastWindow, PrioritiesIn;
    if n == k + 1 {
      PreambleIsRecorded(states, frames, routes, k);
    } else {
      FirstRequestIsMeasured(states, frames, routes, k, n - 1);
    }
  }

  // ---------------------------------------------------------------------------------------------
  // What a request asks and what an answer says.

  /** The last field of a name. */
  predicate LastField(fields: Fields, name: string, k: nat) {
    && k < |fields| && fields[k].0 == name
    && forall j :: k < j < |fields| ==> fields[j].0 != name
  }

  lemma {:induction false} LastOfIs(fields: Fields, name: string, k: nat)
    ensures LastField(fields, name, k) ==> LastOf(fields, name) == fields[k].1
    ensures (forall f <- fields :: f.0 != name) ==> LastOf(fields, name) == ""
  {
    if fields != [] && fields[|fields| - 1].0 != name {
      LastOfIs(fields[..|fields| - 1], name, k);
    }
  }

  /** A request's verb is what its last `:method` field says, and its path what its last `:path` field says; both
      are empty where there is no such field, and its body is, until data comes. */
  lemma WhatARequestAsks(stream: nat, fields: Fields, m: nat, p: nat)
    ensures var req := RequestOf(stream, fields);
            && req.stream == stream && req.body == []
            && (LastField(fields, ":method", m) ==> req.verb == fields[m].1)
            && (LastField(fields, ":path", p) ==> req.path == fields[p].1)
            && ((forall f <- fields :: f.0 != ":method") ==> req.verb == "")
            && ((forall f <- fields :: f.0 != ":path") ==> req.path == "")
  {
    LastOfIs(fields, ":method", m);
    LastOfIs(fields, ":path", p);
    hide LastOf, LastField;
  }

  /** The header block of an answer, field by field, and the size of its frames. */
  lemma WhatAnAnswerSays(stream: nat, reply: Reply, sent: seq<Sent>)
    requires IsResponse(stream, reply, sent)
    ensures sent[0].SentHeaders? && |sent[0].fields| == 5
    ensures forall i :: 1 <= i < |sent| ==> sent[i].SentData? && |sent[i].data| <= 16384
    ensures var fields := sent[0].fields;
            && fields[0] == (":status", reply.status)
            && fields[1] == ("content-type", reply.contentType)
            && fields[2].0 == "content-length" && NumberOf(fields[2].1) == |reply.body|
            && fields[3] == ("access-control-allow-origin", "*")
            && fields[4] == ("cache-control", "no-store")
  {
    hide Payload, Decimal;
    DecimalIs(|reply.body|);
  }

  // ---------------------------------------------------------------------------------------------
  // Pings, settings and the end of a connection.

  /** The payloads of the pings that ask for one back, and of those sent back. */
  function PingsIn(frames: seq<Frame>): seq<seq<byte>> {
    if frames == [] then []
    else
      var f := frames[|frames| - 1];
      PingsIn(frames[..|frames| - 1]) + (if f.Ping? && !f.ack then [f.payload] else [])
  }

  function PongsIn(out: seq<Out>): seq<seq<byte>> {
    if out == [] then []
    else
      var o := out[|out| - 1];
      PongsIn(out[..|out| - 1]) + (if o.Pong? then [o.data] else [])
  }

  /** How many settings were sent, and how many acknowledged. */
  function SettingsFrames(frames: seq<Frame>): nat {
    if frames == [] then 0
    else
      var f := frames[|frames| - 1];
      SettingsFrames(frames[..|frames| - 1]) + (if f.Settings? && !f.ack then 1 else 0)
  }

  function AcksIn(out: seq<Out>): nat {
    if out == [] then 0
    else AcksIn(out[..|out| - 1]) + (if out[|out| - 1].SettingsAck? then 1 else 0)
  }

  lemma OutSnoc(out: seq<Out>, o: Out)
    ensures PongsIn(out + [o]) == PongsIn(out) + (if o.Pong? then [o.data] else [])
    ensures AcksIn(out + [o]) == AcksIn(out) + (if o.SettingsAck? then 1 else 0)
  {
    assert (out + [o])[..|out|] == out;
  }

  lemma AnsweredIsNoPong(out: seq<Out>, req: Request, routes: Routes, after: seq<Out>, status: Status)
    requires Answered(out, req, routes, after, status)
    ensures PongsIn(after) == PongsIn(out) && AcksIn(after) == AcksIn(out)
  {
    hide PongsIn, AcksIn, IsResponse;
    if status == Running {
      OutSnoc(out, after[|out|]);
      assert after == out + [after[|out|]];
      assert PongsIn(out) + [] == PongsIn(out);
    }
  }

  lemma FramePongs(s: State, f: Frame, routes: Routes, t: State)
    requires Handled(s, f, routes, t)
    ensures PongsIn(t.out) == PongsIn(s.out) + (if f.Ping? && !f.ack then [f.payload] else [])
    ensures AcksIn(t.out) == AcksIn(s.out) + (if f.Settings? && !f.ack then 1 else 0)
  {
    hide PongsIn, AcksIn, Answered, Recorded, RequestOf;
    assert PongsIn(s.out) + [] == PongsIn(s.out);
    match f {
      case Settings(ack, _) => OutSnoc(s.out, SettingsAck);
      case Ping(ack, data) => OutSnoc(s.out, Pong(data));
      case Headers(stream, fields, _, truncated, ended) =>
        if !truncated && ended {
          AnsweredIsNoPong(s.out, RequestOf(stream, fields), routes, t.out, t.status);
        }
      case Data(stream, data, ended) =>
        OutSnoc(s.out, Replenish(|data|));
        if stream in s.pending && ended {
          var grown := Append(s.pending[stream], data);
          if grown.Some? {
            AnsweredIsNoPong(AfterWindow(s.out, data), grown.value, routes, t.out, t.status);
          }
        }
      case _ =>
    }
  }

  /** After every frame, each ping that asked for it has been sent back, in order and with its payload, and each
      settings frame has been acknowledged once. */
  lemma {:induction false} EveryPingComesBack(states: seq<State>, frames: seq<Frame>, routes: Routes, n: nat)
    requires IsRun(states, frames, routes) && n <= |frames|
    ensures PongsIn(states[n].out) == PingsIn(frames[..n])
    ensures AcksIn(states[n].out) == SettingsFrames(frames[..n])
  {
    hide Handled;
    if n > 0 {
      EveryPingComesBack(states, frames, routes, n - 1);
      assert Handled(states[n - 1], frames[n - 1], routes, states[n - 1 + 1]);
      FramePongs(states[n - 1], frames[n - 1], routes, states[n]);
      assert frames[..n][..n - 1] == frames[..n - 1];
    }
  }

  /** What ends a connection: headers that are too long, a body over 65535 octets, an answer over 65535 octets, and
      a farewell; each in its own way, and nothing else does. */
  lemma HowAConnectionEnds(states: seq<State>, frames: seq<Frame>, routes: Routes, n: nat)
    requires IsRun(states, frames, routes) && n < |frames|
    ensures var s, f, status := states[n], frames[n], states[n + 1].status;
            && (f.Headers? && f.truncated ==> status == Failed(HeadersTooLong))
            && (f.Headers? && !f.truncated && !f.ended ==> status == Running)
            && (f.Headers? && !f.truncated && f.ended ==>
                  var reply := routes(|s.out|, RequestOf(f.stream, f.fields));
                  status == if |reply.body| > 65535 then Failed(ResponseTooLong) else Running)
            && (f.Data? && f.stream !in s.pending ==> status == Running)
            && (f.Data? && f.stream in s.pending && |s.pending[f.stream].body| + |f.data| > 65535 ==>
                  status == Failed(RequestTooLong))
            && (f.Data? && f.stream in s.pending && |s.pending[f.stream].body| + |f.data| <= 65535 ==>
                  if !f.ended then status == Running
                  else
                    var req := s.pending[f.stream].(body := s.pending[f.stream].body + f.data);
                    var reply := routes(|s.out| + (if f.data == [] then 0 else 1), req);
                    status == if |reply.body| > 65535 then Failed(ResponseTooLong) else Running)
            && (f.GoAway? ==> status == Left)
            && (f.Settings? || f.WindowUpdate? || f.PriorityFrame? || f.Ping? || f.Other? ==> status == Running)
  {
    hide IsResponse, Recorded, RequestOf;
    assert Handled(states[n], frames[n], routes, states[n + 1]);
  }

  /** Every answer that goes out is the routes' reply to its request, on the stream of the request. */
  ghost predicate AnswersAreReplies(out: seq<Out>, routes: Routes) {
    forall i :: 0 <= i < |out| && out[i].Answer? ==>
      IsResponse(out[i].request.stream, routes(i, out[i].request), out[i].sent)
  }

  lemma OneMoreReply(out: seq<Out>, o: Out, routes: Routes)
    requires AnswersAreReplies(out, routes)
    requires o.Answer? ==> IsResponse(o.request.stream, routes(|out|, o.request), o.sent)
    ensures AnswersAreReplies(out + [o], routes)
  {
    hide IsResponse;
  }

  lemma AnsweredIsAReply(out: seq<Out>, req: Request, routes: Routes, after: seq<Out>, status: Status)
    requires Answered(out, req, routes, after, status) && AnswersAreReplies(out, routes)
    ensures AnswersAreReplies(after, routes)
  {
    hide IsResponse, AnswersAreReplies;
    if status == Running {
      OneMoreReply(out, after[|out|], routes);
      assert after == out + [after[|out|]];
    }
  }

  lemma FrameReplies(s: State, f: Frame, routes: Routes, t: State)
    requires Handled(s, f, routes, t) && AnswersAreReplies(s.out, routes)
    ensures AnswersAreReplies(t.out, routes)
  {
    hide AnswersAreReplies, Answered, Recorded, RequestOf;
    match f {
      case Settings(ack, _) => OneMoreReply(s.out, SettingsAck, routes);
      case Ping(ack, data) => OneMoreReply(s.out, Pong(data), routes);
      case Headers(stream, fields, _, truncated, ended) =>
        if !truncated && ended {
          AnsweredIsAReply(s.out, RequestOf(stream, fields), routes, t.out, t.status);
        }
      case Data(stream, data, ended) =>
        OneMoreReply(s.out, Replenish(|data|), routes);
        if stream in s.pending && ended {
          var grown := Append(s.pending[stream], data);
          if grown.Some? {
            AnsweredIsAReply(AfterWindow(s.out, data), grown.value, routes, t.out, t.status);
          }
        }
      case _ =>
    }
  }

  lemma {:induction false} RepliesGoOut(states: seq<State>, frames: seq<Frame>, routes: Routes, n: nat)
    requires IsRun(states, frames, routes) && n <= |frames|
    ensures AnswersAreReplies(states[n].out, routes)
  {
    hide Handled, AnswersAreReplies;
    if n > 0 {
      RepliesGoOut(states, frames, routes, n - 1);
      assert Handled(states[n - 1], frames[n - 1], routes, states[n - 1 + 1]);
      FrameReplies(states[n - 1], frames[n - 1], routes, states[n]);
    } else {
      NoReplies(routes);
    }
  }

  lemma NoReplies(routes: Routes)
    ensures AnswersAreReplies([], routes)
  {
  }
}
