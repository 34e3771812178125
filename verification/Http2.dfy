/** The capture server's HTTP/2 loop: one connection's frames in, and what is recorded, replenished and
    answered. Streams are numbered and flow-controlled as in RFC 9113; padding is not modelled. */
module Http2 {
  import opened Common
  import opened Bytes
  import opened Text

  const MAX_REQUEST_BODY := 65535
  const MAX_RESPONSE_BODY := 65535
  const MAX_FRAME := 16384

  datatype Setting = Setting(id: nat, value: nat)

  datatype Priority = Priority(dependsOn: nat, exclusive: bool, weight: nat)

  const NO_PRIORITY := Priority(0, false, 0)

  type Fields = seq<(string, string)>

  datatype Frame =
    | Settings(ack: bool, settings: seq<Setting>)
    | WindowUpdate(stream: nat, increment: nat)
    | PriorityFrame(stream: nat, priority: Priority)
    | Headers(stream: nat, fields: Fields, weight: Priority, truncated: bool, ended: bool)
    | Data(stream: nat, data: seq<byte>, ended: bool)
    | Ping(ack: bool, payload: seq<byte>)
    | GoAway
    | Other

  datatype Request = Request(verb: string, path: string, stream: nat, body: seq<byte>)

  /** What the routes make of a request. */
  datatype Reply = Reply(status: string, contentType: string, body: seq<byte>)

  datatype Sent =
    | SentHeaders(stream: nat, fields: Fields, endStream: bool)
    | SentData(stream: nat, endStream: bool, data: seq<byte>)

  /** What goes out, in order. An answer is listed with the request it answers. */
  datatype Out = SettingsAck | Pong(data: seq<byte>) | Replenish(octets: nat) | Answer(request: Request, sent: seq<Sent>)

  datatype Error = HeadersTooLong | RequestTooLong | ResponseTooLong

  datatype Status = Running | Left | Failed(error: Error)

  // ---------------------------------------------------------------------------------------------
  // Writing a response.

  function Payload(sent: seq<Sent>): seq<byte> {
    if sent == [] then []
    else Payload(sent[..|sent| - 1]) + (if sent[|sent| - 1].SentData? then sent[|sent| - 1].data else [])
  }

  function ResponseFields(reply: Reply): Fields {
    [(":status", reply.status), ("content-type", reply.contentType), ("content-length", Decimal(|reply.body|)),
     ("access-control-allow-origin", "*"), ("cache-control", "no-store")]
  }

  /** One header frame and then the body in frames no larger than the default maximum; exactly the last of
      all ends the stream. */
  ghost predicate IsResponse(stream: nat, reply: Reply, sent: seq<Sent>) {
    && sent != []
    && sent[0] == SentHeaders(stream, ResponseFields(reply), reply.body == [])
    && Payload(sent) == reply.body
    && (forall i :: 0 <= i < |sent| ==> sent[i].stream == stream)
    && (forall i :: 1 <= i < |sent| ==> sent[i].SentData? && 0 < |sent[i].data| <= MAX_FRAME)
    && (forall i :: 1 <= i < |sent| - 1 ==> |sent[i].data| == MAX_FRAME)
    && (forall i :: 0 <= i < |sent| ==> (sent[i].endStream <==> i == |sent| - 1))
  }

  lemma PayloadSnoc(sent: seq<Sent>, s: Sent)
    ensures Payload([]) == []
    ensures Payload(sent + [s]) == Payload(sent) + (if s.SentData? then s.data else [])
  {
    assert (sent + [s])[..|sent|] == sent;
  }

  /** A response whose last frame is still to come. */
  ghost predicate Begun(stream: nat, reply: Reply, sent: seq<Sent>, rest: seq<byte>) {
    && sent != []
    && sent[0] == SentHeaders(stream, ResponseFields(reply), false)
    && Payload(sent) + rest == reply.body
    && rest != []
    && forall i :: 1 <= i < |sent| ==>
         sent[i].SentData? && sent[i].stream == stream && !sent[i].endStream && |sent[i].data| == MAX_FRAME
  }

  lemma GoesOn(stream: nat, reply: Reply, sent: seq<Sent>, chunk: seq<byte>, rest: seq<byte>)
    requires Begun(stream, reply, sent, chunk + rest) && |chunk| == MAX_FRAME && rest != []
    ensures Begun(stream, reply, sent + [SentData(stream, false, chunk)], rest)
  {
    PayloadSnoc(sent, SentData(stream, false, chunk));
    hide Payload, ResponseFields;
    assert Payload(sent) + chunk + rest == Payload(sent) + (chunk + rest);
  }

  lemma Ends(stream: nat, reply: Reply, sent: seq<Sent>, rest: seq<byte>)
    requires Begun(stream, reply, sent, rest) && |rest| <= MAX_FRAME
    ensures IsResponse(stream, reply, sent + [SentData(stream, true, rest)])
  {
    PayloadSnoc(sent, SentData(stream, true, rest));
    hide Payload, ResponseFields;
    assert rest != [];
    assert reply.body == Payload(sent) + rest;
  }

  method WriteResponse(stream: nat, reply: Reply) returns (r: Result<seq<Sent>, Error>)
    ensures r.Err? <==> |reply.body| > MAX_RESPONSE_BODY
    ensures r.Err? ==> r.error == ResponseTooLong
    ensures r.Ok? ==> IsResponse(stream, reply, r.value)
  {
    if |reply.body| > MAX_RESPONSE_BODY {
      return Err(ResponseTooLong);
    }
    var body := reply.body;
    var sent := [SentHeaders(stream, ResponseFields(reply), |body| == 0)];
    PayloadSnoc([], sent[0]);
    assert [] + sent == sent;
    if |body| == 0 {
      return Ok(sent);
    }
    assert [] + body == body;
    hide Payload, ResponseFields, IsResponse;
    assert Begun(stream, reply, sent, body);
    hide Begun;
    while |body| > MAX_FRAME
      invariant Begun(stream, reply, sent, body)
      decreases |body|
    {
      var chunk := body[..MAX_FRAME];
      assert body == chunk + body[MAX_FRAME..];
      GoesOn(stream, reply, sent, chunk, body[MAX_FRAME..]);
      sent := sent + [SentData(stream, false, chunk)];
      body := body[MAX_FRAME..];
    }
    Ends(stream, reply, sent, body);
    sent := sent + [SentData(stream, true, body)];
    return Ok(sent);
  }

  // ---------------------------------------------------------------------------------------------
  // What is recorded of a connection.

  datatype Record = Record(
    settings: seq<Setting>,
    windowUpdate: nat,
    priorities: seq<(nat, Priority)>,
    headers: Fields,
    headerPriority: Option<(nat, Priority)>,
    done: bool)

  const NOTHING := Record([], 0, [], [], None, false)

  function Recorded(r: Record, f: Frame): Record {
    if r.done then r
    else match f
      case Settings(ack, settings) => if ack then r else r.(settings := r.settings + settings)
      case WindowUpdate(stream, increment) => if stream == 0 then r.(windowUpdate := increment) else r
      case PriorityFrame(stream, priority) => r.(priorities := r.priorities + [(stream, priority)])
      case Headers(stream, fields, weight, truncated, ended) =>
        if truncated then r
        else r.(headers := fields, done := true,
                  headerPriority := if weight == NO_PRIORITY then None else Some((stream, weight)))
      case _ => r
  }

  class Session {
    var settings: seq<Setting>
    var windowUpdate: nat
    var priorities: seq<(nat, Priority)>
    var headers: Fields
    var headerPriority: Option<(nat, Priority)>
    var recorded: bool

    function Model(): Record
      reads this
    {
      Record(settings, windowUpdate, priorities, headers, headerPriority, recorded)
    }

    constructor ()
      ensures Model() == NOTHING
    {
      settings, windowUpdate, priorities, headers, headerPriority, recorded := [], 0, [], [], None, false;
    }

    method RecordSettings(sent: seq<Setting>)
      modifies this
      ensures Model() == Recorded(old(Model()), Settings(false, sent))
    {
      if recorded {
        return;
      }
      settings := settings + sent;
    }

    method RecordWindowUpdate(increment: nat)
      modifies this
      ensures Model() == Recorded(old(Model()), WindowUpdate(0, increment))
    {
      if recorded {
        return;
      }
      windowUpdate := increment;
    }

    method RecordPriority(stream: nat, priority: Priority)
      modifies this
      ensures Model() == Recorded(old(Model()), PriorityFrame(stream, priority))
    {
      if recorded {
        return;
      }
      priorities := priorities + [(stream, priority)];
    }

    method RecordRequest(f: Frame)
      requires f.Headers? && !f.truncated
      modifies this
      ensures Model() == Recorded(old(Model()), f)
    {
      if recorded {
        return;
      }
      recorded := true;
      if f.weight != NO_PRIORITY {
        headerPriority := Some((f.stream, f.weight));
      } else {
        headerPriority := None;
      }
      headers := f.fields;
    }
  }

  // ---------------------------------------------------------------------------------------------
  // One frame.

  function LastOf(fields: Fields, name: string): string {
    if fields == [] then ""
    else if fields[|fields| - 1].0 == name then fields[|fields| - 1].1
    else LastOf(fields[..|fields| - 1], name)
  }

  function RequestOf(stream: nat, fields: Fields): Request {
    Request(LastOf(fields, ":method"), LastOf(fields, ":path"), stream, [])
  }

  method RequestFromFrame(stream: nat, fields: Fields) returns (req: Request)
    ensures req == RequestOf(stream, fields)
  {
    req := Request("", "", stream, []);
    for i := 0 to |fields|
      invariant req == RequestOf(stream, fields[..i])
    {
      assert fields[..i + 1][..i] == fields[..i];
      match fields[i].0 {
        case ":method" => req := req.(verb := fields[i].1);
        case ":path" => req := req.(path := fields[i].1);
        case _ =>
      }
    }
    assert fields[..|fields|] == fields;
  }

  type Pending = map<nat, Request>

  datatype State = State(pending: Pending, record: Record, out: seq<Out>, status: Status)

  const FRESH := State(map[], NOTHING, [], Running)

  /** The routes: any reply to any request, possibly a different one every time. */
  type Routes = (nat, Request) -> Reply

  /** The wire form of a reply, or none if it is longer than the window the server assumes. */
  ghost predicate Answered(out: seq<Out>, req: Request, routes: Routes, after: seq<Out>, status: Status) {
    var reply := routes(|out|, req);
    if |reply.body| > MAX_RESPONSE_BODY then after == out && status == Failed(ResponseTooLong)
    else
      && status == Running
      && |after| == |out| + 1 && after[..|out|] == out
      && after[|out|].Answer? && after[|out|].request == req
      && IsResponse(req.stream, reply, after[|out|].sent)
  }

  function Append(req: Request, data: seq<byte>): Option<Request> {
    if |data| > MAX_REQUEST_BODY - |req.body| then None else Some(req.(body := req.body + data))
  }

  function AfterWindow(out: seq<Out>, data: seq<byte>): seq<Out> {
    if data == [] then out else out + [Replenish(|data|)]
  }

  /** What one frame does to a running connection. */
  ghost predicate Handled(s: State, f: Frame, routes: Routes, t: State) {
    && t.record == Recorded(s.record, f)
    && match f
       case Settings(ack, _) => t == s.(record := t.record, out := if ack then s.out else s.out + [SettingsAck])
       case WindowUpdate(_, _) => t == s.(record := t.record)
       case PriorityFrame(_, _) => t == s.(record := t.record)
       case Headers(stream, fields, weight, truncated, ended) =>
         if truncated then t == s.(record := t.record, status := Failed(HeadersTooLong))
         else if ended then t.pending == s.pending && Answered(s.out, RequestOf(stream, fields), routes, t.out, t.status)
         else t == s.(record := t.record, pending := s.pending[stream := RequestOf(stream, fields)])
       case Data(stream, data, ended) =>
         var out := AfterWindow(s.out, data);
         if stream !in s.pending then t == s.(record := t.record, out := out)
         else
           var grown := Append(s.pending[stream], data);
           if grown.None? then t == s.(record := t.record, out := out, status := Failed(RequestTooLong))
           else if !ended then t == s.(record := t.record, out := out, pending := s.pending[stream := grown.value])
           else t.pending == s.pending - {stream} && Answered(out, grown.value, routes, t.out, t.status)
       case Ping(ack, data) => t == s.(record := t.record, out := if ack then s.out else s.out + [Pong(data)])
       case GoAway => t == s.(record := t.record, status := Left)
       case Other => t == s.(record := t.record)
  }

  /** A connection's life: states between frames, the last of which may have ended it. */
  ghost predicate IsRun(states: seq<State>, frames: seq<Frame>, routes: Routes) {
    && |states| == |frames| + 1
    && states[0] == FRESH
    && forall i :: 0 <= i < |frames| ==>
         states[i].status == Running && Handled(states[i], frames[i], routes, states[i + 1])
  }

  method Respond(req: Request, routes: Routes, out: seq<Out>) returns (after: seq<Out>, status: Status)
    ensures Answered(out, req, routes, after, status)
  {
    hide IsResponse;
    var reply := routes(|out|, req);
    var sent := WriteResponse(req.stream, reply);
    if sent.Err? {
      return out, Failed(sent.error);
    }
    return out + [Answer(req, sent.value)], Running;
  }

  /** The loop. Reading ends with the peer's last frame. */
  method ServeHTTP2(frames: seq<Frame>, sess: Session, routes: Routes)
    returns (out: seq<Out>, status: Status, ghost states: seq<State>)
    requires sess.Model() == NOTHING
    modifies sess
    ensures 1 <= |states| <= |frames| + 1 && IsRun(states, frames[..|states| - 1], routes)
    ensures status == Running ==> |states| == |frames| + 1
    ensures var last := states[|states| - 1];
            out == last.out && status == last.status && sess.Model() == last.record
  {
    hide Answered, Recorded, RequestOf;
    var pending: Pending := map[];
    out, status := [], Running;
    states := [FRESH];
    var i := 0;
    while i < |frames| && status == Running
      invariant 0 <= i <= |frames| && |states| == i + 1
      invariant IsRun(states, frames[..i], routes)
      invariant states[i] == State(pending, sess.Model(), out, status)
      decreases |frames| - i
    {
      ghost var s := states[i];
      var f := frames[i];
      match f {
        case Settings(ack, settings) =>
          if !ack {
            sess.RecordSettings(settings);
            out := out + [SettingsAck];
          } else {
            NotRecorded(s.record, f);
          }
        case WindowUpdate(stream, increment) =>
          if stream == 0 {
            sess.RecordWindowUpdate(increment);
          } else {
            NotRecorded(s.record, f);
          }
        case PriorityFrame(stream, priority) => sess.RecordPriority(stream, priority);
        case Headers(stream, fields, weight, truncated, ended) =>
          if truncated {
            NotRecorded(s.record, f);
            status := Failed(HeadersTooLong);
          } else {
            var req := RequestFromFrame(stream, fields);
            sess.RecordRequest(f);
            if ended {
              out, status := Respond(req, routes, out);
            } else {
              pending := pending[stream := req];
            }
          }
        case Data(stream, data, ended) =>
          NotRecorded(s.record, f);
          if |data| > 0 {
            out := out + [Replenish(|data|)];
          }
          if stream in pending {
            var req := pending[stream];
            if |data| > MAX_REQUEST_BODY - |req.body| {
              status := Failed(RequestTooLong);
            } else {
              req := req.(body := req.body + data);
              if ended {
                pending := pending - {stream};
                out, status := Respond(req, routes, out);
              } else {
                pending := pending[stream := req];
              }
            }
          }
        case Ping(ack, data) =>
          NotRecorded(s.record, f);
          if !ack {
            out := out + [Pong(data)];
          }
        case GoAway =>
          NotRecorded(s.record, f);
          status := Left;
        case Other => NotRecorded(s.record, f);
      }
      ghost var t := State(pending, sess.Model(), out, status);
      assert Handled(s, f, routes, t);
      RunSnoc(states, frames[..i], f, routes, t);
      assert frames[..i + 1] == frames[..i] + [f];
      states := states + [t];
      i := i + 1;
    }
  }

  lemma NotRecorded(r: Record, f: Frame)
    requires (f.Settings? && f.ack) || (f.WindowUpdate? && f.stream != 0) || (f.Headers? && f.truncated) || f.Data? ||
             f.Ping? || f.GoAway? || f.Other?
    ensures Recorded(r, f) == r
  {
  }

  lemma RunSnoc(states: seq<State>, frames: seq<Frame>, f: Frame, routes: Routes, t: State)
    requires IsRun(states, frames, routes) && states[|frames|].status == Running
    requires Handled(states[|frames|], f, routes, t)
    ensures IsRun(states + [t], frames + [f], routes)
  {
    hide Handled;
    var ss, fs := states + [t], frames + [f];
    forall i | 0 <= i < |fs|
      ensures ss[i].status == Running && Handled(ss[i], fs[i], routes, ss[i + 1])
    {
      if i < |frames| {
        assert ss[i] == states[i] && ss[i + 1] == states[i + 1] && fs[i] == frames[i];
      }
    }
  }
}
