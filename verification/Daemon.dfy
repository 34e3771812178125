/** The transport process: one line of JSON in, one line of JSON out. */
module Daemon {

  /** One call, as a wrapper encodes it. The id is the wrapper's; `rest` is everything but the URL. */
  datatype Job = Job(id: nat, url: string, rest: string)

  /** A line of input after JSON decoding. A cut-off line is BadSyntax: its id is lost. A line of the
      wrong shape keeps the id, because decoding goes on past a type error. */
  datatype Input =
    | Blank
    | BadSyntax
    | BadShape(id: nat)
    | Request(job: Job)
  {
    /** The id an answer to this line carries. Wrappers count from 1, so 0 is nobody's. */
    function Id(): nat {
      match this
      case Blank => 0
      case BadSyntax => 0
      case BadShape(id) => id
      case Request(job) => job.id
    }
  }

  /** What the checks of the request, and then the network, made of it. */
  datatype Trial =
    | Refused(complaint: string)
    | Unreachable(complaint: string)
    | Undeliverable(complaint: string)
    | Fetched(content: string)

  /** What a wrapper tells apart in a line of output. Unusable: some field has the wrong type. */
  datatype Body = Page(content: string) | Failure(message: string) | Unusable

  datatype Response = Response(id: nat, body: Body)

  function Handle(input: Input, trial: Trial): Response
    requires !input.Blank?
  {
    match input
    case BadSyntax => Response(0, Failure("bad request: syntax"))
    case BadShape(id) => Response(id, Failure("bad request: shape"))
    case Request(job) =>
      if job.url == "" then Response(job.id, Failure("bad request: no url"))
      else match trial
        case Refused(complaint) => Response(job.id, Failure("bad request: " + complaint))
        case Unreachable(complaint) => Response(job.id, Failure(complaint))
        case Undeliverable(complaint) => Response(job.id, Failure(complaint))
        case Fetched(content) => Response(job.id, Page(content))
  }

  /** The lines that get an answer, in order. */
  function Answerable(lines: seq<Input>): (asked: seq<Input>)
    ensures forall i :: 0 <= i < |asked| ==> !asked[i].Blank?
  {
    if lines == [] then []
    else (if lines[0].Blank? then [] else [lines[0]]) + Answerable(lines[1..])
  }

  lemma {:induction false} AnswerableConcat(a: seq<Input>, b: seq<Input>)
    ensures Answerable(a + b) == Answerable(a) + Answerable(b)
  {
    if a == [] {
      assert a + b == b;
    } else {
      assert (a + b)[1..] == a[1..] + b;
      AnswerableConcat(a[1..], b);
    }
  }

  /** How serving ends: with the input, with an input that cannot be read on (a line over the limit, say), or
      with a broken output pipe. */
  datatype End = InputEnded | InputFailed | PipeBroken

  lemma AnswerableSnoc(lines: seq<Input>, line: Input)
    ensures Answerable([]) == []
    ensures Answerable(lines + [line]) == Answerable(lines) + (if line.Blank? then [] else [line])
  {
    AnswerableConcat(lines, [line]);
  }

  lemma AnswerablePrefix(lines: seq<Input>, i: nat)
    requires i <= |lines|
    ensures |Answerable(lines[..i])| <= |Answerable(lines)|
    ensures forall k :: 0 <= k < |Answerable(lines[..i])| ==> Answerable(lines[..i])[k] == Answerable(lines)[k]
  {
    hide Answerable;
    var front, back := lines[..i], lines[i..];
    assert lines == front + back;
    AnswerableConcat(front, back);
  }

  /** The answers to these lines, in order. */
  predicate Answers(out: seq<Response>, asked: seq<Input>, trials: nat -> Trial)
    requires forall i :: 0 <= i < |asked| ==> !asked[i].Blank?
  {
    && |out| <= |asked|
    && forall k :: 0 <= k < |out| ==> out[k].id == asked[k].Id() && out[k] == Handle(asked[k], trials(k))
  }

  lemma OneMoreAnswer(out: seq<Response>, asked: seq<Input>, line: Input, trials: nat -> Trial)
    requires forall i :: 0 <= i < |asked| ==> !asked[i].Blank?
    requires Answers(out, asked, trials) && |out| == |asked| && !line.Blank?
    ensures Answers(out + [Handle(line, trials(|out|))], asked + [line], trials)
  {
  }

  lemma AnswersToPrefix(out: seq<Response>, lines: seq<Input>, i: nat, trials: nat -> Trial)
    requires i <= |lines| && Answers(out, Answerable(lines[..i]), trials)
    ensures Answers(out, Answerable(lines), trials)
  {
    hide Answerable, Handle;
    AnswerablePrefix(lines, i);
  }

  /** Serves input lines until they end, or cannot be read on, or the output pipe breaks, which it does after
      `room` lines. Every line that is not blank is answered once, in order, under its own id. */
  method Serve(lines: seq<Input>, readable: bool, trials: nat -> Trial, room: nat)
    returns (out: seq<Response>, end: End)
    ensures end == if room < |Answerable(lines)| then PipeBroken else if readable then InputEnded else InputFailed
    ensures |out| == if end.PipeBroken? then room else |Answerable(lines)|
    ensures Answers(out, Answerable(lines), trials)
  {
    hide Answerable, Answers, Handle;
    out := [];
    AnswerableSnoc([], Blank);
    NoAnswers(trials);
    assert lines[..0] == [];
    for i := 0 to |lines|
      invariant |out| == |Answerable(lines[..i])| <= room
      invariant Answers(out, Answerable(lines[..i]), trials)
    {
      assert lines[..i + 1] == lines[..i] + [lines[i]];
      AnswerableSnoc(lines[..i], lines[i]);
      if lines[i].Blank? {
        assert Answerable(lines[..i]) + [] == Answerable(lines[..i]);
        continue;
      }
      if |out| == room {
        AnswerablePrefix(lines, i + 1);
        AnswersToPrefix(out, lines, i, trials);
        return out, PipeBroken;
      }
      OneMoreAnswer(out, Answerable(lines[..i]), lines[i], trials);
      out := out + [Handle(lines[i], trials(|out|))];
    }
    assert lines[..|lines|] == lines;
    end := if readable then InputEnded else InputFailed;
  }

  lemma NoAnswers(trials: nat -> Trial)
    ensures Answers([], [], trials)
  {
  }

  /** Every line that is not blank is asked, as often as it comes, and no other. */
  lemma {:induction false} AnswerableKeeps(lines: seq<Input>, line: Input)
    ensures multiset(Answerable(lines))[line] == if line.Blank? then 0 else multiset(lines)[line]
  {
    if lines != [] {
      assert lines == [lines[0]] + lines[1..];
      AnswerableKeeps(lines[1..], line);
    }
  }

  /** What the k-th answer says. What was fetched is delivered, under the id of the call and unchanged; a call
      that was refused, or could not be made, or whose answer cannot be delivered, gets the reason; so does a
      line that is no call. */
  lemma AnswersSay(out: seq<Response>, lines: seq<Input>, trials: nat -> Trial, k: nat)
    requires Answers(out, Answerable(lines), trials) && k < |out|
    ensures var asked, answer := Answerable(lines)[k], out[k];
            && (asked.Request? ==> answer.id == asked.job.id)
            && (forall job, content :: asked == Request(job) && job.url != "" && trials(k) == Fetched(content) ==>
                  answer.body == Page(content))
            && (forall job, why :: asked == Request(job) && job.url != "" && trials(k) == Refused(why) ==>
                  answer.body == Failure("bad request: " + why))
            && (forall job, why :: asked == Request(job) && job.url != "" && trials(k) == Unreachable(why) ==>
                  answer.body == Failure(why))
            && (forall job, why :: asked == Request(job) && job.url != "" && trials(k) == Undeliverable(why) ==>
                  answer.body == Failure(why))
            && (asked.Request? && asked.job.url == "" ==> answer.body == Failure("bad request: no url"))
            && (asked.BadShape? ==> answer.id == asked.id && answer.body.Failure?)
            && (asked.BadSyntax? ==> answer.id == 0 && answer.body.Failure?)
  {
    hide Answerable;
  }
}
