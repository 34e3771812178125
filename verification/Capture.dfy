/** From the header lines of one HTTP/1.1 request to a reusable profile. */
module Capture {
  import opened Common
  import opened Text
  import opened Headers
  import opened HeaderLaws

  // ---------------------------------------------------------------------------------------------
  // Reading a request.

  /** A request as it was measured: three lists, one entry per header line. `headers` has the names in
      lower case, `wireNames` as they were spelled. */
  datatype Measured = Measured(headers: seq<Field>, order: seq<string>, wireNames: seq<string>)

  datatype ReadError = Ended | MalformedHeader | TooManyHeaders

  const MAX_HEADERS := 100

  /** One header line, name and value trimmed, the name as spelled. */
  function WireField(line: string): Option<Field> {
    match Cut(line, ':')
    case None => None
    case Some((name, value)) => Some(Field(Trim(name), Trim(value)))
  }

  /** The three lists of a request whose header lines were these. */
  function MeasuredAs(wire: Header): Measured {
    Measured(seq(|wire|, i requires 0 <= i < |wire| => Field(Key(wire[i]), wire[i].value)),
             seq(|wire|, i requires 0 <= i < |wire| => Key(wire[i])),
             seq(|wire|, i requires 0 <= i < |wire| => wire[i].name))
  }

  /** The header lines before the first empty one. */
  function WireHeader(lines: seq<string>, seen: nat): Result<Header, ReadError> {
    if lines == [] then Err(Ended)
    else if lines[0] == "" then Ok([])
    else if seen >= MAX_HEADERS then Err(TooManyHeaders)
    else if WireField(lines[0]).None? then Err(MalformedHeader)
    else match WireHeader(lines[1..], seen + 1)
      case Err(e) => Err(e)
      case Ok(more) => Ok([WireField(lines[0]).value] + more)
  }

  lemma MeasuredSnoc(wire: Header, f: Field)
    ensures MeasuredAs(wire + [f]) ==
            Measured(MeasuredAs(wire).headers + [Field(Key(f), f.value)], MeasuredAs(wire).order + [Key(f)],
                     MeasuredAs(wire).wireNames + [f.name])
  {
  }

  /** What is left to read, and what it makes of the whole. */
  ghost predicate Reading(lines: seq<string>, i: nat, wire: Header)
    requires i <= |lines|
  {
    match WireHeader(lines[i..], i)
    case Err(e) => WireHeader(lines, 0) == Err(e)
    case Ok(more) => WireHeader(lines, 0) == Ok(wire + more)
  }

  lemma ReadingStarts(lines: seq<string>)
    ensures Reading(lines, 0, [])
  {
    assert lines[0..] == lines;
    if WireHeader(lines, 0).Ok? {
      assert [] + WireHeader(lines, 0).value == WireHeader(lines, 0).value;
    }
  }

  lemma ReadingOn(lines: seq<string>, i: nat, wire: Header)
    requires i < |lines| && Reading(lines, i, wire) && lines[i] != "" && i < MAX_HEADERS
    requires WireField(lines[i]).Some?
    ensures Reading(lines, i + 1, wire + [WireField(lines[i]).value])
  {
    hide WireField;
    assert lines[i..][1..] == lines[i + 1..];
    if WireHeader(lines[i + 1..], i + 1).Ok? {
      var more := WireHeader(lines[i + 1..], i + 1).value;
      assert wire + ([WireField(lines[i]).value] + more) == (wire + [WireField(lines[i]).value]) + more;
    }
  }

  lemma ReadingEnds(lines: seq<string>, i: nat, wire: Header)
    requires i <= |lines| && Reading(lines, i, wire)
    ensures i == |lines| ==> WireHeader(lines, 0) == Err(Ended)
    ensures i < |lines| && lines[i] == "" ==> WireHeader(lines, 0) == Ok(wire)
    ensures i < |lines| && lines[i] != "" && i >= MAX_HEADERS ==> WireHeader(lines, 0) == Err(TooManyHeaders)
    ensures i < |lines| && lines[i] != "" && i < MAX_HEADERS && WireField(lines[i]).None? ==>
              WireHeader(lines, 0) == Err(MalformedHeader)
  {
    hide WireField;
    assert wire + [] == wire;
  }

  /** Reads the header lines that follow the request line, and keeps both spellings of every name. */
  method ReadHeaders(lines: seq<string>) returns (r: Result<Measured, ReadError>, ghost wire: Header)
    ensures WireHeader(lines, 0).Err? ==> r == Err(WireHeader(lines, 0).error)
    ensures WireHeader(lines, 0).Ok? ==> wire == WireHeader(lines, 0).value && r == Ok(MeasuredAs(wire))
    ensures r.Ok? ==> |r.value.headers| <= MAX_HEADERS
  {
    hide WireField, WireHeader, Reading;
    wire := [];
    var read := Measured([], [], []);
    var i := 0;
    ReadingStarts(lines);
    while true
      invariant i <= |lines| && |wire| == i <= MAX_HEADERS
      invariant read == MeasuredAs(wire)
      invariant Reading(lines, i, wire)
      decreases |lines| - i
    {
      ReadingEnds(lines, i, wire);
      if i == |lines| {
        return Err(Ended), wire;
      }
      if lines[i] == "" {
        return Ok(read), wire;
      }
      if |read.headers| >= MAX_HEADERS {
        return Err(TooManyHeaders), wire;
      }
      var field := WireField(lines[i]);
      if field.None? {
        return Err(MalformedHeader), wire;
      }
      ReadingOn(lines, i, wire);
      MeasuredSnoc(wire, field.value);
      var name := Lower(field.value.name);
      read := Measured(read.headers + [Field(name, field.value.value)], read.order + [name],
                       read.wireNames + [field.value.name]);
      wire := wire + [field.value];
      i := i + 1;
    }
  }

  // ---------------------------------------------------------------------------------------------
  // A profile: what one navigation's headers leave behind.

  const PER_REQUEST: set<string> :=
    {"cookie", "host", "content-length", "content-type", "referer", "origin", "cache-control", "pragma"}

  /** Host is kept for its place and spelling; what else belongs to one request is not. */
  predicate Keeps(n: string) {
    n == "host" || n !in PER_REQUEST
  }

  function Kept(wire: Header): Header {
    if wire == [] then []
    else Kept(wire[..|wire| - 1]) + (if Keeps(Key(wire[|wire| - 1])) then [wire[|wire| - 1]] else [])
  }

  /** How a name is spelled where it first occurs. */
  function Spelling(h: Header, n: string): string
    requires Has(h, n)
  {
    if Has(h[..|h| - 1], n) then Spelling(h[..|h| - 1], n) else h[|h| - 1].name
  }

  function Spellings(h: Header): seq<string> {
    if h == [] then []
    else Spellings(h[..|h| - 1]) + (if Has(h[..|h| - 1], Key(h[|h| - 1])) then [] else [h[|h| - 1].name])
  }

  /** The fields of one name, as spelled. */
  function Group(h: Header, n: string): Header {
    if h == [] then []
    else Group(h[..|h| - 1], n) + (if Key(h[|h| - 1]) == n then [h[|h| - 1]] else [])
  }

  datatype HTTP1 = HTTP1(headerOrder: seq<string>, headers: Header)

  /** The groups whose values the shared block does not already carry. */
  function Differing(kept: Header, names: seq<string>, shared: Header): Header {
    if names == [] then []
    else
      var n := names[|names| - 1];
      Differing(kept, names[..|names| - 1], shared) +
      (if n == "host" || Values(kept, n) == Values(shared, n) then [] else Group(kept, n))
  }

  /** The HTTP/1.1 part of a profile built from a request measured with these header lines. */
  function ProfileOf(wire: Header, shared: Header): Option<HTTP1> {
    if Kept(wire) == [] then None
    else Some(HTTP1(Spellings(Kept(wire)), Differing(Kept(wire), Order(Kept(wire)), shared)))
  }

  /** What no profile carries: pseudo headers and what belongs to one request. */
  predicate Dropped(n: string) {
    n in PER_REQUEST || (n != "" && n[0] == ':')
  }

  /** The fields a profile may carry, in their order, names in lower case. */
  function Carried(fields: Header): Header {
    if fields == [] then []
    else
      var last := fields[|fields| - 1];
      Carried(fields[..|fields| - 1]) + (if Dropped(Key(last)) then [] else [Field(Key(last), last.value)])
  }

  lemma CarriedSnoc(fields: Header, f: Field)
    ensures Carried([]) == []
    ensures Carried(fields + [f]) == Carried(fields) + (if Dropped(Key(f)) then [] else [Field(Key(f), f.value)])
  {
    assert (fields + [f])[..|fields|] == fields;
  }

  /** Per name the carried values are those of the request, or none; and the names keep their order. */
  lemma {:induction false} CarriedValues(fields: Header, n: string)
    ensures Values(Carried(fields), n) == if Dropped(n) then [] else Values(fields, n)
    ensures Has(Carried(fields), n) <==> !Dropped(n) && Has(fields, n)
  {
    hide Values, Has, Dropped, Carried;
    Empty();
    if fields == [] {
      CarriedSnoc([], Field("", ""));
    } else {
      var front, f := fields[..|fields| - 1], fields[|fields| - 1];
      assert fields == front + [f];
      CarriedValues(front, n);
      CarriedSnoc(front, f);
      ValuesSnoc(front, f);
      HasSnoc(front, f);
      LowerLower(f.name);
      var carried := Field(Key(f), f.value);
      ValuesSnoc(Carried(front), carried);
      HasSnoc(Carried(front), carried);
      assert Carried(front) + [] == Carried(front);
    }
  }

  function NotDropped(names: seq<string>): seq<string> {
    if names == [] then []
    else
      NotDropped(names[..|names| - 1]) +
      (if Dropped(names[|names| - 1]) then [] else [names[|names| - 1]])
  }

  lemma NotDroppedSnoc(names: seq<string>, n: string)
    ensures NotDropped([]) == []
    ensures NotDropped(names + [n]) == NotDropped(names) + (if Dropped(n) then [] else [n])
  {
    assert (names + [n])[..|names|] == names;
  }

  lemma {:induction false} CarriedOrder(fields: Header)
    ensures Order(Carried(fields)) == NotDropped(Order(fields))
  {
    hide Has, Order, Dropped, Carried, NotDropped, Values;
    Empty();
    NotDroppedSnoc([], "");
    if fields == [] {
      CarriedSnoc([], Field("", ""));
    } else {
      var front, f := fields[..|fields| - 1], fields[|fields| - 1];
      assert fields == front + [f];
      CarriedOrder(front);
      CarriedSnoc(front, f);
      OrderSnoc(front, f);
      LowerLower(f.name);
      var carried := Field(Key(f), f.value);
      OrderSnoc(Carried(front), carried);
      CarriedValues(front, Key(f));
      NotDroppedSnoc(Order(front), Key(f));
      assert Carried(front) + [] == Carried(front) && Order(front) + [] == Order(front);
      assert NotDropped(Order(front)) + [] == NotDropped(Order(front));
    }
  }

  /** The headers both protocols share: what a profile may carry of the HTTP/2 request's, in its order. */
  method SharedHeaders(fields: Header) returns (shared: Header)
    ensures shared == Carried(fields)
  {
    hide Dropped, Carried;
    shared := [];
    CarriedSnoc([], Field("", ""));
    assert fields[..0] == [];
    for i := 0 to |fields|
      invariant shared == Carried(fields[..i])
    {
      var name := Lower(fields[i].name);
      assert fields[..i + 1] == fields[..i] + [fields[i]];
      CarriedSnoc(fields[..i], fields[i]);
      DroppedMeans(name);
      if (name != "" && name[0] == ':') || name in PER_REQUEST {
        assert Carried(fields[..i]) + [] == Carried(fields[..i]);
        continue;
      }
      shared := shared + [Field(name, fields[i].value)];
    }
    assert fields[..|fields|] == fields;
  }

  lemma DroppedMeans(n: string)
    ensures Dropped(n) <==> (n != "" && n[0] == ':') || n in PER_REQUEST
  {
  }

  // --- facts about groups ---

  lemma KeptSnoc(h: Header, f: Field)
    ensures Kept(h + [f]) == Kept(h) + (if Keeps(Key(f)) then [f] else [])
  {
    assert (h + [f])[..|h|] == h;
  }

  lemma SpellingsSnoc(h: Header, f: Field)
    ensures Spellings(h + [f]) == Spellings(h) + (if Has(h, Key(f)) then [] else [f.name])
  {
    assert (h + [f])[..|h|] == h;
  }

  lemma SpellingSnoc(h: Header, f: Field, n: string)
    requires Has(h, n) || n == Key(f)
    ensures Has(h + [f], n)
    ensures Spelling(h + [f], n) == if Has(h, n) then Spelling(h, n) else f.name
  {
    assert (h + [f])[..|h|] == h;
  }

  lemma GroupSnoc(h: Header, f: Field, n: string)
    ensures Group(h + [f], n) == Group(h, n) + (if Key(f) == n then [f] else [])
  {
    assert (h + [f])[..|h|] == h;
  }

  lemma DifferingSnoc(kept: Header, names: seq<string>, n: string, shared: Header)
    ensures Differing(kept, names + [n], shared) == Differing(kept, names, shared) +
              (if n == "host" || Values(kept, n) == Values(shared, n) then [] else Group(kept, n))
  {
    assert (names + [n])[..|names|] == names;
  }

  /** The spellings are those of the names, in the same order. */
  lemma {:induction false} SpellingsSpell(h: Header)
    ensures |Spellings(h)| == |Order(h)|
    ensures forall i :: 0 <= i < |Order(h)| ==>
              Has(h, Order(h)[i]) && Spellings(h)[i] == Spelling(h, Order(h)[i]) &&
              Lower(Spellings(h)[i]) == Order(h)[i]
  {
    hide Has, Order, Spellings, Spelling;
    Empty();
    SpellingsOfNothing();
    if h != [] {
      var front, f := h[..|h| - 1], h[|h| - 1];
      Last(h);
      SpellingsSpell(front);
      OrderSnoc(front, f);
      SpellingsSnoc(front, f);
      forall i | 0 <= i < |Order(h)|
        ensures Has(h, Order(h)[i]) && Spellings(h)[i] == Spelling(h, Order(h)[i]) &&
                Lower(Spellings(h)[i]) == Order(h)[i]
      {
        SpellingSnoc(front, f, Order(h)[i]);
      }
    }
  }

  lemma SpellingsOfNothing()
    ensures Spellings([]) == []
  {
  }

  lemma {:induction false} GroupIs(h: Header, n: string)
    ensures |Group(h, n)| == |Values(h, n)|
    ensures forall i :: 0 <= i < |Group(h, n)| ==> Key(Group(h, n)[i]) == n && Group(h, n)[i].value == Values(h, n)[i]
    ensures forall m :: Values(Group(h, n), m) == if m == n then Values(h, n) else []
  {
    if h != [] {
      var front, f := h[..|h| - 1], h[|h| - 1];
      GroupIs(front, n);
      ValuesSnoc(Group(front, n), f);
      assert Group(front, n) + [] == Group(front, n);
    }
  }

  // ---------------------------------------------------------------------------------------------
  // The profile, built as the measurement is walked.

  predicate SameValues(fields: Header, values: seq<string>) {
    |fields| == |values| && forall i :: 0 <= i < |fields| ==> fields[i].value == values[i]
  }

  /** The wire header a capture stands for: a spelling that is missing or empty is the name itself. Where a
      spelling is given, it is one of that name. */
  predicate SpelledAs(measured: Measured, wire: Header) {
    && |measured.headers| == |wire|
    && forall i :: 0 <= i < |wire| ==>
         && wire[i].value == measured.headers[i].value
         && wire[i].name == (if i < |measured.wireNames| && measured.wireNames[i] != "" then measured.wireNames[i]
                             else measured.headers[i].name)
         && Key(wire[i]) == Lower(measured.headers[i].name)
  }

  /** What was read off a wire stands for that wire. */
  lemma MeasuredIsSpelled(wire: Header)
    ensures SpelledAs(MeasuredAs(wire), wire)
  {
    forall i | 0 <= i < |wire|
      ensures wire[i].name == (if MeasuredAs(wire).wireNames[i] != "" then MeasuredAs(wire).wireNames[i]
                               else MeasuredAs(wire).headers[i].name)
      ensures Key(wire[i]) == Lower(MeasuredAs(wire).headers[i].name)
    {
      LowerLower(wire[i].name);
      assert MeasuredAs(wire).wireNames[i] == wire[i].name;
      assert MeasuredAs(wire).headers[i] == Field(Key(wire[i]), wire[i].value);
      assert wire[i].name == "" ==> Key(wire[i]) == "";
    }
  }

  lemma NothingKept()
    ensures Kept([]) == [] && Spellings([]) == [] && forall n :: Group([], n) == []
    ensures forall kept, shared :: Differing(kept, [], shared) == []
  {
  }

  lemma SomethingKept(h: Header)
    ensures Spellings(h) == [] <==> h == []
  {
    if h != [] {
      SomethingKept(h[..|h| - 1]);
    }
  }

  lemma OneMoreKept(kept: Header, f: Field)
    ensures Spellings(kept + [f]) == Spellings(kept) + (if Has(kept, Key(f)) then [] else [f.name])
    ensures forall n :: Has(kept + [f], n) <==> Has(kept, n) || n == Key(f)
    ensures forall n :: Group(kept + [f], n) == Group(kept, n) + (if Key(f) == n then [f] else [])
    ensures forall n :: !Has(kept, n) ==> Group(kept, n) == []
  {
    SpellingsSnoc(kept, f);
    HasSnoc(kept, f);
    forall n
      ensures Group(kept + [f], n) == Group(kept, n) + (if Key(f) == n then [f] else [])
      ensures !Has(kept, n) ==> Group(kept, n) == []
    {
      GroupSnoc(kept, f, n);
      GroupIs(kept, n);
      NoBlock(kept, n);
    }
  }

  method HTTP1FromCapture(measured: Measured, shared: Header, ghost wire: Header) returns (r: Option<HTTP1>)
    requires SpelledAs(measured, wire)
    ensures r == ProfileOf(wire, shared)
  {
    hide Has, Kept, Spellings, Group, Differing, Values, Order;
    Empty();
    NothingKept();
    var groups: map<string, Header> := map[];
    var order: seq<string> := [];
    assert wire[..0] == [];
    for i := 0 to |measured.headers|
      invariant order == Spellings(Kept(wire[..i]))
      invariant forall n :: n in groups <==> Has(Kept(wire[..i]), n)
      invariant forall n :: n in groups ==> groups[n] == if n == "host" then [] else Group(Kept(wire[..i]), n)
    {
      var header := measured.headers[i];
      var name := Lower(header.name);
      var f := wire[i];
      assert wire[..i + 1] == wire[..i] + [f];
      KeptSnoc(wire[..i], f);
      if name in PER_REQUEST && name != "host" {
        assert Kept(wire[..i]) + [] == Kept(wire[..i]);
        continue;
      }
      OneMoreKept(Kept(wire[..i]), f);
      var wireName := header.name;
      if i < |measured.wireNames| && measured.wireNames[i] != "" {
        wireName := measured.wireNames[i];
      }
      if name !in groups {
        groups := groups[name := []];
        order := order + [wireName];
      }
      if name != "host" {
        groups := groups[name := groups[name] + [Field(wireName, header.value)]];
      }
    }
    assert wire[..|measured.headers|] == wire;
    var kept := Kept(wire);
    SomethingKept(kept);
    if order == [] {
      return None;
    }
    SpellingsSpell(kept);
    var headers: Header := [];
    for i := 0 to |order|
      invariant headers == Differing(kept, Order(kept)[..i], shared)
    {
      var name := Lower(order[i]);
      assert name == Order(kept)[i] && Order(kept)[..i + 1] == Order(kept)[..i] + [name];
      DifferingSnoc(kept, Order(kept)[..i], name, shared);
      GroupIs(kept, name);
      if !SameValues(groups[name], Values(shared, name)) {
        headers := headers + groups[name];
      }
    }
    assert Order(kept)[..|order|] == Order(kept);
    r := Some(HTTP1(order, headers));
  }
}
