/** The replay claim: a measured request, turned into a profile and laid out again, puts the browser's
    own names, order and values on the wire. */
module Replay {
  import opened Common
  import opened Text
  import opened Headers
  import opened HeaderLaws
  import opened Capture
  import opened Layout

  // ---------------------------------------------------------------------------------------------
  // The profile carries every measured value.

  ghost predicate Names(names: seq<string>) {
    Distinct(names) && forall n <- names :: Lower(n) == n
  }

  lemma {:induction false} DifferingIs(kept: Header, names: seq<string>, shared: Header, n: string)
    requires Distinct(names)
    ensures Values(Differing(kept, names, shared), n) ==
            if n in names && n != "host" && Values(kept, n) != Values(shared, n) then Values(kept, n) else []
  {
    hide Values, Group;
    Empty();
    if names != [] {
      var front, last := names[..|names| - 1], names[|names| - 1];
      assert names == front + [last];
      DifferingIs(kept, front, shared, n);
      GroupIs(kept, last);
      ValuesConcat(Differing(kept, front, shared), Group(kept, last), n);
      assert Differing(kept, front, shared) + [] == Differing(kept, front, shared);
    }
  }

  /** What the shared block and the HTTP/1.1 part resolve to is what was measured. */
  lemma ResolvesToMeasured(wire: Header, shared: Header, n: string)
    requires n in Order(Kept(wire)) && n != "host"
    ensures Values(Layered(shared, Differing(Kept(wire), Order(Kept(wire)), shared)), n) == Values(Kept(wire), n)
    ensures Values(Kept(wire), n) != []
  {
    hide Values, Has, Order, Differing, Layered, Kept;
    var kept := Kept(wire);
    var own := Differing(kept, Order(kept), shared);
    OrderHas(kept);
    DifferingIs(kept, Order(kept), shared, n);
    LayeredValues(shared, own, n);
    NoBlock(own, n);
    NoBlock(kept, n);
  }

  lemma {:induction false} ResolvedBlocksAre(resolved: Header, names: seq<string>)
    requires Names(names)
    ensures forall n :: Values(ResolvedBlocks(resolved, names), n) ==
                        if n in names && n != "host" then Values(resolved, n) else []
  {
    hide Values, Spell;
    Empty();
    if names != [] {
      var front, last := names[..|names| - 1], names[|names| - 1];
      assert names == front + [last];
      ResolvedBlocksAre(resolved, front);
      SpellIs(last, Values(resolved, last));
      forall n
        ensures Values(ResolvedBlocks(resolved, names), n) ==
                if n in names && n != "host" then Values(resolved, n) else []
      {
        ValuesConcat(ResolvedBlocks(resolved, front), Headers.Block(resolved, last), n);
        assert ResolvedBlocks(resolved, front) + [] == ResolvedBlocks(resolved, front);
      }
    }
  }

  /** The header list of a client without headers of its own holds exactly what was measured. */
  lemma ProfileHolds(wire: Header, shared: Header)
    requires Kept(wire) != []
    ensures var p := HTTP1Headers(shared, ProfileOf(wire, shared).value);
            forall n :: Values(p, n) == if n in Order(Kept(wire)) && n != "host" then Values(Kept(wire), n) else []
  {
    hide Values, Has, Order, Spellings, Differing, Layered, Kept, ResolvedBlocks;
    var kept := Kept(wire);
    var http1 := ProfileOf(wire, shared).value;
    SpellingsSpell(kept);
    OrderHas(kept);
    assert Lowered(http1.headerOrder) == Order(kept);
    var resolved := Layered(shared, http1.headers);
    ResolvedBlocksAre(resolved, Order(kept));
    forall n | n in Order(kept) && n != "host"
      ensures Values(resolved, n) == Values(kept, n)
    {
      ResolvesToMeasured(wire, shared, n);
    }
  }

  // ---------------------------------------------------------------------------------------------
  // The layout sends every name of the header list.

  ghost predicate Sends(b: Layout.Block, wireName: string, values: seq<string>) {
    wireName in b.fields && b.fields[wireName] == values
  }

  /** The names of a list that are not yet placed. Host is never placed for the caller's sake alone. */
  function Extra(names: seq<string>, placed: seq<string>): seq<string> {
    if names == [] then []
    else
      var n := names[|names| - 1];
      Extra(names[..|names| - 1], placed) + (if n in placed || n == "host" then [] else [n])
  }

  lemma ExtraSnoc(names: seq<string>, n: string, placed: seq<string>)
    ensures Extra(names + [n], placed) == Extra(names, placed) + (if n in placed || n == "host" then [] else [n])
  {
    assert (names + [n])[..|names|] == names;
  }

  lemma {:induction false} ExtraHas(names: seq<string>, placed: seq<string>)
    ensures forall n :: n in Extra(names, placed) <==> n in names && n !in placed && n != "host"
  {
    if names != [] {
      ExtraHas(names[..|names| - 1], placed);
      assert names == names[..|names| - 1] + [names[|names| - 1]];
    }
  }

  lemma {:induction false} NothingExtra(names: seq<string>, placed: seq<string>)
    requires forall n <- names :: n in placed
    ensures Extra(names, placed) == []
  {
    if names != [] {
      NothingExtra(names[..|names| - 1], placed);
    }
  }

  lemma {:induction false} ExtraConcat(a: seq<string>, b: seq<string>, placed: seq<string>)
    ensures Extra(a + b, placed) == Extra(a, placed) + Extra(b, placed)
  {
    if b == [] {
      assert a + b == a;
    } else {
      var front, n := b[..|b| - 1], b[|b| - 1];
      assert b == front + [n] && a + b == (a + front) + [n];
      ExtraConcat(a, front, placed);
      ExtraSnoc(a + front, n, placed);
      ExtraSnoc(front, n, placed);
    }
  }

  lemma {:induction false} ExtraWithout(names: seq<string>, h: Header, placed: seq<string>)
    requires forall n :: Has(h, n) ==> n in placed
    ensures Extra(Without(names, h), placed) == Extra(names, placed)
  {
    hide Has, Without, Extra;
    Empty();
    if names != [] {
      var front, n := names[..|names| - 1], names[|names| - 1];
      assert names == front + [n];
      ExtraWithout(front, h, placed);
      WithoutSnoc(front, n, h);
      ExtraSnoc(front, n, placed);
      ExtraSnoc(Without(front, h), n, placed);
      assert Without(front, h) + [] == Without(front, h);
      assert Extra(front, placed) + [] == Extra(front, placed);
    } else {
      assert Without(names, h) == [];
    }
  }

  lemma PutSends(b: Layout.Block, wireName: string, n: string, values: seq<string>)
    requires WellFormed(b) && Lower(wireName) == n && n !in b.order
    ensures Sends(Put(b, wireName, n, values), wireName, values)
    ensures forall w, vs :: Sends(b, w, vs) ==> Sends(Put(b, wireName, n, values), w, vs)
  {
  }

  lemma {:induction false} MeasuredlySends(h: Header, host: string, wireNames: seq<string>, names: seq<string>)
    requires |wireNames| == |names| && Distinct(names)
    requires forall i :: 0 <= i < |names| ==> Lower(wireNames[i]) == names[i] && ValuesToSend(h, host, names[i]) != []
    ensures var b := Measuredly(h, host, wireNames);
            && WellFormed(b) && b.order == names
            && forall i :: 0 <= i < |names| ==> Sends(b, wireNames[i], ValuesToSend(h, host, names[i]))
    decreases |names|
  {
    hide ValuesToSend, WellFormed, Sends;
    if names != [] {
      var m := |names| - 1;
      assert names == names[..m] + [names[m]];
      MeasuredlySends(h, host, wireNames[..m], names[..m]);
      var front := Measuredly(h, host, wireNames[..m]);
      PutIsWellFormed(front, wireNames[m], names[m], ValuesToSend(h, host, names[m]));
      PutSends(front, wireNames[m], names[m], ValuesToSend(h, host, names[m]));
      forall i | 0 <= i < m
        ensures Sends(front, wireNames[i], ValuesToSend(h, host, names[i]))
      {
        assert wireNames[..m][i] == wireNames[i] && names[..m][i] == names[i];
      }
    } else {
      NoFieldsAreWellFormed();
    }
  }

  lemma NoFieldsAreWellFormed()
    ensures WellFormed(NO_FIELDS)
  {
  }

  lemma {:induction false} UnmeasuredSends(h: Header, b: Layout.Block, part: Header)
    requires WellFormed(b)
    ensures var c := Unmeasured(h, b, part);
            && WellFormed(c) && c.order == b.order + Extra(Order(part), b.order)
            && (forall w, vs :: Sends(b, w, vs) ==> Sends(c, w, vs))
            && (forall n <- Extra(Order(part), b.order) :: Sends(c, Canonical(n), Values(h, n)))
    decreases |part|
  {
    hide Has, Values, Order, WellFormed, Sends, Extra, Canonical;
    Empty();
    ExtraOfNothing(b.order);
    if part != [] {
      var front, f := part[..|part| - 1], part[|part| - 1];
      var n := Key(f);
      Last(part);
      UnmeasuredSends(h, b, front);
      OrderSnoc(front, f);
      OrderHas(front);
      ExtraHas(Order(front), b.order);
      ExtraSnoc(Order(front), n, b.order);
      var before := Unmeasured(h, b, front);
      if Has(front, n) {
        assert Order(part) == Order(front);
      }
      if n in before.order || n == "host" {
        assert Extra(Order(part), b.order) == Extra(Order(front), b.order);
      } else {
        assert !Has(front, n);
        LowerLower(f.name);
        CanonicalIsASpelling(n);
        PutIsWellFormed(before, Canonical(n), n, Values(h, n));
        PutSends(before, Canonical(n), n, Values(h, n));
        assert b.order + (Extra(Order(front), b.order) + [n]) == before.order + [n];
      }
    } else {
      assert b.order + [] == b.order;
    }
  }

  lemma ExtraOfNothing(placed: seq<string>)
    ensures Extra([], placed) == []
  {
  }

  // ---------------------------------------------------------------------------------------------
  // The claim.

  /** The first hop's HTTP/1.1 layout: a measurement, made a profile, with the caller's overrides. */
  function Replayed(wire: Header, shared: Header, overrides: Header, host: string): Layout.Block
    requires Kept(wire) != []
  {
    var http1 := ProfileOf(wire, shared).value;
    LayoutOf(Layered(HTTP1Headers(shared, http1), overrides), http1.headerOrder, host)
  }

  lemma OverridesAndMeasured(wire: Header, shared: Header, overrides: Header, n: string)
    requires Kept(wire) != []
    ensures var h := Layered(HTTP1Headers(shared, ProfileOf(wire, shared).value), overrides);
            && Values(h, n) == (if Has(overrides, n) then Values(overrides, n)
                                else if n in Order(Kept(wire)) && n != "host" then Values(Kept(wire), n) else [])
            && (n in Order(Kept(wire)) && n != "host" ==> Values(h, n) != [])
  {
    hide Values, Has, Order, Layered, Kept, HTTP1Headers;
    ProfileHolds(wire, shared);
    LayeredValues(HTTP1Headers(shared, ProfileOf(wire, shared).value), overrides, n);
    NoBlock(overrides, n);
    OrderHas(Kept(wire));
    NoBlock(Kept(wire), n);
  }

  lemma OverridesOrder(wire: Header, shared: Header, overrides: Header)
    requires Kept(wire) != []
    ensures var p := HTTP1Headers(shared, ProfileOf(wire, shared).value);
            Extra(Order(Layered(p, overrides)), Order(Kept(wire))) == Extra(Order(overrides), Order(Kept(wire)))
  {
    hide Values, Has, Order, Layered, Kept, HTTP1Headers, Extra, Without;
    var p := HTTP1Headers(shared, ProfileOf(wire, shared).value);
    var names := Order(Kept(wire));
    ProfileHolds(wire, shared);
    forall n | Has(p, n)
      ensures n in names
    {
      NoBlock(p, n);
    }
    LayeredOrder(p, overrides);
    ExtraConcat(Order(p), Without(Order(overrides), p), names);
    ExtraWithout(Order(overrides), p, names);
    OrderHas(p);
    NothingExtra(Order(p), names);
    assert [] + Extra(Order(overrides), names) == Extra(Order(overrides), names);
  }

  /** Replay with overrides. The measured names come first, in measured order and spelling, each with
      the caller's values if the caller gave any and the measured ones otherwise; Host is the caller's
      or the URL's; the caller's other names follow. */
  lemma ReplayIsFaithful(wire: Header, shared: Header, overrides: Header, host: string)
    requires Kept(wire) != []
    ensures var kept, b := Kept(wire), Replayed(wire, shared, overrides, host);
            && WellFormed(b)
            && b.order == Order(kept) + Extra(Order(overrides), Order(kept))
            && (forall n <- Order(kept) :: Has(kept, n) &&
                  Sends(b, Spelling(kept, n),
                        if n == "host" then [HostOf(overrides, host)]
                        else if Has(overrides, n) then Values(overrides, n) else Values(kept, n)))
            && (forall n <- Extra(Order(overrides), Order(kept)) :: Sends(b, Canonical(n), Values(overrides, n)))
  {
    hide Values, Has, Order, Layered, Kept, HTTP1Headers, Extra, WellFormed, Sends, Canonical, Spellings,
         Measuredly, Unmeasured, Spelling, Differing;
    var kept := Kept(wire);
    var http1 := ProfileOf(wire, shared).value;
    var h := Layered(HTTP1Headers(shared, http1), overrides);
    SpellingsSpell(kept);
    OrderHas(kept);
    HostOfLayers(wire, shared, overrides, host);
    forall i | 0 <= i < |Order(kept)|
      ensures ValuesToSend(h, host, Order(kept)[i]) != []
    {
      OverridesAndMeasured(wire, shared, overrides, Order(kept)[i]);
    }
    MeasuredlySends(h, host, Spellings(kept), Order(kept));
    UnmeasuredSends(h, Measuredly(h, host, Spellings(kept)), h);
    OverridesOrder(wire, shared, overrides);
    var b := Replayed(wire, shared, overrides, host);
    forall n | n in Order(kept)
      ensures Has(kept, n) &&
              Sends(b, Spelling(kept, n),
                    if n == "host" then [HostOf(overrides, host)]
                    else if Has(overrides, n) then Values(overrides, n) else Values(kept, n))
    {
      var i :| 0 <= i < |Order(kept)| && Order(kept)[i] == n;
      OverridesAndMeasured(wire, shared, overrides, n);
    }
    forall n | n in Extra(Order(overrides), Order(kept))
      ensures Sends(b, Canonical(n), Values(overrides, n))
    {
      ExtraHas(Order(overrides), Order(kept));
      OrderHas(overrides);
      OverridesAndMeasured(wire, shared, overrides, n);
    }
  }

  lemma HostOfLayers(wire: Header, shared: Header, overrides: Header, host: string)
    requires Kept(wire) != []
    ensures HostOf(Layered(HTTP1Headers(shared, ProfileOf(wire, shared).value), overrides), host)
            == HostOf(overrides, host)
  {
    hide Values, Has, Order, Layered, Kept, HTTP1Headers, ProfileOf;
    OverridesAndMeasured(wire, shared, overrides, "host");
    NoBlock(overrides, "host");
  }

  /** Replay as it was measured: without overrides the wire carries the measured names, in the measured
      order and spelling, repeats gathered where a name first occurs, with the measured values and the
      host of the URL, and nothing else. */
  lemma ReplayReproduces(wire: Header, shared: Header, host: string)
    requires Kept(wire) != []
    ensures var kept, b := Kept(wire), Replayed(wire, shared, [], host);
            && WellFormed(b) && b.order == Order(kept)
            && (forall n <- Order(kept) :: Has(kept, n) &&
                  Sends(b, Spelling(kept, n), if n == "host" then [host] else Values(kept, n)))
  {
    hide Has, Order, Kept, Replayed, WellFormed, Sends, Spelling, Extra, Values, Canonical;
    Empty();
    ExtraOfNothing(Order(Kept(wire)));
    ReplayIsFaithful(wire, shared, [], host);
    assert Order(Kept(wire)) + [] == Order(Kept(wire));
  }

  // ---------------------------------------------------------------------------------------------
  // From the wire and back.

  /** A field as it can stand on a header line. */
  predicate Clean(f: Field) {
    && ':' !in f.name
    && Trim(f.name) == f.name
    && Trim(f.value) == f.value
  }

  function Lines(wire: Header): seq<string> {
    if wire == [] then [""] else [wire[0].name + ": " + wire[0].value] + Lines(wire[1..])
  }

  lemma WireFieldAt(name: string, value: string)
    requires ':' !in name
    ensures WireField(name + [':'] + value) == Some(Field(Trim(name), Trim(value)))
  {
    hide Cut, Trim;
    CutAt(name, ':', value);
  }

  lemma TrimSpace(s: string)
    ensures Trim(" " + s) == Trim(s)
  {
    hide TrimLeft, TrimRight;
    TrimLeftSpace(s);
  }

  lemma Separated(name: string, value: string)
    ensures name + ": " + value == name + [':'] + (" " + value)
    ensures name + ": " + value != ""
  {
  }

  lemma LineReads(f: Field)
    requires Clean(f)
    ensures WireField(f.name + ": " + f.value) == Some(f)
    ensures f.name + ": " + f.value != ""
  {
    hide WireField, Trim;
    Separated(f.name, f.value);
    WireFieldAt(f.name, " " + f.value);
    TrimSpace(f.value);
  }

  lemma TrimLeftSpace(s: string)
    ensures TrimLeft(" " + s) == TrimLeft(s)
  {
    assert (" " + s)[1..] == s;
  }

  lemma WireHeaderCons(line: string, rest: seq<string>, seen: nat)
    ensures WireHeader([""], seen) == Ok([])
    ensures line != "" && seen < MAX_HEADERS && WireField(line).Some? && WireHeader(rest, seen + 1).Ok? ==>
              WireHeader([line] + rest, seen) == Ok([WireField(line).value] + WireHeader(rest, seen + 1).value)
  {
    hide WireField;
    assert ([line] + rest)[1..] == rest;
  }

  /** A request within the limit on headers is measured as it was sent. */
  lemma {:induction false} WireReadsBack(wire: Header, seen: nat)
    requires forall f <- wire :: Clean(f)
    requires seen + |wire| <= MAX_HEADERS
    ensures WireHeader(Lines(wire), seen) == Ok(wire)
  {
    hide WireField, WireHeader, Clean;
    if wire == [] {
      WireHeaderCons("", [], seen);
    } else {
      var f, rest := wire[0], wire[1..];
      LineReads(f);
      WireReadsBack(rest, seen + 1);
      WireHeaderCons(f.name + ": " + f.value, Lines(rest), seen);
      assert wire == [f] + rest;
    }
  }
}
