/** What a measured request leaves in a profile, name by name, and what is read off its header lines. */
module CaptureLaws {
  import opened Common
  import opened Text
  import opened Headers
  import opened HeaderLaws
  import opened Capture
  import Replay

  // ---------------------------------------------------------------------------------------------
  // What a profile carries.

  /** The names that belong to one request and to no browser. */
  predicate OfOneRequest(n: string) {
    n in {"cookie", "content-length", "content-type", "referer", "origin", "cache-control", "pragma"}
  }

  lemma WhatIsDropped(n: string)
    ensures Keeps(n) <==> !OfOneRequest(n)
    ensures Dropped(n) <==> OfOneRequest(n) || n == "host" || (n != "" && n[0] == ':')
  {
    assert |"host"| == 4 && |"cookie"| == 6 && |"content-length"| == 14 && |"content-type"| == 12;
    assert |"referer"| == 7 && |"origin"| == 6 && |"cache-control"| == 13 && |"pragma"| == 6;
  }

  /** The shared block carries the values of every name but those of one request, Host, and pseudo headers. */
  lemma WhatIsShared(fields: Header, n: string)
    ensures Values(Carried(fields), n) ==
            if OfOneRequest(n) || n == "host" || (n != "" && n[0] == ':') then [] else Values(fields, n)
    ensures Has(Carried(fields), n) ==> !OfOneRequest(n) && n != "host"
  {
    hide Carried, Values, Has, OfOneRequest, Dropped;
    CarriedValues(fields, n);
    WhatIsDropped(n);
  }

  lemma {:induction false} KeptIs(wire: Header, n: string)
    ensures Values(Kept(wire), n) == if Keeps(n) then Values(wire, n) else []
    ensures Has(Kept(wire), n) <==> Keeps(n) && Has(wire, n)
  {
    hide Keeps, Values, Has, Kept;
    Empty();
    NothingKept();
    if wire != [] {
      var front, f := wire[..|wire| - 1], wire[|wire| - 1];
      assert wire == front + [f];
      KeptIs(front, n);
      KeptSnoc(front, f);
      ValuesSnoc(front, f);
      HasSnoc(front, f);
      ValuesSnoc(Kept(front), f);
      HasSnoc(Kept(front), f);
      assert Kept(front) + [] == Kept(front);
    }
  }

  lemma SomethingIsKept(wire: Header)
    ensures Kept(wire) == [] <==> forall n :: Has(wire, n) ==> OfOneRequest(n)
  {
    hide OfOneRequest, Keeps, Kept;
    forall n
      ensures Has(Kept(wire), n) <==> !OfOneRequest(n) && Has(wire, n)
    {
      KeptIs(wire, n);
      WhatIsDropped(n);
    }
    if Kept(wire) != [] {
      assert Has(Kept(wire), Key(Kept(wire)[|Kept(wire)| - 1]));
    }
  }

  /** The HTTP/1.1 part lists exactly the measured names that do not belong to one request, Host among them, and
      holds, of the others, the values the shared block does not already carry. There is no such part when nothing
      would be listed. */
  lemma WhatTheHTTP1PartTakes(wire: Header, shared: Header, n: string)
    ensures ProfileOf(wire, shared).None? <==> forall m :: Has(wire, m) ==> OfOneRequest(m)
    ensures ProfileOf(wire, shared).Some? ==>
              var p := ProfileOf(wire, shared).value;
              && ((exists k :: 0 <= k < |p.headerOrder| && Lower(p.headerOrder[k]) == n) <==>
                  Has(wire, n) && !OfOneRequest(n))
              && Values(p.headers, n) ==
                 if n == "host" || OfOneRequest(n) || Values(wire, n) == Values(shared, n) then []
                 else Values(wire, n)
  {
    hide OfOneRequest, Keeps, Kept, Values, Has, Order, Spellings, Differing, Spelling;
    SomethingIsKept(wire);
    var kept := Kept(wire);
    KeptIs(wire, n);
    WhatIsDropped(n);
    OrderHas(kept);
    SpellingsSpell(kept);
    Replay.DifferingIs(kept, Order(kept), shared, n);
    NoBlock(wire, n);
    if n in Order(kept) {
      var k :| 0 <= k < |Order(kept)| && Order(kept)[k] == n;
      assert Lower(Spellings(kept)[k]) == n;
    }
  }

  /** A name is spelled as where it first occurs. */
  lemma {:induction false} HowItIsFirstSpelled(h: Header, k: nat)
    requires k < |h| && forall j :: 0 <= j < k ==> Key(h[j]) != Key(h[k])
    ensures Has(h, Key(h[k])) && Spelling(h, Key(h[k])) == h[k].name
  {
    var front, n := h[..|h| - 1], Key(h[k]);
    if k < |h| - 1 {
      HowItIsFirstSpelled(front, k);
    } else {
      NoneBefore(front, n);
    }
  }

  lemma {:induction false} NoneBefore(h: Header, n: string)
    requires forall j :: 0 <= j < |h| ==> Key(h[j]) != n
    ensures !Has(h, n)
  {
    if h != [] {
      NoneBefore(h[..|h| - 1], n);
    }
  }

  // ---------------------------------------------------------------------------------------------
  // What is read off the lines.

  /** A request is kept in three lists, entry by entry: name in lower case and value, the name again, and the name
      as it was spelled. */
  lemma WhatIsMeasured(wire: Header, i: nat)
    requires i < |wire|
    ensures var m := MeasuredAs(wire);
            && |m.headers| == |m.order| == |m.wireNames| == |wire|
            && m.headers[i].name == m.order[i] && m.headers[i].value == wire[i].value
            && m.wireNames[i] == wire[i].name && |m.order[i]| == |wire[i].name|
            && forall k :: 0 <= k < |wire[i].name| ==>
                 m.order[i][k] as int == if 'A' <= wire[i].name[k] <= 'Z' then wire[i].name[k] as int + 32
                                         else wire[i].name[k] as int
  {
  }

  /** The first `k` lines after the request line are header lines. */
  predicate HeaderLines(lines: seq<string>, k: nat) {
    k <= |lines| && forall j :: 0 <= j < k ==> lines[j] != "" && ':' in lines[j]
  }

  lemma HasColon(line: string)
    ensures WireField(line).Some? <==> ':' in line
  {
    hide Trim;
    if WireField(line).Some? {
      var cut := Cut(line, ':').value;
      assert (cut.0 + [':'] + cut.1)[|cut.0|] == ':';
    }
  }

  lemma {:induction false} WhereReadingEnds(lines: seq<string>, i: nat, k: nat)
    requires HeaderLines(lines, k) && i <= k <= 100
    ensures var r := WireHeader(lines[i..], i);
            && (k == |lines| ==> r == Err(Ended))
            && (k < |lines| && lines[k] == "" ==>
                  r.Ok? && |r.value| == k - i &&
                  forall j :: i <= j < k ==> WireField(lines[j]).Some? && r.value[j - i] == WireField(lines[j]).value)
            && (k < |lines| && lines[k] != "" && k == 100 ==> r == Err(TooManyHeaders))
            && (k < |lines| && lines[k] != "" && k < 100 && ':' !in lines[k] ==> r == Err(MalformedHeader))
    decreases k - i
  {
    hide WireField;
    if i < k {
      assert lines[i..][1..] == lines[i + 1..] && lines[i..][0] == lines[i];
      HasColon(lines[i]);
      WhereReadingEnds(lines, i + 1, k);
    } else if k < |lines| {
      assert lines[i..][0] == lines[k];
      HasColon(lines[k]);
    }
  }

  /** Header lines are read up to the empty one, at most a hundred of them, each a name, a colon and a value, both
      trimmed; input that ends before, a line without a colon and a line too many are errors, in their order. */
  lemma WhatTheLinesSay(lines: seq<string>, k: nat)
    requires HeaderLines(lines, k) && k <= 100
    ensures var r := WireHeader(lines, 0);
            && (k == |lines| ==> r == Err(Ended))
            && (k < |lines| && lines[k] == "" ==> r.Ok? && |r.value| == k)
            && (k < |lines| && lines[k] != "" && k == 100 ==> r == Err(TooManyHeaders))
            && (k < |lines| && lines[k] != "" && k < 100 && ':' !in lines[k] ==> r == Err(MalformedHeader))
            && (forall j, name, value :: k < |lines| && lines[k] == "" && 0 <= j < k && ':' !in name &&
                                         lines[j] == name + [':'] + value ==>
                  r.value[j] == Field(Trim(name), Trim(value)))
  {
    hide WireField, Trim;
    assert lines[0..] == lines;
    WhereReadingEnds(lines, 0, k);
    forall j, name, value | k < |lines| && lines[k] == "" && 0 <= j < k && ':' !in name &&
                            lines[j] == name + [':'] + value
      ensures WireHeader(lines, 0).value[j] == Field(Trim(name), Trim(value))
    {
      Replay.WireFieldAt(name, value);
    }
  }
}
