/** A redirect is a new request: what becomes of the measured HTTP/1.1 block when the transport has
    decided which headers the next hop may see. */
module Redirect {
  import opened Common
  import opened Text
  import opened Sorting
  import opened Layout
  import HeaderLaws

  type Values = seq<string>

  // ---------------------------------------------------------------------------------------------
  // One name at a time.

  /** What is sent under a name, however it is spelled. */
  ghost function ValueOf(b: Block, n: string): Option<Values> {
    if k :| k in b.fields && Lower(k) == n then Some(b.fields[k]) else None
  }

  function Filter(order: seq<string>, n: string): seq<string> {
    if order == [] then []
    else Filter(order[..|order| - 1], n) + (if order[|order| - 1] == n then [] else [order[|order| - 1]])
  }

  function Deleted(b: Block, n: string): Block {
    Block(map k | k in b.fields && Lower(k) != n :: b.fields[k], Filter(b.order, n))
  }

  ghost function SetTo(b: Block, n: string, values: Values): Block {
    if k :| k in b.fields && Lower(k) == n then Block(b.fields[k := values], b.order)
    else Put(b, Canonical(n), n, values)
  }

  class HeaderBlock {
    var fields: map<string, Values>
    var order: seq<string>

    function Model(): Block
      reads this
    {
      Block(fields, order)
    }

    constructor CloneOf(b: Block)
      ensures Model() == b
    {
      fields, order := b.fields, b.order;
    }

    method DeleteHeader(lower: string)
      modifies this
      ensures Model() == Deleted(old(Model()), lower)
    {
      fields := map k | k in fields && Lower(k) != lower :: fields[k];
      var kept: seq<string> := [];
      for i := 0 to |order|
        invariant kept == Filter(order[..i], lower)
        invariant order == old(order) && Model().fields == Deleted(old(Model()), lower).fields
      {
        assert order[..i + 1][..i] == order[..i];
        if order[i] != lower {
          kept := kept + [order[i]];
        }
      }
      assert order[..|order|] == order;
      order := kept;
    }

    method SetHeader(lower: string, values: Values)
      requires WellFormed(Model())
      modifies this
      ensures Model() == SetTo(old(Model()), lower, values)
    {
      hide WellFormed, SetTo, Lower, Canonical;
      ghost var before := Model();
      var wireName: Option<string> := None;
      var names := fields.Keys;
      while names != {} && wireName.None?
        invariant names <= fields.Keys
        invariant wireName.Some? ==> wireName.value in fields && Lower(wireName.value) == lower
        invariant wireName.None? ==> forall k :: k in fields && Lower(k) == lower ==> k in names
        decreases names
      {
        var name :| name in names;
        names := names - {name};
        if Lower(name) == lower {
          wireName := Some(name);
        }
      }
      if wireName.None? {
        SetMissing(before, lower, values);
        wireName := Some(Canonical(lower));
        order := order + [lower];
      } else {
        SetExisting(before, wireName.value, values);
      }
      fields := fields[wireName.value := values];
    }
  }

  lemma TheSpelling(b: Block, k: string)
    requires WellFormed(b) && k in b.fields
    ensures ValueOf(b, Lower(k)) == Some(b.fields[k])
  {
  }

  lemma NoSpelling(b: Block, n: string)
    ensures ValueOf(b, n).None? <==> forall k <- b.fields :: Lower(k) != n
    ensures WellFormed(b) ==> (ValueOf(b, n).None? <==> n !in b.order)
  {
  }

  lemma {:induction false} FilterIs(order: seq<string>, n: string)
    ensures forall m :: m in Filter(order, n) <==> m in order && m != n
    ensures HeaderLaws.Distinct(order) ==> HeaderLaws.Distinct(Filter(order, n))
  {
    if order != [] {
      var front, last := order[..|order| - 1], order[|order| - 1];
      FilterIs(front, n);
      assert order == front + [last];
      assert HeaderLaws.Distinct(order) ==> HeaderLaws.Distinct(front) && last !in front;
    }
  }

  lemma DeletedIsWellFormed(b: Block, n: string)
    requires WellFormed(b)
    ensures WellFormed(Deleted(b, n))
  {
    FilterIs(b.order, n);
    var c := Deleted(b, n);
    forall m | m in c.order
      ensures exists k <- c.fields :: Lower(k) == m
    {
      var k :| k in b.fields && Lower(k) == m;
      assert k in c.fields;
    }
  }

  lemma DeletedIs(b: Block, n: string)
    requires WellFormed(b)
    ensures WellFormed(Deleted(b, n))
    ensures forall m :: ValueOf(Deleted(b, n), m) == if m == n then None else ValueOf(b, m)
  {
    DeletedIsWellFormed(b, n);
    var c := Deleted(b, n);
    forall m
      ensures ValueOf(c, m) == if m == n then None else ValueOf(b, m)
    {
      NoSpelling(c, m);
      NoSpelling(b, m);
      if k :| k in b.fields && Lower(k) == m && m != n {
        TheSpelling(b, k);
        TheSpelling(c, k);
      }
    }
  }

  lemma SetIsWellFormed(b: Block, n: string, values: Values)
    requires WellFormed(b) && Lower(n) == n
    ensures var c := SetTo(b, n, values);
            && WellFormed(c)
            && b.fields.Keys <= c.fields.Keys
            && c.order == if n in b.order then b.order else b.order + [n]
  {
    NoSpelling(b, n);
    var c := SetTo(b, n, values);
    if n in b.order {
      assert c.fields.Keys == b.fields.Keys;
      forall m | m in c.order
        ensures exists k <- c.fields :: Lower(k) == m
      {
        var k :| k in b.fields && Lower(k) == m;
        assert k in c.fields;
      }
    } else {
      CanonicalIsASpelling(n);
      PutIsWellFormed(b, Canonical(n), n, values);
    }
  }

  lemma SetExisting(b: Block, k: string, values: Values)
    requires WellFormed(b) && k in b.fields
    ensures SetTo(b, Lower(k), values) == Block(b.fields[k := values], b.order)
  {
  }

  lemma SetMissing(b: Block, n: string, values: Values)
    requires forall k <- b.fields :: Lower(k) != n
    ensures SetTo(b, n, values) == Put(b, Canonical(n), n, values)
  {
  }

  lemma SetGives(b: Block, n: string, values: Values, m: string)
    requires WellFormed(b) && Lower(n) == n && WellFormed(SetTo(b, n, values))
    ensures ValueOf(SetTo(b, n, values), m) == if m == n then Some(values) else ValueOf(b, m)
  {
    hide WellFormed, ValueOf, SetTo, Lower, Canonical;
    var c := SetTo(b, n, values);
    NoSpelling(b, m);
    NoSpelling(c, m);
    var key := Canonical(n);
    if k :| k in b.fields && Lower(k) == n {
      SetExisting(b, k, values);
      key := k;
    } else {
      CanonicalIsASpelling(n);
      SetMissing(b, n, values);
    }
    if m == n {
      TheSpelling(c, key);
    } else if k :| k in b.fields && Lower(k) == m {
      TheSpelling(c, k);
      TheSpelling(b, k);
    }
  }

  lemma SetIs(b: Block, n: string, values: Values)
    requires WellFormed(b) && Lower(n) == n
    ensures var c := SetTo(b, n, values);
            && WellFormed(c)
            && b.fields.Keys <= c.fields.Keys
            && c.order == (if n in b.order then b.order else b.order + [n])
            && forall m :: ValueOf(c, m) == if m == n then Some(values) else ValueOf(b, m)
  {
    hide WellFormed, SetTo, ValueOf, Lower;
    SetIsWellFormed(b, n, values);
    forall m
      ensures ValueOf(SetTo(b, n, values), m) == if m == n then Some(values) else ValueOf(b, m)
    {
      SetGives(b, n, values, m);
    }
  }

  // ---------------------------------------------------------------------------------------------
  // The redirect.

  type ByName = map<string, Values>

  /** What the redirect decided about a name other than Host. */
  datatype Fate = Untouched | Gone | Replaced(values: Values)

  function FateOf(before: ByName, now: ByName, n: string): Fate {
    if n == "host" then Untouched
    else if n !in now then (if n in before then Gone else Untouched)
    else if n in before && before[n] == now[n] then Untouched
    else Replaced(now[n])
  }

  ghost function Decided(b: Block, fate: Fate, n: string): Block {
    match fate
    case Untouched => b
    case Gone => Deleted(b, n)
    case Replaced(values) => SetTo(b, n, values)
  }

  ghost function DecidedAll(b: Block, names: seq<string>, before: ByName, now: ByName): Block {
    if names == [] then b
    else
      var n := names[|names| - 1];
      Decided(DecidedAll(b, names[..|names| - 1], before, now), FateOf(before, now, n), n)
  }

  lemma DecidedSnoc(b: Block, names: seq<string>, n: string, before: ByName, now: ByName)
    ensures DecidedAll(b, [], before, now) == b
    ensures DecidedAll(b, names + [n], before, now) ==
            Decided(DecidedAll(b, names, before, now), FateOf(before, now, n), n)
  {
    assert (names + [n])[..|names|] == names;
  }

  /** The names the redirect brought. */
  function New(names: seq<string>, before: ByName): seq<string> {
    if names == [] then []
    else
      var n := names[|names| - 1];
      New(names[..|names| - 1], before) + (if n in before || n == "host" then [] else [n])
  }

  lemma NewSnoc(names: seq<string>, n: string, before: ByName)
    ensures New([], before) == []
    ensures New(names + [n], before) == New(names, before) + (if n in before || n == "host" then [] else [n])
  {
    assert (names + [n])[..|names|] == names;
  }

  /** What is left of an order once the dropped names among `names` are gone. */
  function Survivors(order: seq<string>, names: seq<string>, before: ByName, now: ByName): seq<string> {
    if order == [] then []
    else
      var n := order[|order| - 1];
      Survivors(order[..|order| - 1], names, before, now) +
      (if n in names && FateOf(before, now, n).Gone? then [] else [n])
  }

  /** The names that have to be added to an order because the redirect set a value under them. */
  function Added(order: seq<string>, names: seq<string>, before: ByName, now: ByName): seq<string> {
    if names == [] then []
    else
      var n := names[|names| - 1];
      Added(order, names[..|names| - 1], before, now) +
      (if n !in order && FateOf(before, now, n).Replaced? then [n] else [])
  }

  lemma AddedSnoc(order: seq<string>, names: seq<string>, n: string, before: ByName, now: ByName)
    ensures Added(order, [], before, now) == []
    ensures Added(order, names + [n], before, now) ==
            Added(order, names, before, now) +
            (if n !in order && FateOf(before, now, n).Replaced? then [n] else [])
  {
    assert (names + [n])[..|names|] == names;
  }

  lemma {:induction false} AddedAreNames(order: seq<string>, names: seq<string>, before: ByName, now: ByName)
    ensures forall m :: m in Added(order, names, before, now) <==>
              m in names && m !in order && FateOf(before, now, m).Replaced?
    ensures Sorted(StringLe, names) ==> Sorted(StringLe, Added(order, names, before, now))
  {
    if names != [] {
      var front, n := names[..|names| - 1], names[|names| - 1];
      assert names == front + [n];
      AddedAreNames(order, front, before, now);
      AddedSnoc(order, front, n, before, now);
      hide Added, FateOf, StringLe;
      var was := Added(order, front, before, now);
      if Sorted(StringLe, names) {
        forall m | m in front
          ensures StringLe(m, n)
        {
          var i :| 0 <= i < |front| && front[i] == m;
          assert names[i] == m && names[|front|] == n;
        }
      }
    }
  }

  lemma {:induction false} SurvivorsAre(order: seq<string>, names: seq<string>, before: ByName, now: ByName)
    ensures forall m :: m in Survivors(order, names, before, now) <==>
              m in order && !(m in names && FateOf(before, now, m).Gone?)
  {
    if order != [] {
      SurvivorsAre(order[..|order| - 1], names, before, now);
      assert order == order[..|order| - 1] + [order[|order| - 1]];
    }
  }

  lemma SurvivorsStep(order: seq<string>, last: string, names: seq<string>, before: ByName, now: ByName)
    ensures Survivors([], names, before, now) == []
    ensures Survivors(order + [last], names, before, now) ==
            Survivors(order, names, before, now) +
            (if last in names && FateOf(before, now, last).Gone? then [] else [last])
  {
    assert (order + [last])[..|order|] == order;
  }

  lemma FilterStep(order: seq<string>, last: string, n: string)
    ensures Filter([], n) == []
    ensures Filter(order + [last], n) == Filter(order, n) + (if last == n then [] else [last])
  {
    assert (order + [last])[..|order|] == order;
  }

  lemma {:induction false} SurvivorsSnoc(order: seq<string>, names: seq<string>, n: string,
                                         before: ByName, now: ByName)
    ensures Survivors(order, [], before, now) == order
    ensures Survivors(order, names + [n], before, now) ==
            if FateOf(before, now, n).Gone? then Filter(Survivors(order, names, before, now), n)
            else Survivors(order, names, before, now)
  {
    hide Survivors, Filter, FateOf;
    if order == [] {
      SurvivorsStep([], n, [], before, now);
      SurvivorsStep([], n, names, before, now);
      SurvivorsStep([], n, names + [n], before, now);
      FilterStep([], n, n);
    } else {
      var front, last := order[..|order| - 1], order[|order| - 1];
      assert order == front + [last];
      SurvivorsSnoc(front, names, n, before, now);
      SurvivorsStep(front, last, [], before, now);
      SurvivorsStep(front, last, names, before, now);
      SurvivorsStep(front, last, names + [n], before, now);
      FilterStep(Survivors(front, names, before, now), last, n);
      assert Survivors(front, names, before, now) + [] == Survivors(front, names, before, now);
    }
  }

  lemma {:induction false} FilterConcat(a: seq<string>, b: seq<string>, n: string)
    requires n !in b
    ensures Filter(a + b, n) == Filter(a, n) + b
  {
    if b == [] {
      assert a + b == a;
    } else {
      assert (a + b)[..|a + b| - 1] == a + b[..|b| - 1];
      FilterConcat(a, b[..|b| - 1], n);
    }
  }

  // ---------------------------------------------------------------------------------------------
  // All the names together.

  /** What a fate makes of the value that was there. */
  function Effect(fate: Fate, was: Option<Values>): Option<Values> {
    match fate
    case Untouched => was
    case Gone => None
    case Replaced(values) => Some(values)
  }

  ghost predicate KeepsSpellings(b: Block, c: Block) {
    forall k :: k in b.fields && Lower(k) in c.order ==> k in c.fields
  }

  /** One name has had its fate, the others are as they were. */
  ghost predicate ChangesOne(b: Block, fate: Fate, n: string, c: Block) {
    forall m :: ValueOf(c, m) == if m == n then Effect(fate, ValueOf(b, m)) else ValueOf(b, m)
  }

  /** Every name of a list has had its fate, the others are as they were. */
  ghost predicate ChangesAll(b: Block, names: seq<string>, before: ByName, now: ByName, c: Block) {
    forall m :: ValueOf(c, m) ==
      if m in names then Effect(FateOf(before, now, m), ValueOf(b, m)) else ValueOf(b, m)
  }

  lemma DecidedIs(b: Block, fate: Fate, n: string)
    requires WellFormed(b) && Lower(n) == n
    ensures var c := Decided(b, fate, n);
            && WellFormed(c)
            && ChangesOne(b, fate, n, c)
            && c.order == match fate
                          case Untouched => b.order
                          case Gone => Filter(b.order, n)
                          case Replaced(_) => if n in b.order then b.order else b.order + [n]
  {
    hide WellFormed, ValueOf;
    if fate.Gone? {
      DeletedIs(b, n);
    } else if fate.Replaced? {
      SetIs(b, n, fate.values);
    }
  }

  lemma DecidedKeepsSpellings(a: Block, b: Block, fate: Fate, n: string)
    requires WellFormed(b) && Lower(n) == n && KeepsSpellings(a, b)
    requires n in b.order || !fate.Replaced? || forall k <- a.fields :: Lower(k) != n
    ensures KeepsSpellings(a, Decided(b, fate, n))
  {
    if fate.Replaced? {
      SetIsWellFormed(b, n, fate.values);
    } else if fate.Gone? {
      FilterIs(b.order, n);
    }
  }

  /** What the decisions on some names make of a block. */
  ghost predicate IsDecided(b: Block, names: seq<string>, before: ByName, now: ByName, c: Block) {
    && WellFormed(c) && KeepsSpellings(b, c)
    && c.order == Survivors(b.order, names, before, now) + Added(b.order, names, before, now)
    && ChangesAll(b, names, before, now, c)
  }

  lemma NothingDecided(b: Block, before: ByName, now: ByName)
    requires WellFormed(b)
    ensures IsDecided(b, [], before, now, b)
  {
    hide WellFormed, ValueOf, FateOf;
    SurvivorsSnoc(b.order, [], "", before, now);
    assert b.order + [] == b.order;
  }

  lemma ValuesDecided(b: Block, c: Block, d: Block, front: seq<string>, n: string, before: ByName, now: ByName)
    requires n !in front && ChangesAll(b, front, before, now, c)
    requires ChangesOne(c, FateOf(before, now, n), n, d)
    ensures ChangesAll(b, front + [n], before, now, d)
  {
    hide ValueOf, FateOf, Effect;
    forall m
      ensures ValueOf(d, m) ==
              if m in front + [n] then Effect(FateOf(before, now, m), ValueOf(b, m)) else ValueOf(b, m)
    {
      assert m in front + [n] <==> m in front || m == n;
      assert n !in front;
    }
  }

  lemma OneMoreDecided(b: Block, c: Block, front: seq<string>, n: string, before: ByName, now: ByName)
    requires WellFormed(b) && Lower(n) == n && n !in front && IsDecided(b, front, before, now, c)
    ensures IsDecided(b, front + [n], before, now, Decided(c, FateOf(before, now, n), n))
  {
    hide WellFormed, ChangesAll, ChangesOne, Survivors, Added, Filter, FateOf, KeepsSpellings, Decided, Lower;
    var d := Decided(c, FateOf(before, now, n), n);
    WellFormedBasics(b);
    DecidedIs(c, FateOf(before, now, n), n);
    OrderSnoc(b.order, front, n, before, now);
    SpellingsStay(b, c, FateOf(before, now, n), n);
    ValuesDecided(b, c, d, front, n, before, now);
  }

  lemma SpellingsStay(b: Block, c: Block, fate: Fate, n: string)
    requires WellFormed(c) && Lower(n) == n && KeepsSpellings(b, c)
    requires forall k <- b.fields :: Lower(k) in b.order
    requires n in c.order || !(n in b.order)
    ensures KeepsSpellings(b, Decided(c, fate, n))
  {
    hide WellFormed, KeepsSpellings, Decided;
    if n !in c.order {
      assert forall k <- b.fields :: Lower(k) != n;
    }
    DecidedKeepsSpellings(b, c, fate, n);
  }

  lemma {:induction false} DecidedAllIs(b: Block, names: seq<string>, before: ByName, now: ByName)
    requires WellFormed(b) && HeaderLaws.Distinct(names) && forall n <- names :: Lower(n) == n
    ensures IsDecided(b, names, before, now, DecidedAll(b, names, before, now))
  {
    hide WellFormed, IsDecided, DecidedAll, Decided, FateOf, Lower;
    DecidedSnoc(b, [], "", before, now);
    if names == [] {
      NothingDecided(b, before, now);
    } else {
      var front, n := names[..|names| - 1], names[|names| - 1];
      assert names == front + [n];
      assert HeaderLaws.Distinct(front) && n !in front;
      DecidedAllIs(b, front, before, now);
      DecidedSnoc(b, front, n, before, now);
      OneMoreDecided(b, DecidedAll(b, front, before, now), front, n, before, now);
    }
  }

  /** A name that was added has its canonical spelling. */
  ghost predicate SpellsAdded(b: Block, c: Block) {
    forall n <- c.order :: n !in b.order ==> Canonical(n) in c.fields
  }

  lemma LowerNames(c: Block, m: string)
    requires WellFormed(c) && m in c.order
    ensures Lower(m) == m && Lower(Canonical(m)) == m
  {
    var k :| k in c.fields && Lower(k) == m;
    LowerLower(k);
    CanonicalIsASpelling(m);
  }

  lemma DeletedSpellsAdded(b: Block, c: Block, n: string)
    requires WellFormed(c) && SpellsAdded(b, c)
    ensures SpellsAdded(b, Deleted(c, n))
  {
    hide WellFormed, Lower, Canonical, Filter;
    FilterIs(c.order, n);
    var d := Deleted(c, n);
    forall m | m in d.order && m !in b.order
      ensures Canonical(m) in d.fields
    {
      LowerNames(c, m);
    }
  }

  lemma SetSpellsAdded(b: Block, c: Block, n: string, values: Values)
    requires WellFormed(c) && SpellsAdded(b, c) && Lower(n) == n
    ensures SpellsAdded(b, SetTo(c, n, values))
  {
    hide WellFormed, Lower, Canonical, SetTo;
    NoSpelling(c, n);
    if k :| k in c.fields && Lower(k) == n {
      SetExisting(c, k, values);
    } else {
      SetMissing(c, n, values);
    }
  }

  lemma {:induction false} DecidedAllSpellsAdded(b: Block, names: seq<string>, before: ByName, now: ByName)
    requires WellFormed(b) && HeaderLaws.Distinct(names) && forall n <- names :: Lower(n) == n
    ensures SpellsAdded(b, DecidedAll(b, names, before, now))
  {
    DecidedSnoc(b, [], "", before, now);
    hide WellFormed, DecidedAll, FateOf, Lower, Deleted, SetTo;
    if names != [] {
      var front, n := names[..|names| - 1], names[|names| - 1];
      assert names == front + [n];
      assert HeaderLaws.Distinct(front);
      DecidedAllSpellsAdded(b, front, before, now);
      DecidedAllIs(b, front, before, now);
      DecidedSnoc(b, front, n, before, now);
      var c := DecidedAll(b, front, before, now);
      hide SpellsAdded;
      match FateOf(before, now, n) {
        case Untouched =>
        case Gone => DeletedSpellsAdded(b, c, n);
        case Replaced(values) => SetSpellsAdded(b, c, n, values);
      }
    }
  }

  lemma OrderSnoc(order: seq<string>, front: seq<string>, n: string, before: ByName, now: ByName)
    requires n !in front
    ensures var was := Survivors(order, front, before, now) + Added(order, front, before, now);
            && (n in was <==> n in order)
            && Survivors(order, front + [n], before, now) + Added(order, front + [n], before, now) ==
               match FateOf(before, now, n)
               case Untouched => was
               case Gone => Filter(was, n)
               case Replaced(_) => if n in was then was else was + [n]
  {
    hide Survivors, Added, Filter, FateOf;
    SurvivorsSnoc(order, front, n, before, now);
    SurvivorsAre(order, front, before, now);
    AddedSnoc(order, front, n, before, now);
    AddedAreNames(order, front, before, now);
    FilterConcat(Survivors(order, front, before, now), Added(order, front, before, now), n);
  }

  // ---------------------------------------------------------------------------------------------
  // The loops.

  ghost predicate Enumerates(names: seq<string>, m: ByName) {
    && HeaderLaws.Distinct(names)
    && (forall n :: n in names <==> n in m)
    && Sorted(StringLe, names)
  }

  method SortedNames(m: ByName) returns (names: seq<string>)
    ensures Enumerates(names, m)
  {
    var left := m.Keys;
    var found: seq<string> := [];
    while left != {}
      invariant forall n :: n in m <==> n in found || n in left
      invariant forall n :: n in found ==> n !in left
      invariant HeaderLaws.Distinct(found)
      decreases left
    {
      var n :| n in left;
      left := left - {n};
      found := found + [n];
    }
    names := Sort(StringLe, found);
    StringLeIsTotal();
    SortSorts(StringLe, found);
    SameElements(found, names);
  }

  lemma {:induction false} OnceEach(names: seq<string>, n: string)
    requires HeaderLaws.Distinct(names)
    ensures multiset(names)[n] <= 1
  {
    if names != [] {
      assert names == [names[0]] + names[1..];
      OnceEach(names[1..], n);
      if names[0] == n {
        assert n !in names[1..];
      }
    }
  }

  lemma OnceOnly(a: seq<string>, b: seq<string>, i: int, j: int)
    requires HeaderLaws.Distinct(a) && multiset(a) == multiset(b) && 0 <= i < j < |b|
    ensures b[i] != b[j]
  {
    OnceEach(a, b[i]);
    assert b == b[..j] + [b[j]] + b[j + 1..];
    assert b[..j] == b[..i] + [b[i]] + b[i + 1..j];
    assert multiset(b)[b[i]] <= 1;
    assert multiset(b[..j])[b[i]] >= 1;
    assert multiset(b) == multiset(b[..j]) + multiset{b[j]} + multiset(b[j + 1..]);
  }

  lemma SameElements(a: seq<string>, b: seq<string>)
    requires HeaderLaws.Distinct(a) && multiset(a) == multiset(b)
    ensures HeaderLaws.Distinct(b) && forall n :: n in b <==> n in a
  {
    forall n
      ensures n in b <==> n in a
    {
      assert n in a <==> n in multiset(a);
      assert n in b <==> n in multiset(b);
    }
    forall i, j | 0 <= i < j < |b|
      ensures b[i] != b[j]
    {
      OnceOnly(a, b, i, j);
    }
  }

  lemma {:induction false} NewAre(names: seq<string>, before: ByName)
    ensures forall m :: m in New(names, before) <==> m in names && m !in before && m != "host"
    ensures HeaderLaws.Distinct(names) ==> HeaderLaws.Distinct(New(names, before))
  {
    if names != [] {
      var front, n := names[..|names| - 1], names[|names| - 1];
      assert names == front + [n];
      NewAre(front, before);
      NewSnoc(front, n, before);
      hide New;
      assert HeaderLaws.Distinct(names) ==> HeaderLaws.Distinct(front) && n !in front;
    }
  }

  lemma LastIsGreatest(front: seq<string>, n: string, m: string)
    requires Sorted(StringLe, front + [n]) && m in front
    ensures StringLe(m, n)
  {
    var i :| 0 <= i < |front| && front[i] == m;
    assert (front + [n])[i] == m && (front + [n])[|front|] == n;
  }

  lemma FrontIsSorted(front: seq<string>, n: string)
    requires Sorted(StringLe, front + [n])
    ensures Sorted(StringLe, front)
  {
    assert forall i :: 0 <= i < |front| ==> (front + [n])[i] == front[i];
  }

  lemma {:induction false} NewIsSorted(names: seq<string>, before: ByName)
    requires Sorted(StringLe, names)
    ensures Sorted(StringLe, New(names, before))
  {
    if names != [] {
      var front, n := names[..|names| - 1], names[|names| - 1];
      assert names == front + [n];
      FrontIsSorted(front, n);
      NewIsSorted(front, before);
      NewSnoc(front, n, before);
      NewAre(front, before);
      hide New, StringLe;
      forall m | m in New(front, before)
        ensures StringLe(m, n)
      {
        LastIsGreatest(front, n, m);
      }
    }
  }

  ghost predicate AllLower(m: ByName) {
    forall n <- m :: Lower(n) == n
  }

  /** The first loop: what became of the names the first hop had. */
  method ApplyKnown(block: HeaderBlock, names: seq<string>, before: ByName, now: ByName)
    requires WellFormed(block.Model()) && Enumerates(names, before) && AllLower(before)
    modifies block
    ensures block.Model() == DecidedAll(old(block.Model()), names, before, now)
  {
    hide WellFormed, DecidedAll, SetTo, Deleted, Lower, Sorted, HeaderLaws.Distinct;
    ghost var start := block.Model();
    DecidedSnoc(start, [], "", before, now);
    assert names[..0] == [];
    for i := 0 to |names|
      invariant block.Model() == DecidedAll(start, names[..i], before, now)
      invariant WellFormed(block.Model())
    {
      var name := names[i];
      assert names[..i + 1] == names[..i] + [name];
      DecidedSnoc(start, names[..i], name, before, now);
      DecidedIs(block.Model(), FateOf(before, now, name), name);
      if name == "host" {
        continue;
      }
      if name !in now {
        block.DeleteHeader(name);
        continue;
      }
      if now[name] != before[name] {
        block.SetHeader(name, now[name]);
      }
    }
    assert names[..|names|] == names;
  }

  /** The second loop: the names the redirect brought. */
  method ApplyNew(block: HeaderBlock, names: seq<string>, before: ByName, now: ByName)
    requires WellFormed(block.Model()) && Enumerates(names, now) && AllLower(now)
    modifies block
    ensures block.Model() == DecidedAll(old(block.Model()), New(names, before), before, now)
  {
    hide WellFormed, DecidedAll, SetTo, Deleted, Lower, Sorted, HeaderLaws.Distinct, New;
    ghost var start := block.Model();
    DecidedSnoc(start, [], "", before, now);
    NewSnoc([], "", before);
    assert names[..0] == [];
    for i := 0 to |names|
      invariant block.Model() == DecidedAll(start, New(names[..i], before), before, now)
      invariant WellFormed(block.Model())
    {
      var name := names[i];
      assert names[..i + 1] == names[..i] + [name];
      NewSnoc(names[..i], name, before);
      assert New(names[..i], before) + [] == New(names[..i], before);
      if name == "host" {
        continue;
      }
      DecidedSnoc(start, New(names[..i], before), name, before, now);
      DecidedIs(block.Model(), FateOf(before, now, name), name);
      if name !in before {
        block.SetHeader(name, now[name]);
      }
    }
    assert names[..|names|] == names;
  }

  // ---------------------------------------------------------------------------------------------
  // What the next hop is sent.

  /** Under each name the hop sends what the redirect decided, with exactly one Host. */
  ghost predicate SendsWhatWasDecided(http1: Block, before: ByName, now: ByName, host: string, out: Block) {
    forall n :: ValueOf(out, n) ==
      if n == "host" then Some([host])
      else if n in now && (n !in before || before[n] != now[n]) then Some(now[n])
      else if n in before && n !in now then None
      else ValueOf(http1, n)
  }

  /** The measured order is kept; what had to be added follows in sorted groups: changed, brought, Host. */
  ghost predicate KeepsTheOrder(http1: Block, before: ByName, now: ByName, out: Block,
                                kept: seq<string>, changed: seq<string>, brought: seq<string>) {
    && out.order == kept + changed + brought + (if "host" in http1.order then [] else ["host"])
    && kept == Survivors(http1.order, http1.order, before, now)
    && Sorted(StringLe, changed) && Sorted(StringLe, brought)
    && (forall n <- changed :: n in before) && (forall n <- brought :: n !in before)
  }

  lemma {:induction false} DecidedConcat(b: Block, x: seq<string>, y: seq<string>, before: ByName, now: ByName)
    ensures DecidedAll(DecidedAll(b, x, before, now), y, before, now) == DecidedAll(b, x + y, before, now)
  {
    if y == [] {
      assert x + y == x;
    } else {
      var front, n := y[..|y| - 1], y[|y| - 1];
      assert y == front + [n] && x + y == (x + front) + [n];
      DecidedConcat(b, x, front, before, now);
      DecidedSnoc(b, x + front, n, before, now);
      DecidedSnoc(DecidedAll(b, x, before, now), front, n, before, now);
    }
  }

  lemma {:induction false} AddedConcat(order: seq<string>, x: seq<string>, y: seq<string>,
                                       before: ByName, now: ByName)
    ensures Added(order, x + y, before, now) == Added(order, x, before, now) + Added(order, y, before, now)
  {
    if y == [] {
      assert x + y == x;
    } else {
      var front, n := y[..|y| - 1], y[|y| - 1];
      assert y == front + [n] && x + y == (x + front) + [n];
      AddedConcat(order, x, front, before, now);
      AddedSnoc(order, x + front, n, before, now);
      AddedSnoc(order, front, n, before, now);
    }
  }

  /** Only names that were known can be dropped, so it does not matter which longer list is asked. */
  lemma {:induction false} SurvivorsOf(order: seq<string>, some: seq<string>, all: seq<string>,
                                       before: ByName, now: ByName)
    requires forall n <- order :: FateOf(before, now, n).Gone? ==> (n in some <==> n in all)
    ensures Survivors(order, some, before, now) == Survivors(order, all, before, now)
  {
    if order != [] {
      assert order == order[..|order| - 1] + [order[|order| - 1]];
      SurvivorsOf(order[..|order| - 1], some, all, before, now);
    }
  }

  lemma TheNames(b: seq<string>, n: seq<string>, before: ByName, now: ByName)
    requires Enumerates(b, before) && Enumerates(n, now) && AllLower(before) && AllLower(now)
    ensures HeaderLaws.Distinct(b + New(n, before))
    ensures forall m <- b + New(n, before) :: Lower(m) == m
    ensures forall m :: m in b + New(n, before) <==> m in before || (m in now && m != "host")
  {
    hide Sorted, Lower;
    NewAre(n, before);
    var c := New(n, before);
    forall i, j | 0 <= i < j < |b + c|
      ensures (b + c)[i] != (b + c)[j]
    {
      assert (b + c)[i] in b || i >= |b|;
      assert (b + c)[j] in c || j < |b|;
    }
    assert forall m <- b + c :: m in b || m in c;
  }

  lemma HostIsUntouched(before: ByName, now: ByName)
    ensures FateOf(before, now, "host").Untouched?
  {
  }

  lemma WellFormedBasics(b: Block)
    requires WellFormed(b)
    ensures forall k <- b.fields :: Lower(k) in b.order
    ensures Lower("host") == "host"
  {
    assert Lower("host") == "host";
  }

  lemma HostIsPlaced(order: seq<string>, names: seq<string>, before: ByName, now: ByName)
    ensures "host" in Survivors(order, names, before, now) + Added(order, names, before, now) <==> "host" in order
  {
    HostIsUntouched(before, now);
    SurvivorsAre(order, names, before, now);
    AddedAreNames(order, names, before, now);
  }

  lemma RedirectValues(http1: Block, before: ByName, now: ByName, host: string, names: seq<string>)
    requires WellFormed(http1) && HeaderLaws.Distinct(names) && forall m <- names :: Lower(m) == m
    requires forall m :: m in names <==> m in before || (m in now && m != "host")
    ensures var out := SetTo(DecidedAll(http1, names, before, now), "host", [host]);
            && WellFormed(out) && KeepsSpellings(http1, out)
            && SendsWhatWasDecided(http1, before, now, host, out)
            && out.order == Survivors(http1.order, names, before, now) + Added(http1.order, names, before, now) +
                            if "host" in http1.order then [] else ["host"]
  {
    hide WellFormed, DecidedAll, Survivors, Added, SetTo, Lower, KeepsSpellings, HeaderLaws.Distinct, ChangesAll,
         ChangesOne, SendsWhatWasDecided, FateOf;
    DecidedAllIs(http1, names, before, now);
    var c := DecidedAll(http1, names, before, now);
    WellFormedBasics(http1);
    HostIsPlaced(http1.order, names, before, now);
    DecidedIs(c, Replaced([host]), "host");
    SpellingsStay(http1, c, Replaced([host]), "host");
    SendsBoth(http1, before, now, host, names, c, SetTo(c, "host", [host]));
  }

  lemma SendsBoth(http1: Block, before: ByName, now: ByName, host: string, names: seq<string>, c: Block, out: Block)
    requires forall m :: m in names <==> m in before || (m in now && m != "host")
    requires ChangesAll(http1, names, before, now, c) && ChangesOne(c, Replaced([host]), "host", out)
    ensures SendsWhatWasDecided(http1, before, now, host, out)
  {
    hide ValueOf;
  }

  /** The redirected block, name by name and place by place. */
  lemma RedirectIs(http1: Block, before: ByName, now: ByName, host: string, b: seq<string>, n: seq<string>,
                   out: Block)
    requires WellFormed(http1) && AllLower(before) && AllLower(now)
    requires Enumerates(b, before) && Enumerates(n, now)
    requires out == SetTo(DecidedAll(DecidedAll(http1, b, before, now), New(n, before), before, now),
                          "host", [host])
    ensures WellFormed(out) && KeepsSpellings(http1, out) && SpellsAdded(http1, out)
    ensures SendsWhatWasDecided(http1, before, now, host, out)
    ensures KeepsTheOrder(http1, before, now, out, Survivors(http1.order, http1.order, before, now),
                          Added(http1.order, b, before, now), Added(http1.order, New(n, before), before, now))
  {
    hide WellFormed, ValueOf, DecidedAll, Survivors, Added, Filter, SetTo, New, Lower, KeepsSpellings,
         SendsWhatWasDecided, AllLower, Sorted, SpellsAdded;
    var names := b + New(n, before);
    TheNames(b, n, before, now);
    DecidedConcat(http1, b, New(n, before), before, now);
    RedirectValues(http1, before, now, host, names);
    DecidedAllSpellsAdded(http1, names, before, now);
    DecidedAllIs(http1, names, before, now);
    WellFormedBasics(http1);
    SetSpellsAdded(http1, DecidedAll(http1, names, before, now), "host", [host]);
    AddedConcat(http1.order, b, New(n, before), before, now);
    SurvivorsOf(http1.order, names, http1.order, before, now);
    NewAre(n, before);
    NewIsSorted(n, before);
    AddedAreNames(http1.order, b, before, now);
    AddedAreNames(http1.order, New(n, before), before, now);
    Regroup(Survivors(http1.order, names, before, now), Added(http1.order, b, before, now),
            Added(http1.order, New(n, before), before, now), if "host" in http1.order then [] else ["host"]);
  }

  lemma Regroup<T>(a: seq<T>, b: seq<T>, c: seq<T>, d: seq<T>)
    ensures a + (b + c) + d == a + b + c + d
  {
  }

  method RedirectHTTP1Layout(http1: Block, before: ByName, now: ByName, host: string) returns (out: Block)
    requires WellFormed(http1) && AllLower(before) && AllLower(now)
    ensures WellFormed(out) && KeepsSpellings(http1, out) && SpellsAdded(http1, out)
    ensures SendsWhatWasDecided(http1, before, now, host, out)
    ensures exists kept, changed, brought :: KeepsTheOrder(http1, before, now, out, kept, changed, brought)
  {
    hide WellFormed, DecidedAll, SetTo, Deleted, Lower, Enumerates, New, AllLower, SendsWhatWasDecided,
         KeepsTheOrder, Survivors, Added, KeepsSpellings, SpellsAdded;
    var block := new HeaderBlock.CloneOf(http1);
    var beforeNames := SortedNames(before);
    ApplyKnown(block, beforeNames, before, now);
    WellFormedAfter(http1, beforeNames, before, now);
    var nowNames := SortedNames(now);
    ApplyNew(block, nowNames, before, now);
    WellFormedAfterBoth(http1, beforeNames, nowNames, before, now);
    block.SetHeader("host", [host]);
    out := block.Model();
    RedirectIs(http1, before, now, host, beforeNames, nowNames, out);
  }

  lemma WellFormedAfter(http1: Block, b: seq<string>, before: ByName, now: ByName)
    requires WellFormed(http1) && AllLower(before) && Enumerates(b, before)
    ensures WellFormed(DecidedAll(http1, b, before, now))
  {
    DecidedAllIs(http1, b, before, now);
  }

  lemma WellFormedAfterBoth(http1: Block, b: seq<string>, n: seq<string>, before: ByName, now: ByName)
    requires WellFormed(http1) && AllLower(before) && AllLower(now) && Enumerates(b, before) && Enumerates(n, now)
    ensures WellFormed(DecidedAll(DecidedAll(http1, b, before, now), New(n, before), before, now))
  {
    hide WellFormed;
    TheNames(b, n, before, now);
    DecidedConcat(http1, b, New(n, before), before, now);
    DecidedAllIs(http1, b + New(n, before), before, now);
  }

  // ---------------------------------------------------------------------------------------------
  // Putting a layout on a connection that turned out to be HTTP/1.1.

  function Applied(target: Block, layout: Block, managed: set<string>): Block {
    Block(map k | k in target.fields.Keys + layout.fields.Keys && (k in layout.fields || Lower(k) !in managed) ::
            if k in layout.fields then layout.fields[k] else target.fields[k],
          layout.order)
  }

  function ManagedNames(a: Block, b: Block): set<string> {
    set k | k in a.fields.Keys + b.fields.Keys :: Lower(k)
  }

  method ApplyHeaderLayout(target: Block, layout: Block, managed: set<string>) returns (out: Block)
    ensures out == Applied(target, layout, managed)
  {
    var fields := map k | k in target.fields && Lower(k) !in managed :: target.fields[k];
    fields := fields + layout.fields;
    out := Block(fields, layout.order);
  }

  /** The block that goes out is the layout, exactly, plus whatever the transport has added since under names
      that were in neither the request nor the layout. */
  lemma OnlyTheLayoutGoesOut(request: Block, added: map<string, Values>, layout: Block)
    requires added.Keys !! request.fields.Keys
    requires forall k <- added :: Lower(k) !in ManagedNames(request, layout)
    ensures var sent := Applied(Block(request.fields + added, request.order), layout, ManagedNames(request, layout));
            && sent.fields == layout.fields + added
            && sent.order == layout.order
  {
    var managed := ManagedNames(request, layout);
    var sent := Applied(Block(request.fields + added, request.order), layout, managed);
    forall k | k in request.fields || k in layout.fields
      ensures Lower(k) in managed
    {
    }
    assert sent.fields.Keys == layout.fields.Keys + added.Keys;
  }

  // ---------------------------------------------------------------------------------------------
  // Several redirects.

  /** What travels with a request: its HTTP/1.1 block, and its headers as they were before it was sent. */
  datatype Layouts = Layouts(http1: Block, baseline: ByName)

  /** What the transport has decided about one hop. It copies headers from the first request, and an own Host
      only when the caller's is to be kept; the context, and so the layouts, are those of the first request. */
  datatype Hop = Hop(now: ByName, url: string, kept: string)

  function HostOfHop(hop: Hop): string {
    if hop.kept != "" then hop.kept else hop.url
  }

  ghost predicate Redirected(first: Layouts, hop: Hop, out: Block) {
    && WellFormed(out) && KeepsSpellings(first.http1, out) && SpellsAdded(first.http1, out)
    && SendsWhatWasDecided(first.http1, first.baseline, hop.now, HostOfHop(hop), out)
    && exists kept, changed, brought ::
         KeepsTheOrder(first.http1, first.baseline, hop.now, out, kept, changed, brought)
  }

  /** Prepares one hop from the layouts of the first request. What it leaves with the new request is for that
      request's own connection; the next hop does not start from it. */
  method PrepareRedirectLayout(first: Layouts, hop: Hop) returns (redirect: Layouts)
    requires WellFormed(first.http1) && AllLower(first.baseline) && AllLower(hop.now)
    ensures Redirected(first, hop, redirect.http1) && redirect.baseline == hop.now
  {
    hide WellFormed, KeepsSpellings, SpellsAdded, SendsWhatWasDecided, KeepsTheOrder, AllLower;
    var host := hop.url;
    if hop.kept != "" {
      host := hop.kept;
    }
    var http1 := RedirectHTTP1Layout(first.http1, first.baseline, hop.now, host);
    redirect := Layouts(http1, hop.now);
  }

  /** The blocks of a chain of redirects: every hop is decided against the first request. */
  ghost predicate Chain(first: Layouts, hops: seq<Hop>, blocks: seq<Block>) {
    && |blocks| == |hops|
    && forall k :: 0 <= k < |hops| ==> Redirected(first, hops[k], blocks[k])
  }

  /** Any hop of any chain, name by name: Host is the hop's; what the hop brought or changed goes out as the
      hop has it; what it withholds does not go out; and what it carries unchanged, or never knew, goes out as
      measured, whatever other hops did with it. */
  lemma HopSends(first: Layouts, hops: seq<Hop>, blocks: seq<Block>, k: nat, n: string)
    requires Chain(first, hops, blocks) && k < |hops|
    ensures var before, now, sent := first.baseline, hops[k].now, ValueOf(blocks[k], n);
            && (n == "host" ==> sent == Some([HostOfHop(hops[k])]))
            && (n != "host" && n in now && (n !in before || before[n] != now[n]) ==> sent == Some(now[n]))
            && (n != "host" && n in before && n !in now ==> sent == None)
            && (n != "host" && n in before && n in now && before[n] == now[n] ==> sent == ValueOf(first.http1, n))
            && (n != "host" && n !in before && n !in now ==> sent == ValueOf(first.http1, n))
  {
    hide WellFormed, ValueOf, KeepsSpellings, KeepsTheOrder;
    assert Redirected(first, hops[k], blocks[k]);
  }

  /** The kept Host where there is one, and the target's where there is none. */
  lemma WhoseHostAHopSends(first: Layouts, hops: seq<Hop>, blocks: seq<Block>, k: nat)
    requires Chain(first, hops, blocks) && k < |hops|
    ensures hops[k].kept != "" ==> ValueOf(blocks[k], "host") == Some([hops[k].kept])
    ensures hops[k].kept == "" ==> ValueOf(blocks[k], "host") == Some([hops[k].url])
  {
    hide ValueOf, Chain;
    HopSends(first, hops, blocks, k, "host");
  }

  /** What one hop withheld and a later one carries again as it was goes out as measured again, not as the
      other protocol has it. */
  lemma ReturnsAsMeasured(first: Layouts, hops: seq<Hop>, blocks: seq<Block>, j: nat, k: nat, n: string)
    requires Chain(first, hops, blocks) && j < k < |hops| && n != "host" && n in first.baseline
    requires n !in hops[j].now
    requires n in hops[k].now && hops[k].now[n] == first.baseline[n]
    ensures ValueOf(blocks[j], n) == None && ValueOf(blocks[k], n) == ValueOf(first.http1, n)
  {
    hide ValueOf, Chain;
    HopSends(first, hops, blocks, j, n);
    HopSends(first, hops, blocks, k, n);
  }

  /** A known name is withheld on exactly the hops that do not carry it, as long as it was measured. */
  lemma WithheldExactly(first: Layouts, hops: seq<Hop>, blocks: seq<Block>, k: nat, n: string)
    requires Chain(first, hops, blocks) && k < |hops| && n != "host" && n in first.baseline
    requires ValueOf(first.http1, n).Some?
    ensures ValueOf(blocks[k], n).None? <==> n !in hops[k].now
  {
    hide ValueOf, Chain;
    HopSends(first, hops, blocks, k, n);
  }

  /** Two hops that carry a name alike send it alike, whatever lies between them. */
  lemma HopsStandAlone(first: Layouts, hops: seq<Hop>, blocks: seq<Block>, j: nat, k: nat, n: string)
    requires Chain(first, hops, blocks) && j < |hops| && k < |hops| && n != "host"
    requires n in hops[j].now <==> n in hops[k].now
    requires n in hops[j].now ==> hops[j].now[n] == hops[k].now[n]
    ensures ValueOf(blocks[j], n) == ValueOf(blocks[k], n)
  {
    hide ValueOf, Chain;
    HopSends(first, hops, blocks, j, n);
    HopSends(first, hops, blocks, k, n);
  }

  /** `m` stands before `n`. */
  ghost predicate Precedes(order: seq<string>, m: string, n: string) {
    exists i, j :: 0 <= i < j < |order| && order[i] == m && order[j] == n
  }

  lemma PrecedesInFront(front: seq<string>, back: seq<string>, m: string, n: string)
    requires Precedes(front, m, n)
    ensures Precedes(front + back, m, n)
  {
    var i, j :| 0 <= i < j < |front| && front[i] == m && front[j] == n;
    assert (front + back)[i] == m && (front + back)[j] == n;
  }

  lemma PrecedesLast(front: seq<string>, m: string, n: string)
    requires m in front
    ensures Precedes(front + [n], m, n)
  {
    var i :| 0 <= i < |front| && front[i] == m;
    assert (front + [n])[i] == m && (front + [n])[|front|] == n;
  }

  lemma {:induction false} SurvivorsInOrder(order: seq<string>, names: seq<string>, before: ByName, now: ByName,
                                            m: string, n: string)
    requires Precedes(order, m, n)
    requires !(m in names && FateOf(before, now, m).Gone?) && !(n in names && FateOf(before, now, n).Gone?)
    ensures Precedes(Survivors(order, names, before, now), m, n)
  {
    hide Survivors, FateOf;
    var i, j :| 0 <= i < j < |order| && order[i] == m && order[j] == n;
    var front, last := order[..|order| - 1], order[|order| - 1];
    assert order == front + [last];
    SurvivorsStep(front, last, names, before, now);
    var kept := Survivors(front, names, before, now);
    if j < |front| {
      assert front[i] == m && front[j] == n;
      SurvivorsInOrder(front, names, before, now, m, n);
      PrecedesInFront(kept, if last in names && FateOf(before, now, last).Gone? then [] else [last], m, n);
    } else {
      assert front[i] == m;
      SurvivorsAre(front, names, before, now);
      PrecedesLast(kept, m, n);
    }
  }

  lemma KeptInOrder(first: Layouts, hop: Hop, out: Block, m: string, n: string)
    requires Redirected(first, hop, out) && Precedes(first.http1.order, m, n)
    requires !FateOf(first.baseline, hop.now, m).Gone? && !FateOf(first.baseline, hop.now, n).Gone?
    ensures Precedes(out.order, m, n)
  {
    hide Survivors, FateOf, Precedes, WellFormed, KeepsSpellings, SendsWhatWasDecided;
    var kept, changed, brought :|
      KeepsTheOrder(first.http1, first.baseline, hop.now, out, kept, changed, brought);
    SurvivorsInOrder(first.http1.order, first.http1.order, first.baseline, hop.now, m, n);
    var back := changed + brought + (if "host" in first.http1.order then [] else ["host"]);
    assert out.order == kept + back;
    PrecedesInFront(kept, back, m, n);
  }

  ghost predicate Stays(first: Layouts, hop: Hop, n: string) {
    n in first.http1.order && !FateOf(first.baseline, hop.now, n).Gone?
  }

  /** The names a hop has not withheld stand in the order of the first block. */
  ghost predicate InMeasuredOrder(first: Layouts, hop: Hop, out: Block) {
    forall m, n :: Stays(first, hop, m) && Stays(first, hop, n) && Precedes(first.http1.order, m, n) ==>
                     Precedes(out.order, m, n)
  }

  /** On every hop the names it has not withheld keep the order and the spelling of the first block; a name that
      was added has its canonical spelling. */
  lemma HopKeepsTheMeasuredForm(first: Layouts, hops: seq<Hop>, blocks: seq<Block>, k: nat)
    requires Chain(first, hops, blocks) && k < |hops|
    ensures WellFormed(blocks[k]) && KeepsSpellings(first.http1, blocks[k]) && SpellsAdded(first.http1, blocks[k])
    ensures InMeasuredOrder(first, hops[k], blocks[k])
  {
    assert Redirected(first, hops[k], blocks[k]);
    hide WellFormed, KeepsSpellings, SendsWhatWasDecided, KeepsTheOrder, FateOf, Precedes;
    forall m, n | Stays(first, hops[k], m) && Stays(first, hops[k], n) && Precedes(first.http1.order, m, n)
      ensures Precedes(blocks[k].order, m, n)
    {
      KeptInOrder(first, hops[k], blocks[k], m, n);
    }
  }
}
