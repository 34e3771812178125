/** What layering header lists means, name by name, and the laws that let layers be grouped freely. */
module HeaderLaws {
  import opened Text
  import opened Headers

  // ---------------------------------------------------------------------------------------------
  // Concatenation.

  lemma {:induction false} ValuesConcat(x: Header, y: Header, n: string)
    ensures Values(x + y, n) == Values(x, n) + Values(y, n)
    ensures Has(x + y, n) <==> Has(x, n) || Has(y, n)
  {
    hide Values, Has;
    Empty();
    if y == [] {
      assert x + y == x;
    } else {
      var front, f := y[..|y| - 1], y[|y| - 1];
      Last(y);
      ValuesConcat(x, front, n);
      assert x + y == (x + front) + [f];
      ValuesSnoc(x + front, f);
      ValuesSnoc(front, f);
      HasSnoc(x + front, f);
      HasSnoc(front, f);
    }
  }

  lemma {:induction false} WithoutConcat(a: seq<string>, b: seq<string>, h: Header)
    ensures Without(a + b, h) == Without(a, h) + Without(b, h)
  {
    hide Without, Has;
    Empty();
    if b == [] {
      assert a + b == a;
    } else {
      var front, n := b[..|b| - 1], b[|b| - 1];
      assert b == front + [n] && a + b == (a + front) + [n];
      WithoutConcat(a, front, h);
      WithoutSnoc(a + front, n, h);
      WithoutSnoc(front, n, h);
    }
  }

  lemma {:induction false} BlocksConcat(o: Header, a: seq<string>, b: seq<string>)
    ensures Blocks(o, a + b) == Blocks(o, a) + Blocks(o, b)
  {
    hide Blocks, Block;
    Empty();
    if b == [] {
      assert a + b == a;
    } else {
      var front, n := b[..|b| - 1], b[|b| - 1];
      assert b == front + [n] && a + b == (a + front) + [n];
      BlocksConcat(o, a, front);
      BlocksSnoc(o, a + front, n);
      BlocksSnoc(o, front, n);
    }
  }

  // ---------------------------------------------------------------------------------------------
  // Names.

  ghost predicate Distinct(names: seq<string>) {
    forall i, j :: 0 <= i < j < |names| ==> names[i] != names[j]
  }

  lemma {:induction false} OrderHas(h: Header)
    ensures Distinct(Order(h))
    ensures forall n :: n in Order(h) <==> Has(h, n)
    ensures forall n <- Order(h) :: Lower(n) == n
  {
    if h != [] {
      OrderHas(h[..|h| - 1]);
      LowerLower(h[|h| - 1].name);
    }
  }

  lemma {:induction false} WithoutHas(names: seq<string>, h: Header)
    ensures forall n :: n in Without(names, h) <==> n in names && !Has(h, n)
    ensures Distinct(names) ==> Distinct(Without(names, h))
  {
    hide Has;
    if names != [] {
      WithoutHas(names[..|names| - 1], h);
      assert names == names[..|names| - 1] + [names[|names| - 1]];
    }
  }

  lemma {:induction false} WithoutSame(names: seq<string>, g: Header, h: Header)
    requires forall n <- names :: Has(g, n) <==> Has(h, n)
    ensures Without(names, g) == Without(names, h)
  {
    hide Has;
    if names != [] {
      WithoutSame(names[..|names| - 1], g, h);
    }
  }

  lemma {:induction false} WithoutTwice(names: seq<string>, g: Header, h: Header, both: Header)
    requires forall n :: Has(both, n) <==> Has(g, n) || Has(h, n)
    ensures Without(Without(names, g), h) == Without(names, both)
  {
    hide Has, Without;
    Empty();
    if names != [] {
      var front, n := names[..|names| - 1], names[|names| - 1];
      assert names == front + [n];
      WithoutTwice(front, g, h, both);
      WithoutSnoc(front, n, g);
      WithoutSnoc(front, n, both);
      WithoutSnoc(Without(front, g), n, h);
      assert Without(front, g) + [] == Without(front, g);
    }
  }

  lemma {:induction false} WithoutNothing(names: seq<string>, h: Header)
    requires forall n <- names :: !Has(h, n)
    ensures Without(names, h) == names
  {
    hide Has;
    if names != [] {
      WithoutNothing(names[..|names| - 1], h);
      assert names == names[..|names| - 1] + [names[|names| - 1]];
    }
  }

  lemma {:induction false} WithoutAll(names: seq<string>, h: Header)
    requires forall n <- names :: Has(h, n)
    ensures Without(names, h) == []
  {
    hide Has;
    if names != [] {
      WithoutAll(names[..|names| - 1], h);
    }
  }

  lemma {:induction false} OrderConcat(x: Header, y: Header)
    ensures Order(x + y) == Order(x) + Without(Order(y), x)
  {
    hide Has, Order, Without;
    Empty();
    if y == [] {
      assert x + y == x;
    } else {
      var front, f := y[..|y| - 1], y[|y| - 1];
      Last(y);
      OrderConcat(x, front);
      assert x + y == (x + front) + [f];
      OrderSnoc(x + front, f);
      OrderSnoc(front, f);
      ValuesConcat(x, front, Key(f));
      WithoutSnoc(Order(front), Key(f), x);
      assert Order(front) + [] == Order(front);
    }
  }

  // ---------------------------------------------------------------------------------------------
  // Blocks.

  lemma {:induction false} SpellIs(n: string, values: seq<string>)
    requires Lower(n) == n
    ensures forall m :: Values(Spell(n, values), m) == if m == n then values else []
    ensures forall m :: Has(Spell(n, values), m) <==> m == n && values != []
    ensures Order(Spell(n, values)) == if values == [] then [] else [n]
    decreases |values|
  {
    hide Values, Has, Order;
    Empty();
    if values != [] {
      var front, f := values[..|values| - 1], Field(n, values[|values| - 1]);
      SpellIs(n, front);
      assert Spell(n, values) == Spell(n, front) + [f];
      HasSnoc(Spell(n, front), f);
      ValuesSnoc(Spell(n, front), f);
      OrderSnoc(Spell(n, front), f);
      assert values == front + [values[|values| - 1]];
    } else {
      assert Spell(n, values) == [];
    }
  }

  ghost predicate NamesOf(o: Header, names: seq<string>) {
    Distinct(names) && forall n <- names :: Has(o, n) && Lower(n) == n
  }

  lemma {:induction false} BlocksAre(o: Header, names: seq<string>)
    requires NamesOf(o, names)
    ensures forall n :: Has(Blocks(o, names), n) <==> n in names
    ensures forall n :: Values(Blocks(o, names), n) == if n in names then Values(o, n) else []
    ensures Order(Blocks(o, names)) == names
  {
    hide Values, Has, Order, Without, Spell;
    Empty();
    if names != [] {
      var front, last := names[..|names| - 1], names[|names| - 1];
      assert names == front + [last];
      BlocksAre(o, front);
      SpellIs(last, Values(o, last));
      NoBlock(o, last);
      forall n
        ensures Has(Blocks(o, names), n) <==> n in names
        ensures Values(Blocks(o, names), n) == if n in names then Values(o, n) else []
      {
        ValuesConcat(Blocks(o, front), Block(o, last), n);
      }
      OrderConcat(Blocks(o, front), Block(o, last));
      WithoutNothing([last], Blocks(o, front));
    }
  }

  lemma {:induction false} BlocksCongruent(o: Header, p: Header, names: seq<string>)
    requires forall n <- names :: Values(o, n) == Values(p, n)
    ensures Blocks(o, names) == Blocks(p, names)
  {
    hide Values;
    if names != [] {
      BlocksCongruent(o, p, names[..|names| - 1]);
    }
  }

  lemma NewNamesAre(h: Header, o: Header)
    ensures NamesOf(o, Without(Order(o), h))
  {
    hide Has, Order, Without;
    OrderHas(o);
    WithoutHas(Order(o), h);
  }

  // ---------------------------------------------------------------------------------------------
  // Overlay.

  lemma PieceIs(h: Header, f: Field, o: Header)
    ensures forall m :: Has(Piece(h, f, o), m) ==> m == Key(f)
    ensures !Has(h, Key(f)) ==> Has(Piece(h, f, o), Key(f)) && Order(Piece(h, f, o)) == [Key(f)]
    ensures Has(h, Key(f)) ==> forall n <- Order(Piece(h, f, o)) :: n == Key(f)
    ensures forall m :: Values(Piece(h, f, o), m) ==
                        if m != Key(f) then []
                        else if !Has(o, m) then [f.value] else if Has(h, m) then [] else Values(o, m)
  {
    hide Has, Values, Order, Spell;
    Empty();
    LowerLower(f.name);
    SpellIs(Key(f), Values(o, Key(f)));
    NoBlock(o, Key(f));
    assert [] + [f] == [f];
    HasSnoc([], f);
    ValuesSnoc([], f);
    OrderSnoc([], f);
  }

  lemma {:induction false} OverlayNames(h: Header, o: Header)
    ensures forall n :: Has(Overlay(h, o), n) <==> Has(h, n)
    ensures Order(Overlay(h, o)) == Order(h)
  {
    hide Has, Values, Order, Without, Overlay, Piece;
    Empty();
    if h != [] {
      var front, f := h[..|h| - 1], h[|h| - 1];
      Last(h);
      OverlayNames(front, o);
      OverlaySnoc(front, f, o);
      PieceIs(front, f, o);
      HasSnoc(front, f);
      OrderSnoc(front, f);
      var x, piece := Overlay(front, o), Piece(front, f, o);
      forall m
        ensures Has(x + piece, m) <==> Has(h, m)
      {
        ValuesConcat(x, piece, m);
      }
      OrderConcat(x, piece);
      if Has(front, Key(f)) {
        WithoutAll(Order(piece), x);
      } else {
        WithoutNothing(Order(piece), x);
      }
    }
  }

  lemma {:induction false} OverlayValues(h: Header, o: Header, n: string)
    ensures Values(Overlay(h, o), n) ==
            if !Has(o, n) then Values(h, n) else if Has(h, n) then Values(o, n) else []
  {
    hide Has, Values, Overlay, Piece;
    Empty();
    if h != [] {
      var front, f := h[..|h| - 1], h[|h| - 1];
      Last(h);
      OverlayValues(front, o, n);
      OverlaySnoc(front, f, o);
      PieceIs(front, f, o);
      HasSnoc(front, f);
      ValuesSnoc(front, f);
      ValuesConcat(Overlay(front, o), Piece(front, f, o), n);
    }
  }

  /** Per name, the overrides' values if it has any, else the base's. */
  lemma LayeredValues(h: Header, o: Header, n: string)
    ensures Values(Layered(h, o), n) == if Has(o, n) then Values(o, n) else Values(h, n)
    ensures Has(Layered(h, o), n) <==> Has(h, n) || Has(o, n)
  {
    hide Has, Values, Order, Without, Overlay, Blocks;
    OverlayValues(h, o, n);
    OverlayNames(h, o);
    NewNamesAre(h, o);
    BlocksAre(o, Without(Order(o), h));
    ValuesConcat(Overlay(h, o), NewNames(h, o, o), n);
    OrderHas(o);
    WithoutHas(Order(o), h);
    NoBlock(h, n);
  }

  /** The base's names keep their places; the others follow in the order of the overrides. */
  lemma LayeredOrder(h: Header, o: Header)
    ensures Order(Layered(h, o)) == Order(h) + Without(Order(o), h)
  {
    hide Has, Values, Order, Without, Overlay, Blocks;
    OverlayNames(h, o);
    NewNamesAre(h, o);
    BlocksAre(o, Without(Order(o), h));
    OrderConcat(Overlay(h, o), NewNames(h, o, o));
    WithoutHas(Order(o), h);
    WithoutNothing(Without(Order(o), h), Overlay(h, o));
  }

  // ---------------------------------------------------------------------------------------------
  // The laws.

  lemma {:induction false} OverlayConcat(x: Header, y: Header, c: Header)
    requires forall n :: !(Has(x, n) && Has(y, n))
    ensures Overlay(x + y, c) == Overlay(x, c) + Overlay(y, c)
    decreases |y|
  {
    hide Has, Overlay, Block;
    Empty();
    if y == [] {
      assert x + y == x;
    } else {
      var front, f := y[..|y| - 1], y[|y| - 1];
      Last(y);
      HasSnoc(front, f);
      assert x + y == (x + front) + [f];
      OverlayConcat(x, front, c);
      OverlaySnoc(x + front, f, c);
      OverlaySnoc(front, f, c);
      ValuesConcat(x, front, Key(f));
    }
  }

  lemma {:induction false} OverlayOneName(n: string, values: seq<string>, c: Header)
    requires Lower(n) == n && values != []
    ensures Overlay(Spell(n, values), c) == if Has(c, n) then Block(c, n) else Spell(n, values)
    decreases |values|
  {
    hide Has, Overlay, Order, Values;
    Empty();
    var front, f := values[..|values| - 1], Field(n, values[|values| - 1]);
    assert Spell(n, values) == Spell(n, front) + [f];
    OverlaySnoc(Spell(n, front), f, c);
    SpellIs(n, front);
    if front == [] {
      assert Spell(n, front) == [];
    } else {
      OverlayOneName(n, front, c);
    }
  }

  lemma {:induction false} OverlayTwice(a: Header, b: Header, c: Header, d: Header)
    requires d == Layered(b, c)
    ensures Overlay(Overlay(a, b), c) == Overlay(a, d)
    decreases |a|
  {
    hide Has, Overlay, Values, Spell, Layered;
    Empty();
    if a != [] {
      var front, f := a[..|a| - 1], a[|a| - 1];
      var n := Key(f);
      var x := Overlay(front, b);
      Last(a);
      OverlayTwice(front, b, c, d);
      OverlaySnoc(front, f, b);
      OverlaySnoc(front, f, d);
      OverlaySnoc(x, f, c);
      OverlayNames(front, b);
      LayeredValues(b, c, n);
      if Has(b, n) {
        if Has(front, n) {
          assert x + [] == x;
        } else {
          LowerLower(f.name);
          NoBlock(b, n);
          SpellIs(n, Values(b, n));
          OverlayConcat(x, Block(b, n), c);
          OverlayOneName(n, Values(b, n), c);
        }
      }
    }
  }

  lemma {:induction false} OverlayBlocks(b: Header, names: seq<string>, c: Header, d: Header)
    requires NamesOf(b, names) && d == Layered(b, c)
    ensures Overlay(Blocks(b, names), c) == Blocks(d, names)
    decreases |names|
  {
    hide Has, Overlay, Values, Spell, Layered, Order;
    Empty();
    if names != [] {
      var front, n := names[..|names| - 1], names[|names| - 1];
      OverlayBlocks(b, front, c, d);
      BlocksAre(b, front);
      NoBlock(b, n);
      LayeredValues(b, c, n);
      SpellIs(n, Values(b, n));
      OverlayConcat(Blocks(b, front), Block(b, n), c);
      OverlayOneName(n, Values(b, n), c);
    }
  }

  /** The names only the upper layers have come out the same whichever two layers are joined first. */
  lemma NewNamesRegroup(a: Header, b: Header, c: Header, d: Header, ab: Header)
    requires d == Layered(b, c) && ab == Layered(a, b)
    ensures Blocks(d, Without(Order(b), a)) + NewNames(ab, c, c) == NewNames(a, d, d)
  {
    hide Has, Values, Order, Without, Overlay, Blocks, Layered;
    LayeredOrder(b, c);
    WithoutConcat(Order(b), Without(Order(c), b), a);
    forall n
      ensures Has(ab, n) <==> Has(b, n) || Has(a, n)
    {
      LayeredValues(a, b, n);
    }
    WithoutTwice(Order(c), b, a, ab);
    BlocksConcat(d, Without(Order(b), a), Without(Order(c), ab));
    OrderHas(c);
    WithoutHas(Order(c), ab);
    forall n | n in Without(Order(c), ab)
      ensures Values(d, n) == Values(c, n)
    {
      LayeredValues(b, c, n);
    }
    BlocksCongruent(d, c, Without(Order(c), ab));
  }

  /** Profile, client and request layers may be grouped either way. */
  lemma LayeringIsAssociative(a: Header, b: Header, c: Header)
    ensures Layered(Layered(a, b), c) == Layered(a, Layered(b, c))
  {
    hide Has, Values, Order, Without, Overlay, Blocks;
    var ab, d := Layered(a, b), Layered(b, c);
    var news := Without(Order(b), a);
    NewNamesAre(a, b);
    BlocksAre(b, news);
    OverlayNames(a, b);
    WithoutHas(Order(b), a);
    OverlayConcat(Overlay(a, b), Blocks(b, news), c);
    OverlayTwice(a, b, c, d);
    OverlayBlocks(b, news, c, d);
    NewNamesRegroup(a, b, c, d, ab);
    assert Layered(ab, c) == (Overlay(a, d) + Blocks(d, news)) + NewNames(ab, c, c)
        == Overlay(a, d) + (Blocks(d, news) + NewNames(ab, c, c));
  }

  lemma {:induction false} OverlaySelf(h: Header, o: Header)
    requires forall n :: Has(h, n) ==> Has(o, n)
    ensures Overlay(h, o) == Blocks(o, Order(h))
  {
    hide Has, Overlay, Order, Blocks, Block;
    Empty();
    if h != [] {
      var front, f := h[..|h| - 1], h[|h| - 1];
      Last(h);
      HasSnoc(front, f);
      OverlaySelf(front, o);
      OverlaySnoc(front, f, o);
      OrderSnoc(front, f);
      BlocksSnoc(o, Order(front), Key(f));
      assert Order(front) + [] == Order(front);
      assert Overlay(front, o) + [] == Overlay(front, o);
    }
  }

  /** A header over itself is the header with its repeats gathered and its names in lower case. */
  lemma LayeredSelf(h: Header)
    ensures Layered(h, h) == Blocks(h, Order(h)) == Layered([], h)
  {
    hide Has, Overlay, Order, Without, Blocks;
    Empty();
    OverlaySelf(h, h);
    OrderHas(h);
    WithoutAll(Order(h), h);
    WithoutNothing(Order(h), []);
  }

  lemma {:induction false} OverlaySame(h: Header, o: Header, p: Header)
    requires forall n :: (Has(o, n) <==> Has(p, n)) && Values(o, n) == Values(p, n)
    ensures Overlay(h, o) == Overlay(h, p)
  {
    hide Has, Values;
    if h != [] {
      OverlaySame(h[..|h| - 1], o, p);
    }
  }

  /** Laying the same overrides twice is laying them once. */
  lemma LayeringTwiceIsOnce(h: Header, o: Header)
    ensures Layered(Layered(h, o), o) == Layered(h, o)
  {
    hide Has, Values, Overlay, Order, Without, Blocks;
    var gathered := Blocks(o, Order(o));
    LayeringIsAssociative(h, o, o);
    LayeredSelf(o);
    OrderHas(o);
    BlocksAre(o, Order(o));
    forall n
      ensures Values(o, n) == Values(gathered, n)
    {
      NoBlock(o, n);
    }
    OverlaySame(h, o, gathered);
    BlocksCongruent(gathered, o, Without(Order(o), h));
  }

  // ---------------------------------------------------------------------------------------------
  // Identity.

  /** Every name in lower case, and every repeat next to its name's other fields. */
  ghost predicate Normal(h: Header) {
    && (forall i :: 0 <= i < |h| ==> Key(h[i]) == h[i].name)
    && (forall i, j, k :: 0 <= i < j < k < |h| && h[i].name == h[k].name ==> h[j].name == h[i].name)
  }

  lemma {:induction false} BlocksAreNormal(o: Header, names: seq<string>)
    requires NamesOf(o, names)
    ensures Normal(Blocks(o, names))
  {
    hide Has, Values, Order;
    if names != [] {
      var front, n := names[..|names| - 1], names[|names| - 1];
      BlocksAreNormal(o, front);
      BlocksAre(o, front);
      forall i | 0 <= i < |Blocks(o, front)|
        ensures Blocks(o, front)[i].name != n
      {
        HasElement(Blocks(o, front), i);
      }
    }
  }

  lemma SnocAt(h: Header, f: Field, i: nat)
    requires i <= |h|
    ensures (h + [f])[i] == if i < |h| then h[i] else f
  {
  }

  lemma PrefixIsNormal(h: Header, f: Field)
    requires Normal(h + [f])
    ensures Normal(h) && Key(f) == f.name
  {
    hide Key;
    SnocAt(h, f, |h|);
    forall i | 0 <= i < |h|
      ensures (h + [f])[i] == h[i]
    {
      SnocAt(h, f, i);
    }
  }

  lemma LastIsNearest(h: Header, f: Field, i: nat)
    requires Normal(h + [f]) && i < |h| && h[i].name == f.name
    ensures h[|h| - 1].name == f.name
  {
    hide Key;
    SnocAt(h, f, i);
    SnocAt(h, f, |h| - 1);
    SnocAt(h, f, |h|);
  }

  lemma NormalPrefix(h: Header, f: Field)
    requires Normal(h + [f])
    ensures Normal(h) && Key(f) == f.name
    ensures Has(h, f.name) ==> h != [] && h[|h| - 1].name == f.name
  {
    PrefixIsNormal(h, f);
    if Has(h, f.name) {
      var i := HasWitness(h, f.name);
      assert Key(h[i]) == h[i].name;
      hide Normal;
      LastIsNearest(h, f, i);
    }
  }

  lemma {:induction false} NormalIsGathered(h: Header)
    requires Normal(h)
    ensures Blocks(h, Order(h)) == h
    ensures h != [] ==> Order(h) != [] && Order(h)[|Order(h)| - 1] == h[|h| - 1].name
  {
    hide Has, Values, Order, Blocks, Normal, Spell;
    Empty();
    if h != [] {
      var front, f := h[..|h| - 1], h[|h| - 1];
      Last(h);
      NormalPrefix(front, f);
      NormalIsGathered(front);
      OrderHas(front);
      OrderSnoc(front, f);
      ValuesSnoc(front, f);
      var seen := Order(front);
      var before := if Has(front, f.name) then seen[..|seen| - 1] else seen;
      if Has(front, f.name) {
        assert seen == before + [f.name];
      } else {
        NoBlock(front, f.name);
        BlocksSnoc(front, before, f.name);
      }
      BlocksCongruent(h, front, before);
      BlocksSnoc(h, before, f.name);
      BlocksSnoc(front, before, f.name);
      BlockSnoc(front, f);
      assert Order(h) == before + [f.name];
      assert Blocks(front, before) + Block(front, f.name) == front;
      assert Blocks(h, Order(h)) == Blocks(front, before) + (Block(front, f.name) + [f])
          == (Blocks(front, before) + Block(front, f.name)) + [f];
    }
  }

  /** A header is its own override, and the empty header is a left identity for it, exactly when it is
      normal. The empty header is a right identity always (`NothingToOverlay`). */
  lemma SelfIsIdentityIffNormal(h: Header)
    ensures Layered(h, h) == h <==> Normal(h)
    ensures Layered([], h) == h <==> Normal(h)
  {
    hide Has, Order, Blocks, Layered, Normal;
    LayeredSelf(h);
    if Normal(h) {
      NormalIsGathered(h);
    }
    OrderHas(h);
    BlocksAreNormal(h, Order(h));
  }

  /** Neither law holds of every header: not of one with a capital, nor of one with a repeat further on. */
  lemma NotEveryHeaderIsNormal()
    ensures var capital := [Field("A", "1")]; Layered(capital, capital) != capital && Layered([], capital) != capital
    ensures var apart := [Field("a", "1"), Field("b", "2"), Field("a", "3")];
            Layered(apart, apart) != apart && Layered([], apart) != apart
  {
    var capital, apart := [Field("A", "1")], [Field("a", "1"), Field("b", "2"), Field("a", "3")];
    assert Key(capital[0])[0] == 'a' && capital[0].name[0] == 'A';
    assert !Normal(capital);
    assert apart[0].name == "a" && apart[2].name == "a" && apart[1].name == "b";
    assert apart[1].name[0] != apart[0].name[0];
    assert !Normal(apart);
    hide Layered, Normal;
    SelfIsIdentityIffNormal(capital);
    SelfIsIdentityIffNormal(apart);
  }

  // ---------------------------------------------------------------------------------------------
  // Which fields are the base's and which the overrides'.

  /** The fields of a list that these overrides do not name. */
  function Untouched(h: Header, o: Header): Header {
    if h == [] then []
    else Untouched(h[..|h| - 1], o) + (if Has(o, Key(h[|h| - 1])) then [] else [h[|h| - 1]])
  }

  lemma UntouchedSnoc(h: Header, f: Field, o: Header)
    ensures Untouched([], o) == []
    ensures Untouched(h + [f], o) == Untouched(h, o) + (if Has(o, Key(f)) then [] else [f])
  {
    assert (h + [f])[..|h|] == h;
  }

  /** Every field is the overrides', spelled in lower case, or none of theirs. */
  ghost predicate OverridesAreLower(h: Header, o: Header) {
    forall f <- h :: Has(o, Key(f)) ==> f.name == Key(f)
  }

  lemma {:induction false} AllTouched(h: Header, more: Header, o: Header)
    requires forall f <- more :: Has(o, Key(f)) && f.name == Key(f)
    ensures Untouched(h + more, o) == Untouched(h, o)
    ensures OverridesAreLower(h, o) ==> OverridesAreLower(h + more, o)
  {
    hide Has, Untouched;
    if more == [] {
      assert h + more == h;
    } else {
      var front, f := more[..|more| - 1], more[|more| - 1];
      assert more == front + [f] && h + more == (h + front) + [f];
      assert f in more && forall g <- front :: g in more;
      AllTouched(h, front, o);
      UntouchedSnoc(h + front, f, o);
      assert Untouched(h, o) + [] == Untouched(h, o);
    }
  }

  lemma BlockIsTouched(o: Header, n: string)
    requires Has(o, n) && Lower(n) == n
    ensures forall f <- Block(o, n) :: Has(o, Key(f)) && f.name == Key(f)
  {
    hide Has, Values;
  }

  lemma {:induction false} BlocksAreTouched(h: Header, o: Header, names: seq<string>)
    requires forall n <- names :: Has(o, n) && Lower(n) == n
    ensures Untouched(h + Blocks(o, names), o) == Untouched(h, o)
    ensures OverridesAreLower(h, o) ==> OverridesAreLower(h + Blocks(o, names), o)
  {
    hide Has, Untouched, Block, OverridesAreLower;
    if names == [] {
      assert h + [] == h;
    } else {
      var front, n := names[..|names| - 1], names[|names| - 1];
      assert n in names && forall m <- front :: m in names;
      BlocksAreTouched(h, o, front);
      BlockIsTouched(o, n);
      AllTouched(h + Blocks(o, front), Block(o, n), o);
      assert h + (Blocks(o, front) + Block(o, n)) == (h + Blocks(o, front)) + Block(o, n);
    }
  }

  lemma {:induction false} OverlayTouches(h: Header, o: Header)
    ensures Untouched(Overlay(h, o), o) == Untouched(h, o)
    ensures OverridesAreLower(Overlay(h, o), o)
  {
    hide Has, Untouched, Block, Overlay, OverridesAreLower;
    Empty();
    if h == [] {
      NothingIsLower(o);
    } else {
      var front, f := h[..|h| - 1], h[|h| - 1];
      Last(h);
      OverlayTouches(front, o);
      OverlaySnoc(front, f, o);
      UntouchedSnoc(front, f, o);
      var x := Overlay(front, o);
      assert x + [] == x && Untouched(front, o) + [] == Untouched(front, o);
      if !Has(o, Key(f)) {
        UntouchedSnoc(x, f, o);
        OneMoreIsLower(x, f, o);
      } else if !Has(front, Key(f)) {
        LowerLower(f.name);
        BlockIsTouched(o, Key(f));
        AllTouched(x, Block(o, Key(f)), o);
      }
    }
  }

  lemma NothingIsLower(o: Header)
    ensures OverridesAreLower([], o)
  {
  }

  lemma OneMoreIsLower(h: Header, f: Field, o: Header)
    requires OverridesAreLower(h, o) && !Has(o, Key(f))
    ensures OverridesAreLower(h + [f], o)
  {
    hide Has;
  }

  /** Field by field: what the overrides do not name stays as it is, spelling, value and order; what they name is
      theirs, in lower case. */
  lemma UntouchedFieldsStay(h: Header, o: Header)
    ensures Untouched(Layered(h, o), o) == Untouched(h, o)
    ensures forall f <- Layered(h, o) :: Has(o, Key(f)) ==> f.name == Key(f)
  {
    hide Has, Untouched, Overlay, Order, Without, Blocks;
    OverlayTouches(h, o);
    OrderHas(o);
    WithoutHas(Order(o), h);
    BlocksAreTouched(Overlay(h, o), o, Without(Order(o), h));
  }
}
