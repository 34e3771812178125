/** Ordered header lists and how one is layered over another. */
module Headers {
  import opened Text

  datatype Field = Field(name: string, value: string)

  type Header = seq<Field>

  /** The name two spellings share. */
  function Key(f: Field): string {
    Lower(f.name)
  }

  predicate Has(h: Header, n: string) {
    h != [] && (Has(h[..|h| - 1], n) || Key(h[|h| - 1]) == n)
  }

  /** The values of a name, in wire order. */
  function Values(h: Header, n: string): seq<string> {
    if h == [] then []
    else Values(h[..|h| - 1], n) + (if Key(h[|h| - 1]) == n then [h[|h| - 1].value] else [])
  }

  /** The names of a header, each at its first occurrence. */
  function Order(h: Header): seq<string> {
    if h == [] then []
    else
      var n := Key(h[|h| - 1]);
      Order(h[..|h| - 1]) + (if Has(h[..|h| - 1], n) then [] else [n])
  }

  /** All fields of one name, spelled in lower case. */
  function Block(h: Header, n: string): Header {
    Spell(n, Values(h, n))
  }

  function Spell(n: string, values: seq<string>): Header {
    seq(|values|, i requires 0 <= i < |values| => Field(n, values[i]))
  }

  /** The blocks of these names, one after another. */
  function Blocks(h: Header, names: seq<string>): Header {
    if names == [] then [] else Blocks(h, names[..|names| - 1]) + Block(h, names[|names| - 1])
  }

  function Without(names: seq<string>, h: Header): seq<string> {
    if names == [] then []
    else Without(names[..|names| - 1], h) +
         (if Has(h, names[|names| - 1]) then [] else [names[|names| - 1]])
  }

  /** The base with each overridden name replaced, at its first occurrence, by all its overrides. */
  function Overlay(h: Header, o: Header): Header {
    if h == [] then []
    else
      var front := h[..|h| - 1];
      var f := h[|h| - 1];
      Overlay(front, o) + (if !Has(o, Key(f)) then [f] else if Has(front, Key(f)) then [] else Block(o, Key(f)))
  }

  /** The base's names in the base's places, then the overrides' own, gathered. */
  function Layered(h: Header, o: Header): Header {
    Overlay(h, o) + NewNames(h, o, o)
  }

  /** The replacement of every overridden name. */
  method Replacements(overrides: Header) returns (values: map<string, Header>)
    ensures forall n :: n in values <==> Has(overrides, n)
    ensures forall n :: n in values ==> values[n] == Block(overrides, n)
  {
    hide Has, Block;
    Empty();
    values := map[];
    assert overrides[..0] == [];
    for i := 0 to |overrides|
      invariant forall n :: n in values <==> Has(overrides[..i], n)
      invariant forall n :: n in values ==> values[n] == Block(overrides[..i], n)
    {
      var f := overrides[i];
      assert overrides[..i + 1] == overrides[..i] + [f];
      HasSnoc(overrides[..i], f);
      BlockSnoc(overrides[..i], f);
      NoBlock(overrides[..i], Key(f));
      values := values[Key(f) := (if Key(f) in values then values[Key(f)] else []) + [Field(Key(f), f.value)]];
    }
    assert overrides[..|overrides|] == overrides;
  }

  method PlaceReplacements(h: Header, overrides: Header, values: map<string, Header>)
    returns (out: Header, used: set<string>)
    requires forall n :: n in values <==> Has(overrides, n)
    requires forall n :: n in values ==> values[n] == Block(overrides, n)
    ensures out == Overlay(h, overrides)
    ensures forall n :: n in used <==> Has(h, n) && Has(overrides, n)
  {
    hide Has, Overlay, Block;
    Empty();
    out, used := [], {};
    assert h[..0] == [];
    for i := 0 to |h|
      invariant out == Overlay(h[..i], overrides)
      invariant forall n :: n in used <==> Has(h[..i], n) && Has(overrides, n)
    {
      var f := h[i];
      var name := Key(f);
      assert h[..i + 1] == h[..i] + [f];
      HasSnoc(h[..i], f);
      OverlaySnoc(h[..i], f, overrides);
      if name in values {
        if name !in used {
          out := out + values[name];
          used := used + {name};
        }
      } else {
        out := out + [f];
      }
    }
    assert h[..|h|] == h;
  }

  method AppendNewNames(h: Header, overrides: Header, values: map<string, Header>, placed: set<string>)
    returns (tail: Header)
    requires forall n :: n in values <==> Has(overrides, n)
    requires forall n :: n in values ==> values[n] == Block(overrides, n)
    requires forall n :: n in placed <==> Has(h, n) && Has(overrides, n)
    ensures tail == NewNames(h, overrides, overrides)
  {
    hide Has, Block, Order, Blocks, Without;
    tail := [];
    var used := placed;
    Empty();
    assert overrides[..0] == [] && NewNames(h, overrides, []) == [];
    for i := 0 to |overrides|
      invariant tail == NewNames(h, overrides, overrides[..i])
      invariant forall n :: Has(overrides, n) ==> (n in used <==> Has(h, n) || Has(overrides[..i], n))
    {
      var f := overrides[i];
      assert overrides[..i + 1] == overrides[..i] + [f];
      HasSnoc(overrides[..i], f);
      NewNamesSnoc(h, overrides, overrides[..i], f);
      HasElement(overrides, i);
      if Key(f) in used || Has(h, Key(f)) {
        continue;
      }
      tail := tail + values[Key(f)];
      used := used + {Key(f)};
    }
    assert overrides[..|overrides|] == overrides;
  }

  method Merge(h: Header, overrides: Header) returns (out: Header)
    ensures out == Layered(h, overrides)
  {
    if overrides == [] {
      NothingToOverlay(h);
      return h;
    }
    var values := Replacements(overrides);
    var placed, used := PlaceReplacements(h, overrides, values);
    var tail := AppendNewNames(h, overrides, values, used);
    out := placed + tail;
  }

  /** What the names first seen in `part` contribute after the base. */
  function NewNames(h: Header, o: Header, part: Header): Header {
    Blocks(o, Without(Order(part), h))
  }

  // ---------------------------------------------------------------------------------------------
  // How each function meets the empty list and one element more.

  lemma Empty()
    ensures forall n :: !Has([], n) && Values([], n) == []
    ensures Order([]) == []
    ensures forall h :: Blocks(h, []) == [] && Without([], h) == []
    ensures forall o :: Overlay([], o) == []
  {
  }

  lemma Last(h: Header)
    requires h != []
    ensures h == h[..|h| - 1] + [h[|h| - 1]]
  {
  }

  lemma HasSnoc(h: Header, f: Field)
    ensures forall n :: Has(h + [f], n) <==> Has(h, n) || n == Key(f)
  {
    assert (h + [f])[..|h|] == h;
  }

  lemma ValuesSnoc(h: Header, f: Field)
    ensures forall n :: Values(h + [f], n) == Values(h, n) + (if n == Key(f) then [f.value] else [])
  {
    assert (h + [f])[..|h|] == h;
  }

  lemma BlockSnoc(h: Header, f: Field)
    ensures forall n :: Block(h + [f], n) == Block(h, n) + (if n == Key(f) then [Field(n, f.value)] else [])
  {
    ValuesSnoc(h, f);
  }

  lemma OrderSnoc(h: Header, f: Field)
    ensures Order(h + [f]) == Order(h) + (if Has(h, Key(f)) then [] else [Key(f)])
  {
    assert (h + [f])[..|h|] == h;
  }

  lemma WithoutSnoc(names: seq<string>, n: string, h: Header)
    ensures Without(names + [n], h) == Without(names, h) + (if Has(h, n) then [] else [n])
  {
    assert (names + [n])[..|names|] == names;
  }

  lemma BlocksSnoc(o: Header, names: seq<string>, n: string)
    ensures Blocks(o, names + [n]) == Blocks(o, names) + Block(o, n)
  {
    assert (names + [n])[..|names|] == names;
  }

  /** What one more field of the base adds to the overlay. */
  function Piece(h: Header, f: Field, o: Header): Header {
    if !Has(o, Key(f)) then [f] else if Has(h, Key(f)) then [] else Block(o, Key(f))
  }

  lemma OverlaySnoc(h: Header, f: Field, o: Header)
    ensures Overlay(h + [f], o) == Overlay(h, o) + Piece(h, f, o)
  {
    assert (h + [f])[..|h|] == h;
  }

  lemma {:induction false} HasElement(h: Header, i: nat)
    requires i < |h|
    ensures Has(h, Key(h[i]))
  {
    if i < |h| - 1 {
      HasElement(h[..|h| - 1], i);
    }
  }

  lemma {:induction false} HasWitness(h: Header, n: string) returns (i: nat)
    requires Has(h, n)
    ensures i < |h| && Key(h[i]) == n
  {
    if Key(h[|h| - 1]) == n {
      i := |h| - 1;
    } else {
      i := HasWitness(h[..|h| - 1], n);
    }
  }

  lemma {:induction false} NoBlock(h: Header, n: string)
    ensures Has(h, n) <==> Values(h, n) != []
    ensures Has(h, n) <==> Block(h, n) != []
  {
    if h != [] {
      NoBlock(h[..|h| - 1], n);
    }
  }

  lemma {:induction false} NothingToOverlay(h: Header)
    ensures Overlay(h, []) == h && Layered(h, []) == h
  {
    if h != [] {
      NothingToOverlay(h[..|h| - 1]);
      Last(h);
    }
  }

  lemma NewNamesSnoc(h: Header, o: Header, part: Header, f: Field)
    ensures NewNames(h, o, part + [f]) ==
            NewNames(h, o, part) + (if Has(part, Key(f)) || Has(h, Key(f)) then [] else Block(o, Key(f)))
  {
    hide Has, Order, Without, Blocks, Block;
    OrderSnoc(part, f);
    if Has(part, Key(f)) {
      assert Order(part) + [] == Order(part);
    } else {
      WithoutSnoc(Order(part), Key(f), h);
      BlocksSnoc(o, Without(Order(part), h), Key(f));
      assert Without(Order(part), h) + [] == Without(Order(part), h);
    }
    assert NewNames(h, o, part) + [] == NewNames(h, o, part);
  }
}
