/** Comparing two hellos field by field, and what an empty report means. */
module Compare {
  import opened Common
  import opened Bytes
  import opened ClientHello
  import opened Accessors
  import opened Sorting
  import opened JA4
  import opened Redraw

  // ---------------------------------------------------------------------------------------------
  // Lists as bags.

  /** What is left of `a`, in order, when each entry of the bag has taken one occurrence away. */
  function Remaining(a: seq<string>, bag: multiset<string>): seq<string> {
    if a == [] then []
    else if a[0] in bag then Remaining(a[1..], bag - multiset{a[0]})
    else [a[0]] + Remaining(a[1..], bag)
  }

  method Subtract(a: seq<string>, b: seq<string>) returns (out: seq<string>)
    ensures out == Remaining(a, multiset(b))
  {
    var remaining: multiset<string> := multiset{};
    for i := 0 to |b|
      invariant remaining == multiset(b[..i])
    {
      assert b[..i + 1] == b[..i] + [b[i]];
      remaining := remaining[b[i] := remaining[b[i]] + 1];
    }
    assert b[..|b|] == b;
    out := [];
    assert a[0..] == a;
    for i := 0 to |a|
      invariant Remaining(a, multiset(b)) == out + Remaining(a[i..], remaining)
    {
      assert a[i..][1..] == a[i + 1..];
      if remaining[a[i]] > 0 {
        assert remaining[a[i] := remaining[a[i]] - 1] == remaining - multiset{a[i]};
        remaining := remaining[a[i] := remaining[a[i]] - 1];
        continue;
      }
      out := out + [a[i]];
    }
  }

  predicate IsSubsequence(s: seq<string>, t: seq<string>) {
    if s == [] then true
    else if t == [] then false
    else if s[0] == t[0] && IsSubsequence(s[1..], t[1..]) then true
    else IsSubsequence(s, t[1..])
  }

  lemma {:induction false} RemainingIsSubsequence(a: seq<string>, bag: multiset<string>)
    ensures IsSubsequence(Remaining(a, bag), a)
  {
    if a != [] {
      RemainingIsSubsequence(a[1..], if a[0] in bag then bag - multiset{a[0]} else bag);
    }
  }

  lemma {:induction false} RemainingCounts(a: seq<string>, bag: multiset<string>, v: string)
    ensures multiset(Remaining(a, bag))[v] == if multiset(a)[v] > bag[v] then multiset(a)[v] - bag[v] else 0
  {
    if a != [] {
      assert a == [a[0]] + a[1..];
      RemainingCounts(a[1..], if a[0] in bag then bag - multiset{a[0]} else bag, v);
    }
  }

  lemma RemainingIs(a: seq<string>, bag: multiset<string>)
    ensures multiset(Remaining(a, bag)) == multiset(a) - bag
    ensures IsSubsequence(Remaining(a, bag), a)
  {
    hide Remaining, IsSubsequence;
    RemainingIsSubsequence(a, bag);
    forall v
      ensures multiset(Remaining(a, bag))[v] == (multiset(a) - bag)[v]
    {
      RemainingCounts(a, bag, v);
    }
  }

  /** Subtracting is exact: with multiplicity, and in the order of the minuend. */
  lemma SubtractIsDifference(a: seq<string>, b: seq<string>)
    ensures multiset(Remaining(a, multiset(b))) == multiset(a) - multiset(b)
    ensures IsSubsequence(Remaining(a, multiset(b)), a)
    ensures Remaining(a, multiset(b)) == [] && Remaining(b, multiset(a)) == [] <==> multiset(a) == multiset(b)
  {
    hide Remaining, IsSubsequence;
    RemainingIs(a, multiset(b));
    RemainingIs(b, multiset(a));
    NothingLeft(Remaining(a, multiset(b)));
    NothingLeft(Remaining(b, multiset(a)));
    if multiset(a) - multiset(b) == multiset{} && multiset(b) - multiset(a) == multiset{} {
      forall v
        ensures multiset(a)[v] == multiset(b)[v]
      {
        assert (multiset(a) - multiset(b))[v] == 0 && (multiset(b) - multiset(a))[v] == 0;
      }
    }
  }

  lemma NothingLeft(s: seq<string>)
    ensures s == [] <==> multiset(s) == multiset{}
  {
    if s != [] {
      assert s[0] in multiset(s);
    }
  }

  // ---------------------------------------------------------------------------------------------
  // Fields and reports.

  datatype Field = Field(name: string, values: seq<string>, unordered: bool, scalar: bool)

  function JoinComma(values: seq<string>): string {
    if values == [] then ""
    else if |values| == 1 then values[0]
    else values[0] + ", " + JoinComma(values[1..])
  }

  function Render(values: seq<string>): string {
    if values == [] then "(none)" else JoinComma(values)
  }

  function RenderField(f: Field): string {
    if f.unordered then Render(Sort(StringLe, f.values)) else Render(f.values)
  }

  predicate Matches(f: Field, g: Field) {
    if f.scalar then RenderField(f) == RenderField(g)
    else if f.unordered then
      Remaining(f.values, multiset(g.values)) == [] && Remaining(g.values, multiset(f.values)) == []
    else f.values == g.values
  }

  datatype Difference = Difference(field: string, reference: string, candidate: string,
                                   missing: seq<string>, extra: seq<string>)

  /** How two fields differ, by the rule of the reference. */
  function Differ(want: Field, got: Field): Option<Difference> {
    if want.scalar then
      if RenderField(want) == RenderField(got) then None
      else Some(Difference(want.name, RenderField(want), RenderField(got), [], []))
    else
      var missing := Remaining(want.values, multiset(got.values));
      var extra := Remaining(got.values, multiset(want.values));
      if want.unordered then
        if missing == [] && extra == [] then None
        else Some(Difference(want.name, Render(Sort(StringLe, want.values)), Render(Sort(StringLe, got.values)),
                             missing, extra))
      else if want.values == got.values then None
      else Some(Difference(want.name, Render(want.values), Render(got.values), missing, extra))
  }

  function Report(reference: seq<Field>, candidate: seq<Field>): seq<Difference>
    requires |reference| == |candidate|
  {
    if reference == [] then []
    else
      var n := |reference| - 1;
      var d := Differ(reference[n], candidate[n]);
      Report(reference[..n], candidate[..n]) + (if d.Some? then [d.value] else [])
  }

  method EqualStrings(a: seq<string>, b: seq<string>) returns (equal: bool)
    ensures equal <==> a == b
  {
    if |a| != |b| {
      return false;
    }
    for i := 0 to |a|
      invariant a[..i] == b[..i]
    {
      if a[i] != b[i] {
        return false;
      }
    }
    assert a[..|a|] == a && b[..|b|] == b;
    return true;
  }

  method DiffValue(field: string, reference: string, candidate: string) returns (d: Option<Difference>)
    ensures d == if reference == candidate then None
                 else Some(Difference(field, reference, candidate, [], []))
  {
    if reference == candidate {
      return None;
    }
    return Some(Difference(field, reference, candidate, [], []));
  }

  method DiffSet(want: Field, got: Field) returns (d: Option<Difference>)
    requires !want.scalar && want.unordered
    ensures d == Differ(want, got)
  {
    var missing := Subtract(want.values, got.values);
    var extra := Subtract(got.values, want.values);
    if missing == [] && extra == [] {
      return None;
    }
    return Some(Difference(want.name, Render(Sort(StringLe, want.values)), Render(Sort(StringLe, got.values)),
                           missing, extra));
  }

  method DiffOrdered(want: Field, got: Field) returns (d: Option<Difference>)
    requires !want.scalar && !want.unordered
    ensures d == Differ(want, got)
  {
    var same := EqualStrings(want.values, got.values);
    if same {
      return None;
    }
    var missing := Subtract(want.values, got.values);
    var extra := Subtract(got.values, want.values);
    return Some(Difference(want.name, Render(want.values), Render(got.values), missing, extra));
  }

  method CompareFields(reference: seq<Field>, candidate: seq<Field>) returns (diffs: seq<Difference>)
    requires |reference| == |candidate|
    ensures diffs == Report(reference, candidate)
    ensures diffs == [] <==> forall i :: 0 <= i < |reference| ==> Matches(reference[i], candidate[i])
  {
    hide Differ, Matches, RenderField;
    diffs := [];
    for i := 0 to |reference|
      invariant diffs == Report(reference[..i], candidate[..i])
    {
      assert reference[..i + 1][..i] == reference[..i] && candidate[..i + 1][..i] == candidate[..i];
      var want, got := reference[i], candidate[i];
      var d: Option<Difference>;
      if want.scalar {
        d := DiffValue(want.name, RenderField(want), RenderField(got));
        ScalarDiffers(want, got);
      } else if want.unordered {
        d := DiffSet(want, got);
      } else {
        d := DiffOrdered(want, got);
      }
      if d.Some? {
        diffs := diffs + [d.value];
      }
    }
    assert reference[..|reference|] == reference && candidate[..|candidate|] == candidate;
    EmptyMeansMatching(reference, candidate);
  }

  lemma ScalarDiffers(want: Field, got: Field)
    requires want.scalar
    ensures Differ(want, got) == if RenderField(want) == RenderField(got) then None
                                 else Some(Difference(want.name, RenderField(want), RenderField(got), [], []))
  {
  }

  lemma DifferMeansNoMatch(f: Field, g: Field)
    ensures Differ(f, g).None? <==> Matches(f, g)
  {
  }

  /** The report is empty exactly when every pair of fields matches by the rule that displays them. */
  lemma {:induction false} EmptyMeansMatching(reference: seq<Field>, candidate: seq<Field>)
    requires |reference| == |candidate|
    ensures Report(reference, candidate) == [] <==>
            forall i :: 0 <= i < |reference| ==> Matches(reference[i], candidate[i])
  {
    hide Differ, Matches;
    if reference != [] {
      var n := |reference| - 1;
      EmptyMeansMatching(reference[..n], candidate[..n]);
      DifferMeansNoMatch(reference[n], candidate[n]);
      assert forall i :: 0 <= i < n ==> reference[..n][i] == reference[i] && candidate[..n][i] == candidate[i];
    }
  }

  /** A difference in a list says exactly what the candidate lacks and what it has too much of, each in the
      order of the list it comes from. */
  lemma DifferenceSaysWhat(want: Field, got: Field)
    requires !want.scalar && Differ(want, got).Some?
    ensures var d := Differ(want, got).value;
            && d.field == want.name
            && multiset(d.missing) == multiset(want.values) - multiset(got.values)
            && multiset(d.extra) == multiset(got.values) - multiset(want.values)
            && IsSubsequence(d.missing, want.values) && IsSubsequence(d.extra, got.values)
            && (d.missing == [] && d.extra == [] ==> !want.unordered && multiset(want.values) == multiset(got.values))
  {
    hide Remaining, IsSubsequence;
    SubtractIsDifference(want.values, got.values);
    SubtractIsDifference(got.values, want.values);
  }

  function Mismatched(reference: seq<Field>, candidate: seq<Field>): seq<string>
    requires |reference| == |candidate|
  {
    if reference == [] then []
    else
      var n := |reference| - 1;
      Mismatched(reference[..n], candidate[..n]) +
      (if Matches(reference[n], candidate[n]) then [] else [reference[n].name])
  }

  function FieldNames(report: seq<Difference>): seq<string> {
    if report == [] then [] else FieldNames(report[..|report| - 1]) + [report[|report| - 1].field]
  }

  /** The report lists the fields that do not match, each once, in the order of the fields. */
  lemma {:induction false} ReportListsMismatches(reference: seq<Field>, candidate: seq<Field>)
    requires |reference| == |candidate|
    ensures FieldNames(Report(reference, candidate)) == Mismatched(reference, candidate)
  {
    if reference != [] {
      var n := |reference| - 1;
      var front := Report(reference[..n], candidate[..n]);
      ReportListsMismatches(reference[..n], candidate[..n]);
      var d := Differ(reference[n], candidate[n]);
      DifferMeansNoMatch(reference[n], candidate[n]);
      if d.Some? {
        assert d.value.field == reference[n].name;
        hide Differ, Matches;
        assert (front + [d.value])[..|front|] == front;
      } else {
        hide Differ, Matches;
        assert front + [] == front;
      }
    }
  }

  // ---------------------------------------------------------------------------------------------
  // The fields of a hello.

  /** The hash and the names of numbers are whatever tables the program uses. */
  datatype Naming = Naming(
    hash: string -> string,
    cipher: uint16 -> string,
    extension: uint16 -> string,
    version: uint16 -> string,
    group: uint16 -> string,
    signature: uint16 -> string,
    decimal: int -> string,
    text: seq<byte> -> string)

  function NamesOf<T>(values: seq<T>, name: T -> string): (names: seq<string>)
    ensures |names| == |values|
  {
    if values == [] then [] else [name(values[0])] + NamesOf(values[1..], name)
  }

  function Scalar(name: string, value: string): Field {
    Field(name, [value], false, true)
  }

  function Ordered(name: string, values: seq<string>): Field {
    Field(name, values, false, false)
  }

  /** Everything a hello is compared on but the extension list. */
  datatype Lists = Lists(
    ja4: string,
    ciphers: seq<uint16>,
    versions: seq<uint16>,
    groups: seq<uint16>,
    signatures: seq<uint16>,
    shares: seq<uint16>,
    alpn: seq<seq<byte>>,
    settings: seq<seq<byte>>,
    formats: seq<byte>,
    modes: seq<byte>,
    compressions: seq<uint16>)

  function ListsOf(hello: Hello, n: Naming): Lists {
    var exts := hello.extensions;
    Lists(Hashes(hello, n.hash), Without(hello.cipherSuites), Without(Versions(exts)),
          Without(SupportedGroups(exts)), Without(Signatures(exts)), Without(Shares(exts)), Protocols(exts),
          Settings(exts), PointFormats(exts), PskModes(exts), Compressions(exts))
  }

  function FieldsOf(l: Lists, extensions: seq<uint16>, n: Naming): seq<Field> {
    [Scalar("ja4", l.ja4),
     Ordered("cipher_suites", NamesOf(l.ciphers, n.cipher)),
     Field("extensions", NamesOf(extensions, n.extension), true, false),
     Ordered("supported_versions", NamesOf(l.versions, n.version)),
     Ordered("supported_groups", NamesOf(l.groups, n.group)),
     Ordered("signature_algorithms", NamesOf(l.signatures, n.signature)),
     Ordered("key_share_groups", NamesOf(l.shares, n.group)),
     Ordered("alpn", NamesOf(l.alpn, n.text)),
     Ordered("application_settings", NamesOf(l.settings, n.text)),
     Ordered("ec_point_formats", NamesOf<int>(l.formats, n.decimal)),
     Ordered("psk_key_exchange_modes", NamesOf<int>(l.modes, n.decimal)),
     Ordered("compress_certificate", NamesOf<int>(l.compressions, n.decimal))]
  }

  function TLSFields(hello: Hello, n: Naming): seq<Field> {
    FieldsOf(ListsOf(hello, n), Without(Types(hello.extensions)), n)
  }

  predicate Same(a: Hello, b: Hello, n: Naming) {
    Report(TLSFields(a, n), TLSFields(b, n)) == []
  }

  // ---------------------------------------------------------------------------------------------
  // The verdict is an equivalence.

  predicate Alike(f: Field, g: Field) {
    f.unordered == g.unordered && f.scalar == g.scalar
  }

  lemma MatchesIsAnEquivalence(f: Field, g: Field, h: Field)
    requires Alike(f, g) && Alike(g, h)
    ensures Matches(f, f)
    ensures Matches(f, g) ==> Matches(g, f)
    ensures Matches(f, g) && Matches(g, h) ==> Matches(f, h)
  {
    hide Remaining, RenderField;
    SubtractIsDifference(f.values, f.values);
    SubtractIsDifference(f.values, g.values);
    SubtractIsDifference(g.values, h.values);
    SubtractIsDifference(f.values, h.values);
  }

  lemma FieldsAlike(l: Lists, m: Lists, x: seq<uint16>, y: seq<uint16>, n: Naming)
    ensures |FieldsOf(l, x, n)| == |FieldsOf(m, y, n)| == 12
    ensures forall i :: 0 <= i < 12 ==> Alike(FieldsOf(l, x, n)[i], FieldsOf(m, y, n)[i])
  {
    hide NamesOf;
  }

  lemma HellosAlike(a: Hello, b: Hello, n: Naming)
    ensures |TLSFields(a, n)| == |TLSFields(b, n)|
    ensures forall i :: 0 <= i < |TLSFields(a, n)| ==> Alike(TLSFields(a, n)[i], TLSFields(b, n)[i])
  {
    hide FieldsOf, Alike, ListsOf;
    FieldsAlike(ListsOf(a, n), ListsOf(b, n), Without(Types(a.extensions)), Without(Types(b.extensions)), n);
  }

  /** No differences is an equivalence relation on hellos, for whatever tables of names. */
  lemma SameIsAnEquivalence(a: Hello, b: Hello, c: Hello, n: Naming)
    ensures Same(a, a, n)
    ensures Same(a, b, n) ==> Same(b, a, n)
    ensures Same(a, b, n) && Same(b, c, n) ==> Same(a, c, n)
  {
    HellosAlike(a, b, n);
    HellosAlike(b, c, n);
    hide TLSFields, Matches, Report;
    var fs, gs, hs := TLSFields(a, n), TLSFields(b, n), TLSFields(c, n);
    EmptyMeansMatching(fs, fs);
    EmptyMeansMatching(fs, gs);
    EmptyMeansMatching(gs, fs);
    EmptyMeansMatching(gs, hs);
    EmptyMeansMatching(fs, hs);
    forall i | 0 <= i < |fs|
      ensures Matches(fs[i], fs[i])
      ensures Matches(fs[i], gs[i]) ==> Matches(gs[i], fs[i])
      ensures Matches(fs[i], gs[i]) && Matches(gs[i], hs[i]) ==> Matches(fs[i], hs[i])
    {
      assert Alike(fs[i], gs[i]) && Alike(gs[i], hs[i]);
      MatchesIsAnEquivalence(fs[i], gs[i], hs[i]);
    }
  }

  // ---------------------------------------------------------------------------------------------
  // A browser compared with itself.

  lemma {:induction false} NamesConcat<T>(vs: seq<T>, ws: seq<T>, name: T -> string)
    ensures NamesOf(vs + ws, name) == NamesOf(vs, name) + NamesOf(ws, name)
  {
    if vs == [] {
      assert vs + ws == ws;
    } else {
      assert (vs + ws)[1..] == vs[1..] + ws;
      NamesConcat(vs[1..], ws, name);
    }
  }

  lemma Middle<T>(a: seq<T>, x: T, b: seq<T>)
    ensures multiset(a + ([x] + b)) == multiset(a + b) + multiset{x}
    ensures multiset(a + b) == multiset(a + ([x] + b)) - multiset{x}
  {
  }

  lemma NamesAround<T>(a: seq<T>, x: T, b: seq<T>, name: T -> string)
    ensures NamesOf(a + ([x] + b), name) == NamesOf(a, name) + ([name(x)] + NamesOf(b, name))
  {
    OneName(x, name);
    hide NamesOf;
    NamesConcat([x], b, name);
    NamesConcat(a, [x] + b, name);
  }

  lemma NameTakenOut<T>(a: seq<T>, x: T, b: seq<T>, name: T -> string)
    ensures multiset(NamesOf(a + ([x] + b), name)) == multiset(NamesOf(a + b, name)) + multiset{name(x)}
  {
    hide NamesOf;
    NamesAround(a, x, b, name);
    NamesConcat(a, b, name);
    Middle(NamesOf(a, name), name(x), NamesOf(b, name));
  }

  lemma OneName<T>(x: T, name: T -> string)
    ensures NamesOf([x], name) == [name(x)]
  {
  }

  lemma PlaceOf<T>(x: T, ws: seq<T>) returns (i: nat)
    requires x in multiset(ws)
    ensures i < |ws| && ws[i] == x
  {
    i :| 0 <= i < |ws| && ws[i] == x;
  }

  /** Where the head of one list stands in another order of it, and what is left around it. */
  lemma Partner<T>(vs: seq<T>, ws: seq<T>) returns (front: seq<T>, back: seq<T>)
    requires multiset(vs) == multiset(ws) && vs != []
    ensures ws == front + ([vs[0]] + back)
    ensures multiset(vs[1..]) == multiset(front + back)
  {
    TailOut(vs);
    assert vs[0] in multiset(vs);
    var i := PlaceOf(vs[0], ws);
    front, back := ws[..i], ws[i + 1..];
    assert ws == front + ([vs[0]] + back);
    Middle(front, vs[0], back);
  }

  lemma {:induction false} SameNames<T>(vs: seq<T>, ws: seq<T>, name: T -> string)
    requires multiset(vs) == multiset(ws)
    ensures multiset(NamesOf(vs, name)) == multiset(NamesOf(ws, name))
  {
    if vs == [] {
      assert |multiset(vs)| == |multiset(ws)|;
    } else {
      hide NamesOf;
      var x, rest := vs[0], vs[1..];
      var front, back := Partner(vs, ws);
      SameNames(rest, front + back, name);
      NameTakenOut(front, x, back, name);
      NameTakenOut([], x, rest, name);
      assert vs == [] + ([x] + rest) && rest == [] + rest;
    }
  }

  lemma MatchesItself(f: Field)
    ensures Matches(f, f)
  {
    SubtractIsDifference(f.values, f.values);
  }

  lemma OnlyExtensionsMoved(l: Lists, x: seq<uint16>, y: seq<uint16>, n: Naming)
    requires multiset(x) == multiset(y)
    ensures Report(FieldsOf(l, x, n), FieldsOf(l, y, n)) == []
  {
    hide NamesOf, Remaining, Report, RenderField;
    SameNames(x, y, n.extension);
    var fs, gs := FieldsOf(l, x, n), FieldsOf(l, y, n);
    SubtractIsDifference(NamesOf(x, n.extension), NamesOf(y, n.extension));
    assert Matches(fs[2], gs[2]);
    assert gs == fs[2 := gs[2]];
    hide FieldsOf, Matches;
    forall i | 0 <= i < |fs|
      ensures Matches(fs[i], gs[i])
    {
      if i != 2 {
        MatchesItself(fs[i]);
      }
    }
    EmptyMeansMatching(fs, gs);
  }

  /** A hello compared with that of another connection of the same browser, its extensions permuted and its
      reserved values and keys drawn afresh, shows no differences. */
  lemma TheShuffleIsNoDifference(a: Hello, b: Hello, n: Naming)
    requires a.legacyVersion == b.legacyVersion
    requires Redrawn(a.cipherSuites, b.cipherSuites)
    requires Shuffled(a.extensions, b.extensions)
    ensures Same(a, b, n)
  {
    hide Hashes, NamesOf, Without, Said, Settings, Types, Versions, SupportedGroups, Signatures, Shares, Protocols,
         PointFormats, PskModes, Compressions, Report, Reshuffled, Shuffled, FieldsOf, Redrawn;
    ShuffleIsByKind(a.extensions, b.extensions);
    RedrawKeepsTheRest(a.cipherSuites, b.cipherSuites);
    RawIgnoresTheShuffle(a, b, a.cipherSuites, n.hash);
    SameAnswers(a.extensions, b.extensions);
    SameTypes(a.extensions, b.extensions);
    assert ListsOf(a, n) == ListsOf(b, n);
    OnlyExtensionsMoved(ListsOf(a, n), Without(Types(a.extensions)), Without(Types(b.extensions)), n);
  }
}
