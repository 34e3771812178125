/** What a comparison of two hellos says: which disagreements it reports, under which names, and that it reports
    nothing else. */
module Verdict {
  import opened Common
  import opened Bytes
  import opened ClientHello
  import opened Accessors
  import opened Sorting
  import opened JA4
  import opened Compare

  ghost predicate Injective<T(!new)>(name: T -> string) {
    forall x, y :: name(x) == name(y) ==> x == y
  }

  /** Tables that call no two things alike. */
  ghost predicate Telling(n: Naming) {
    && Injective(n.cipher) && Injective(n.extension) && Injective(n.version) && Injective(n.group)
    && Injective(n.signature) && Injective(n.decimal) && Injective(n.text)
  }

  lemma {:induction false} SameNamesSameList<T(!new)>(vs: seq<T>, ws: seq<T>, name: T -> string)
    requires Injective(name)
    ensures NamesOf(vs, name) == NamesOf(ws, name) <==> vs == ws
  {
    hide Injective;
    if NamesOf(vs, name) == NamesOf(ws, name) && vs != [] {
      assert name(vs[0]) == NamesOf(vs, name)[0] == NamesOf(ws, name)[0] == name(ws[0]);
      OneToOne(vs[0], ws[0], name);
      assert NamesOf(vs[1..], name) == NamesOf(vs, name)[1..] == NamesOf(ws, name)[1..] == NamesOf(ws[1..], name);
      SameNamesSameList(vs[1..], ws[1..], name);
      assert vs == [vs[0]] + vs[1..] && ws == [ws[0]] + ws[1..];
    }
  }

  lemma OneToOne<T(!new)>(x: T, y: T, name: T -> string)
    requires Injective(name)
    ensures name(x) == name(y) <==> x == y
  {
  }

  lemma {:induction false} NameCounts<T(!new)>(vs: seq<T>, name: T -> string, x: T)
    requires Injective(name)
    ensures multiset(NamesOf(vs, name))[name(x)] == multiset(vs)[x]
  {
    hide Injective;
    if vs != [] {
      assert vs == [vs[0]] + vs[1..];
      OneToOne(vs[0], x, name);
      NameCounts(vs[1..], name, x);
    }
  }

  lemma SameNamesSameBag<T(!new)>(vs: seq<T>, ws: seq<T>, name: T -> string)
    requires Injective(name)
    ensures multiset(NamesOf(vs, name)) == multiset(NamesOf(ws, name)) <==> multiset(vs) == multiset(ws)
  {
    hide NamesOf, Injective;
    if multiset(vs) == multiset(ws) {
      SameNames(vs, ws, name);
    }
    if multiset(NamesOf(vs, name)) == multiset(NamesOf(ws, name)) {
      forall x
        ensures multiset(vs)[x] == multiset(ws)[x]
      {
        NameCounts(vs, name, x);
        NameCounts(ws, name, x);
      }
    }
  }

  // ---------------------------------------------------------------------------------------------
  // One field.

  lemma OrderedMatches<T(!new)>(field: string, vs: seq<T>, ws: seq<T>, name: T -> string)
    requires Injective(name)
    ensures Matches(Ordered(field, NamesOf(vs, name)), Ordered(field, NamesOf(ws, name))) <==> vs == ws
  {
    hide NamesOf, Injective;
    SameNamesSameList(vs, ws, name);
  }

  lemma BagMatches<T(!new)>(field: string, vs: seq<T>, ws: seq<T>, name: T -> string)
    requires Injective(name)
    ensures Matches(Field(field, NamesOf(vs, name), true, false), Field(field, NamesOf(ws, name), true, false)) <==>
            multiset(vs) == multiset(ws)
  {
    hide NamesOf, Injective, Remaining;
    SameNamesSameBag(vs, ws, name);
    SubtractIsDifference(NamesOf(vs, name), NamesOf(ws, name));
  }

  lemma ScalarMatches(field: string, x: string, y: string)
    ensures Matches(Scalar(field, x), Scalar(field, y)) <==> x == y
  {
  }

  // ---------------------------------------------------------------------------------------------
  // The fields and their names.

  const NAMES := ["ja4", "cipher_suites", "extensions", "supported_versions", "supported_groups",
                  "signature_algorithms", "key_share_groups", "alpn", "application_settings", "ec_point_formats",
                  "psk_key_exchange_modes", "compress_certificate"]

  /** Whether two hellos agree on what the i-th of these names stands for. */
  predicate Agree(a: Hello, b: Hello, n: Naming, i: nat)
    requires i < 12
  {
    var x, y := a.extensions, b.extensions;
    match i
    case 0 => Hashes(a, n.hash) == Hashes(b, n.hash)
    case 1 => Without(a.cipherSuites) == Without(b.cipherSuites)
    case 2 => multiset(Without(Types(x))) == multiset(Without(Types(y)))
    case 3 => Without(Versions(x)) == Without(Versions(y))
    case 4 => Without(SupportedGroups(x)) == Without(SupportedGroups(y))
    case 5 => Without(Signatures(x)) == Without(Signatures(y))
    case 6 => Without(Shares(x)) == Without(Shares(y))
    case 7 => Protocols(x) == Protocols(y)
    case 8 => Settings(x) == Settings(y)
    case 9 => PointFormats(x) == PointFormats(y)
    case 10 => PskModes(x) == PskModes(y)
    case 11 => Compressions(x) == Compressions(y)
  }

  lemma FieldsAreNamed(a: Hello, n: Naming)
    ensures |TLSFields(a, n)| == 12 == |NAMES|
    ensures forall i :: 0 <= i < 12 ==> TLSFields(a, n)[i].name == NAMES[i]
  {
    hide NamesOf, ListsOf;
  }

  lemma FieldsOfAre(l: Lists, types: seq<uint16>, n: Naming)
    ensures var f := FieldsOf(l, types, n);
            && |f| == 12
            && f[0] == Scalar("ja4", l.ja4)
            && f[1] == Ordered("cipher_suites", NamesOf(l.ciphers, n.cipher))
            && f[2] == Field("extensions", NamesOf(types, n.extension), true, false)
            && f[3] == Ordered("supported_versions", NamesOf(l.versions, n.version))
            && f[4] == Ordered("supported_groups", NamesOf(l.groups, n.group))
            && f[5] == Ordered("signature_algorithms", NamesOf(l.signatures, n.signature))
  {
    hide NamesOf, Scalar, Ordered;
  }

  lemma MoreFieldsAre(l: Lists, types: seq<uint16>, n: Naming)
    ensures var f := FieldsOf(l, types, n);
            && |f| == 12
            && f[6] == Ordered("key_share_groups", NamesOf(l.shares, n.group))
            && f[7] == Ordered("alpn", NamesOf(l.alpn, n.text))
            && f[8] == Ordered("application_settings", NamesOf(l.settings, n.text))
            && f[9] == Ordered("ec_point_formats", NamesOf<int>(l.formats, n.decimal))
            && f[10] == Ordered("psk_key_exchange_modes", NamesOf<int>(l.modes, n.decimal))
            && f[11] == Ordered("compress_certificate", NamesOf<int>(l.compressions, n.decimal))
  {
    hide NamesOf, Scalar, Ordered;
  }

  lemma ListsAre(h: Hello, n: Naming)
    ensures var l, x := ListsOf(h, n), h.extensions;
            && l.ja4 == Hashes(h, n.hash) && l.ciphers == Without(h.cipherSuites) && l.versions == Without(Versions(x))
            && l.groups == Without(SupportedGroups(x)) && l.signatures == Without(Signatures(x))
            && l.shares == Without(Shares(x)) && l.alpn == Protocols(x) && l.settings == Settings(x)
            && l.formats == PointFormats(x) && l.modes == PskModes(x) && l.compressions == Compressions(x)
  {
    hide Hashes, Without, Versions, SupportedGroups, Signatures, Shares, Protocols, Settings, PointFormats, PskModes,
         Compressions;
  }

  lemma FieldMatches(a: Hello, b: Hello, n: Naming, i: nat)
    requires Telling(n) && i < 12
    ensures |TLSFields(a, n)| == |TLSFields(b, n)| == 12
    ensures Matches(TLSFields(a, n)[i], TLSFields(b, n)[i]) <==> Agree(a, b, n, i)
  {
    ListsAre(a, n);
    ListsAre(b, n);
    FieldsOfAre(ListsOf(a, n), Without(Types(a.extensions)), n);
    MoreFieldsAre(ListsOf(a, n), Without(Types(a.extensions)), n);
    FieldsOfAre(ListsOf(b, n), Without(Types(b.extensions)), n);
    MoreFieldsAre(ListsOf(b, n), Without(Types(b.extensions)), n);
    hide FieldsOf, ListsOf, NamesOf, Injective, Matches, Without, Types, Versions, SupportedGroups, Signatures, Shares,
         Protocols, Settings, PointFormats, PskModes, Compressions, Hashes, Scalar, Ordered;
    var x, y := a.extensions, b.extensions;
    match i {
      case 0 => ScalarMatches("ja4", Hashes(a, n.hash), Hashes(b, n.hash));
      case 1 => OrderedMatches("cipher_suites", Without(a.cipherSuites), Without(b.cipherSuites), n.cipher);
      case 2 => BagMatches("extensions", Without(Types(x)), Without(Types(y)), n.extension);
      case 3 => OrderedMatches("supported_versions", Without(Versions(x)), Without(Versions(y)), n.version);
      case 4 => OrderedMatches("supported_groups", Without(SupportedGroups(x)), Without(SupportedGroups(y)), n.group);
      case 5 => OrderedMatches("signature_algorithms", Without(Signatures(x)), Without(Signatures(y)), n.signature);
      case 6 => OrderedMatches("key_share_groups", Without(Shares(x)), Without(Shares(y)), n.group);
      case 7 => OrderedMatches("alpn", Protocols(x), Protocols(y), n.text);
      case 8 => OrderedMatches("application_settings", Settings(x), Settings(y), n.text);
      case 9 => OrderedMatches<int>("ec_point_formats", PointFormats(x), PointFormats(y), n.decimal);
      case 10 => OrderedMatches<int>("psk_key_exchange_modes", PskModes(x), PskModes(y), n.decimal);
      case 11 => OrderedMatches<int>("compress_certificate", Compressions(x), Compressions(y), n.decimal);
    }
  }

  // ---------------------------------------------------------------------------------------------
  // The report.

  lemma {:induction false} MismatchedHas(reference: seq<Field>, candidate: seq<Field>, name: string)
    requires |reference| == |candidate|
    ensures name in Mismatched(reference, candidate) <==>
            exists i :: 0 <= i < |reference| && reference[i].name == name && !Matches(reference[i], candidate[i])
  {
    hide Matches;
    if reference != [] {
      var m := |reference| - 1;
      MismatchedHas(reference[..m], candidate[..m], name);
      assert forall i :: 0 <= i < m ==> reference[..m][i] == reference[i] && candidate[..m][i] == candidate[i];
    }
  }

  lemma NamesDiffer(i: nat, j: nat)
    requires i < j < 12
    ensures NAMES[i] != NAMES[j]
  {
    assert |"ja4"| == 3 && |"cipher_suites"| == 13 && |"extensions"| == 10 && |"supported_versions"| == 18;
    assert |"supported_groups"| == 16 && |"signature_algorithms"| == 20 && |"key_share_groups"| == 16;
    assert |"alpn"| == 4 && |"application_settings"| == 20 && |"ec_point_formats"| == 16;
    assert |"psk_key_exchange_modes"| == 22 && |"compress_certificate"| == 20;
    assert "supported_groups"[0] == 's' && "key_share_groups"[0] == 'k' && "ec_point_formats"[0] == 'e';
    assert "signature_algorithms"[0] == 's' && "application_settings"[0] == 'a' && "compress_certificate"[0] == 'c';
  }

  /** A field's name is in the report exactly when the two hellos disagree on what it stands for. */
  lemma ReportNames(a: Hello, b: Hello, n: Naming, i: nat)
    requires Telling(n) && i < 12
    ensures |TLSFields(a, n)| == |TLSFields(b, n)|
    ensures NAMES[i] in FieldNames(Report(TLSFields(a, n), TLSFields(b, n))) <==> !Agree(a, b, n, i)
  {
    hide TLSFields, Matches, Agree, Report, Mismatched, FieldNames, Telling;
    FieldsAreNamed(a, n);
    FieldsAreNamed(b, n);
    var fs, gs := TLSFields(a, n), TLSFields(b, n);
    ReportListsMismatches(fs, gs);
    MismatchedHas(fs, gs, NAMES[i]);
    FieldMatches(a, b, n, i);
    if !Agree(a, b, n, i) {
      assert fs[i].name == NAMES[i] && !Matches(fs[i], gs[i]);
    }
    if j :| 0 <= j < |fs| && fs[j].name == NAMES[i] && !Matches(fs[j], gs[j]) {
      assert NAMES[j] == NAMES[i];
      if i < j { NamesDiffer(i, j); } else if j < i { NamesDiffer(j, i); }
    }
  }

  lemma NamesAre()
    ensures NAMES[0] == "ja4" && NAMES[1] == "cipher_suites" && NAMES[2] == "extensions"
    ensures NAMES[3] == "supported_versions" && NAMES[4] == "supported_groups" && NAMES[5] == "signature_algorithms"
    ensures NAMES[6] == "key_share_groups" && NAMES[7] == "alpn" && NAMES[8] == "application_settings"
    ensures NAMES[9] == "ec_point_formats" && NAMES[10] == "psk_key_exchange_modes"
    ensures NAMES[11] == "compress_certificate"
  {
  }

  lemma AgreeIs(a: Hello, b: Hello, n: Naming)
    ensures var x, y := a.extensions, b.extensions;
            && (Agree(a, b, n, 0) <==> Hashes(a, n.hash) == Hashes(b, n.hash))
            && (Agree(a, b, n, 1) <==> Without(a.cipherSuites) == Without(b.cipherSuites))
            && (Agree(a, b, n, 2) <==> multiset(Without(Types(x))) == multiset(Without(Types(y))))
            && (Agree(a, b, n, 3) <==> Without(Versions(x)) == Without(Versions(y)))
            && (Agree(a, b, n, 4) <==> Without(SupportedGroups(x)) == Without(SupportedGroups(y)))
            && (Agree(a, b, n, 5) <==> Without(Signatures(x)) == Without(Signatures(y)))
            && (Agree(a, b, n, 6) <==> Without(Shares(x)) == Without(Shares(y)))
            && (Agree(a, b, n, 7) <==> Protocols(x) == Protocols(y))
            && (Agree(a, b, n, 8) <==> Settings(x) == Settings(y))
            && (Agree(a, b, n, 9) <==> PointFormats(x) == PointFormats(y))
            && (Agree(a, b, n, 10) <==> PskModes(x) == PskModes(y))
            && (Agree(a, b, n, 11) <==> Compressions(x) == Compressions(y))
  {
    hide Without, Types, Versions, SupportedGroups, Signatures, Shares, Protocols, Settings, PointFormats, PskModes,
         Compressions, Hashes;
  }

  /** What the report on two hellos names, name by name. */
  lemma TheReportNames(a: Hello, b: Hello, n: Naming)
    requires Telling(n)
    ensures |TLSFields(a, n)| == |TLSFields(b, n)|
    ensures var names := FieldNames(Report(TLSFields(a, n), TLSFields(b, n)));
            var x, y := a.extensions, b.extensions;
            && ("ja4" in names <==> Hashes(a, n.hash) != Hashes(b, n.hash))
            && ("cipher_suites" in names <==> Without(a.cipherSuites) != Without(b.cipherSuites))
            && ("extensions" in names <==> multiset(Without(Types(x))) != multiset(Without(Types(y))))
            && ("supported_versions" in names <==> Without(Versions(x)) != Without(Versions(y)))
            && ("supported_groups" in names <==> Without(SupportedGroups(x)) != Without(SupportedGroups(y)))
            && ("signature_algorithms" in names <==> Without(Signatures(x)) != Without(Signatures(y)))
            && ("key_share_groups" in names <==> Without(Shares(x)) != Without(Shares(y)))
            && ("alpn" in names <==> Protocols(x) != Protocols(y))
            && ("application_settings" in names <==> Settings(x) != Settings(y))
            && ("ec_point_formats" in names <==> PointFormats(x) != PointFormats(y))
            && ("psk_key_exchange_modes" in names <==> PskModes(x) != PskModes(y))
            && ("compress_certificate" in names <==> Compressions(x) != Compressions(y))
  {
    NamesAre();
    AgreeIs(a, b, n);
    hide TLSFields, Telling, Agree, Without, Types, Versions, SupportedGroups, Signatures, Shares, Protocols,
         Settings, PointFormats, PskModes, Compressions, Hashes, Report, FieldNames;
    ReportNames(a, b, n, 0);
    ReportNames(a, b, n, 1);
    ReportNames(a, b, n, 2);
    ReportNames(a, b, n, 3);
    ReportNames(a, b, n, 4);
    ReportNames(a, b, n, 5);
    ReportNames(a, b, n, 6);
    ReportNames(a, b, n, 7);
    ReportNames(a, b, n, 8);
    ReportNames(a, b, n, 9);
    ReportNames(a, b, n, 10);
    ReportNames(a, b, n, 11);
  }

  /** Nothing is reported exactly when the hellos agree on everything: on JA4; on ciphers, versions, groups,
      signature algorithms and shares in order, reserved values aside; on protocols, settings, point formats,
      key exchange modes and compressions; and on how often each extension type that is not reserved occurs. */
  lemma SameMeansAgreement(a: Hello, b: Hello, n: Naming)
    requires Telling(n)
    ensures Same(a, b, n) <==>
            var x, y := a.extensions, b.extensions;
            && Hashes(a, n.hash) == Hashes(b, n.hash)
            && Without(a.cipherSuites) == Without(b.cipherSuites)
            && multiset(Without(Types(x))) == multiset(Without(Types(y)))
            && Without(Versions(x)) == Without(Versions(y))
            && Without(SupportedGroups(x)) == Without(SupportedGroups(y))
            && Without(Signatures(x)) == Without(Signatures(y))
            && Without(Shares(x)) == Without(Shares(y))
            && Protocols(x) == Protocols(y) && Settings(x) == Settings(y)
            && PointFormats(x) == PointFormats(y) && PskModes(x) == PskModes(y)
            && Compressions(x) == Compressions(y)
  {
    AgreeIs(a, b, n);
    hide Same, Telling, Agree, Without, Types, Versions, SupportedGroups, Signatures, Shares, Protocols, Settings,
         PointFormats, PskModes, Compressions, Hashes;
    SameIsAgreement(a, b, n);
    AgreeOnAll(a, b, n);
  }

  lemma SameIsAgreement(a: Hello, b: Hello, n: Naming)
    requires Telling(n)
    ensures Same(a, b, n) <==> forall i :: 0 <= i < 12 ==> Agree(a, b, n, i)
  {
    hide TLSFields, Telling, Matches, Agree, Report;
    FieldsAreNamed(a, n);
    FieldsAreNamed(b, n);
    EmptyMeansMatching(TLSFields(a, n), TLSFields(b, n));
    forall i | 0 <= i < 12
      ensures Matches(TLSFields(a, n)[i], TLSFields(b, n)[i]) <==> Agree(a, b, n, i)
    {
      FieldMatches(a, b, n, i);
    }
  }

  lemma AgreeOnAll(a: Hello, b: Hello, n: Naming)
    ensures (forall i :: 0 <= i < 12 ==> Agree(a, b, n, i)) <==>
            && Agree(a, b, n, 0) && Agree(a, b, n, 1) && Agree(a, b, n, 2) && Agree(a, b, n, 3)
            && Agree(a, b, n, 4) && Agree(a, b, n, 5) && Agree(a, b, n, 6) && Agree(a, b, n, 7)
            && Agree(a, b, n, 8) && Agree(a, b, n, 9) && Agree(a, b, n, 10) && Agree(a, b, n, 11)
  {
    hide Agree;
  }

  // ---------------------------------------------------------------------------------------------
  // What is shown of a difference.

  /** The values with a comma and a space between any two. */
  function Joined(values: seq<string>): string {
    if values == [] then ""
    else if |values| == 1 then values[0]
    else Joined(values[..|values| - 1]) + ", " + values[|values| - 1]
  }

  lemma {:induction false} JoinIs(values: seq<string>)
    ensures JoinComma(values) == Joined(values)
  {
    if |values| > 1 {
      JoinIs(values[1..]);
      JoinedCons(values);
    }
  }

  lemma {:induction false} JoinedCons(values: seq<string>)
    requires |values| > 1
    ensures Joined(values) == values[0] + ", " + Joined(values[1..])
  {
    if |values| > 2 {
      var m := |values| - 1;
      JoinedCons(values[..m]);
      assert values[..m][1..] == values[1..][..m - 1];
      assert values[1..][m - 1] == values[m];
    } else {
      assert values[..1] == [values[0]] && values[1..] == [values[1]];
    }
  }

  /** A text that shows these values: in their order, or sorted where the order means nothing. */
  ghost predicate Shows(text: string, values: seq<string>, unordered: bool) {
    exists shown :: ShowsAs(text, values, unordered, shown)
  }

  ghost predicate ShowsAs(text: string, values: seq<string>, unordered: bool, shown: seq<string>) {
    && text == (if shown == [] then "(none)" else Joined(shown))
    && (if unordered then Sorted(StringLe, shown) && multiset(shown) == multiset(values) else shown == values)
  }

  lemma FieldShows(f: Field)
    ensures Shows(RenderField(f), f.values, f.unordered)
  {
    hide Joined, JoinComma, Sort, StringLe;
    var shown := if f.unordered then Sort(StringLe, f.values) else f.values;
    JoinIs(shown);
    StringLeIsTotal();
    SortSorts(StringLe, f.values);
    assert ShowsAs(RenderField(f), f.values, f.unordered, shown);
  }

  /** A difference shows the reference's values as its reference and the candidate's as its candidate; and for a
      list what the candidate lacks is missing and what it has too much of is extra. */
  lemma TheDifferenceShows(want: Field, got: Field)
    requires Differ(want, got).Some? && want.unordered == got.unordered
    ensures var d := Differ(want, got).value;
            && d.field == want.name
            && Shows(d.reference, want.values, want.unordered) && Shows(d.candidate, got.values, got.unordered)
            && (want.scalar ==> d.missing == [] && d.extra == [] && d.reference != d.candidate)
            && (!want.scalar ==> multiset(d.missing) == multiset(want.values) - multiset(got.values) &&
                                 multiset(d.extra) == multiset(got.values) - multiset(want.values))
  {
    FieldShows(want);
    FieldShows(got);
    if !want.scalar {
      DifferenceSaysWhat(want, got);
    }
    hide Shows, Render, Remaining;
  }
}
