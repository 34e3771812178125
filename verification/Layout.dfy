/** The header block of one request as the transport takes it: values by wire name, and an order. */
module Layout {
  import opened Common
  import opened Text
  import opened Headers
  import opened HeaderLaws
  import opened Capture

  // ---------------------------------------------------------------------------------------------
  // Spelling a name nobody measured.

  predicate IsTokenChar(c: char) {
    'a' <= c <= 'z' || 'A' <= c <= 'Z' || IsDigit(c) ||
    c in {'!', '#', '$', '%', '&', '\'', '*', '+', '-', '.', '^', '_', '`', '|', '~'}
  }

  predicate IsToken(n: string) {
    forall c <- n :: IsTokenChar(c)
  }

  /** Upper case first and after every hyphen, lower case elsewhere. */
  function Capitalised(n: string): (s: string)
    ensures |s| == |n|
  {
    seq(|n|, i requires 0 <= i < |n| => if i == 0 || n[i - 1] == '-' then UpperChar(n[i]) else LowerChar(n[i]))
  }

  /** What is no token stays as it is. */
  function Canonical(n: string): string {
    if IsToken(n) then Capitalised(n) else n
  }

  lemma LowerOfUpper(c: char)
    requires LowerChar(c) == c
    ensures LowerChar(UpperChar(c)) == c
  {
  }

  lemma CanonicalIsASpelling(n: string)
    requires Lower(n) == n
    ensures Lower(Canonical(n)) == n
  {
    hide IsToken, LowerChar, UpperChar;
    if IsToken(n) {
      forall i | 0 <= i < |n|
        ensures Lower(Canonical(n))[i] == n[i]
      {
        assert Lower(n)[i] == n[i];
        LowerOfUpper(n[i]);
      }
    }
  }

  /** What may stand in a field name, as section 5.6.2 of RFC 9110 has it. */
  predicate MayStandInAName(c: char) {
    'a' <= c <= 'z' || 'A' <= c <= 'Z' || '0' <= c <= '9' || c in "!#$%&'*+-.^_`|~"
  }

  lemma TokenCharsAre(c: char)
    ensures IsTokenChar(c) <==> MayStandInAName(c)
  {
  }

  lemma LettersAre(c: char)
    ensures UpperChar(c) as int == if 'a' <= c <= 'z' then c as int - 32 else c as int
    ensures LowerChar(c) as int == if 'A' <= c <= 'Z' then c as int + 32 else c as int
  {
  }

  predicate IsName(n: string) {
    forall c <- n :: MayStandInAName(c)
  }

  lemma NamesAreTokens(n: string)
    ensures IsName(n) <==> IsToken(n)
  {
    hide IsTokenChar, MayStandInAName;
    forall c | c in n
      ensures IsTokenChar(c) <==> MayStandInAName(c)
    {
      TokenCharsAre(c);
    }
  }

  lemma CapitalisedAt(n: string, i: nat)
    requires i < |n|
    ensures Capitalised(n)[i] == if i == 0 || n[i - 1] == '-' then UpperChar(n[i]) else LowerChar(n[i])
  {
    hide UpperChar, LowerChar;
  }

  /** Letter by letter: capitals at the beginning and after every hyphen, small letters elsewhere, and every other
      character as it is; what is no name is not touched. */
  lemma HowANameIsSpelled(n: string, i: nat)
    requires i < |n|
    ensures |Canonical(n)| == |n| && (!IsName(n) ==> Canonical(n) == n)
    ensures var c, capital := n[i], i == 0 || n[i - 1] == '-';
            IsName(n) ==>
              Canonical(n)[i] as int == if capital && 'a' <= c <= 'z' then c as int - 32
                                        else if !capital && 'A' <= c <= 'Z' then c as int + 32
                                        else c as int
  {
    hide IsName, IsToken, Capitalised, UpperChar, LowerChar;
    NamesAreTokens(n);
    CapitalisedAt(n, i);
    LettersAre(n[i]);
  }

  // ---------------------------------------------------------------------------------------------
  // Layouts.

  datatype Block = Block(fields: map<string, seq<string>>, order: seq<string>)

  /** The order lists each name once, in lower case, and each name has one spelling. */
  ghost predicate WellFormed(b: Block) {
    && Distinct(b.order)
    && (forall k <- b.fields :: Lower(k) in b.order)
    && (forall n <- b.order :: exists k <- b.fields :: Lower(k) == n)
    && (forall k, l :: k in b.fields && l in b.fields && Lower(k) == Lower(l) ==> k == l)
  }

  const NO_FIELDS := Block(map[], [])

  function Put(b: Block, wireName: string, n: string, values: seq<string>): Block {
    Block(b.fields[wireName := values], b.order + [n])
  }

  lemma PutIsWellFormed(b: Block, wireName: string, n: string, values: seq<string>)
    requires WellFormed(b) && Lower(wireName) == n && n !in b.order
    ensures WellFormed(Put(b, wireName, n, values))
  {
    var c := Put(b, wireName, n, values);
    forall m | m in c.order
      ensures exists k <- c.fields :: Lower(k) == m
    {
      if m == n {
        assert wireName in c.fields;
      } else {
        var k :| k in b.fields && Lower(k) == m;
        assert k in c.fields;
      }
    }
  }

  // ---------------------------------------------------------------------------------------------
  // The profile's own header list, and the layout of a request.

  function ResolvedBlocks(resolved: Header, names: seq<string>): Header {
    if names == [] then []
    else ResolvedBlocks(resolved, names[..|names| - 1]) +
         (if names[|names| - 1] == "host" then [] else Headers.Block(resolved, names[|names| - 1]))
  }

  /** What `profileHTTP1Headers` makes of a profile with an HTTP/1.1 part. */
  function HTTP1Headers(shared: Header, http1: HTTP1): Header {
    ResolvedBlocks(Layered(shared, http1.headers), Lowered(http1.headerOrder))
  }

  function Lowered(names: seq<string>): (ns: seq<string>)
    ensures |ns| == |names| && forall i :: 0 <= i < |names| ==> ns[i] == Lower(names[i])
  {
    seq(|names|, i requires 0 <= i < |names| => Lower(names[i]))
  }

  lemma ResolvedSnoc(resolved: Header, names: seq<string>, n: string)
    ensures ResolvedBlocks(resolved, []) == []
    ensures ResolvedBlocks(resolved, names + [n]) ==
            ResolvedBlocks(resolved, names) + (if n == "host" then [] else Headers.Block(resolved, n))
  {
    assert (names + [n])[..|names|] == names;
  }

  method ProfileHTTP1Headers(shared: Header, http1: Option<HTTP1>) returns (out: Header)
    ensures out == if http1.None? then shared else HTTP1Headers(shared, http1.value)
  {
    if http1.None? {
      return shared;
    }
    var resolved := Merge(shared, http1.value.headers);
    out := Resolve(resolved, http1.value.headerOrder);
  }

  method Resolve(resolved: Header, order: seq<string>) returns (out: Header)
    ensures out == ResolvedBlocks(resolved, Lowered(order))
  {
    hide ResolvedBlocks, Headers.Block, Lower;
    ghost var names := Lowered(order);
    out := [];
    ResolvedSnoc(resolved, [], "host");
    assert names[..0] == [];
    for i := 0 to |order|
      invariant out == ResolvedBlocks(resolved, names[..i])
    {
      var name := Lower(order[i]);
      assert names[..i + 1] == names[..i] + [name];
      ResolvedSnoc(resolved, names[..i], name);
      if name == "host" {
        continue;
      }
      var block := ValueFields(resolved, name);
      out := out + block;
    }
    assert names[..|names|] == names;
  }

  method ValueFields(resolved: Header, name: string) returns (out: Header)
    ensures out == Headers.Block(resolved, name)
  {
    hide Values;
    var values := Values(resolved, name);
    out := [];
    for i := 0 to |values|
      invariant out == Spell(name, values[..i])
    {
      assert Spell(name, values[..i + 1]) == Spell(name, values[..i]) + [Field(name, values[i])];
      out := out + [Field(name, values[i])];
    }
    assert values[..|values|] == values;
  }

  /** The value of Host: the caller's last one, or the host of the URL. */
  function HostOf(headers: Header, host: string): string {
    var hosts := Values(headers, "host");
    if hosts == [] then host else hosts[|hosts| - 1]
  }

  /** The last of the caller's own, or the URL's where the caller has none. */
  lemma WhoseHost(headers: Header, host: string)
    ensures Values(headers, "host") == [] ==> HostOf(headers, host) == host
    ensures forall front, last :: Values(headers, "host") == front + [last] ==> HostOf(headers, host) == last
  {
    hide Values;
  }

  function ValuesToSend(headers: Header, host: string, n: string): seq<string> {
    if n == "host" then [HostOf(headers, host)] else Values(headers, n)
  }

  /** The names that were measured, where there is something to send under them. */
  function Measuredly(headers: Header, host: string, wireNames: seq<string>): Block {
    if wireNames == [] then NO_FIELDS
    else
      var front := Measuredly(headers, host, wireNames[..|wireNames| - 1]);
      var wireName := wireNames[|wireNames| - 1];
      var values := ValuesToSend(headers, host, Lower(wireName));
      if values == [] then front else Put(front, wireName, Lower(wireName), values)
  }

  /** The other names, in canonical spelling, as they first occur. */
  function Unmeasured(headers: Header, b: Block, part: Header): Block {
    if part == [] then b
    else
      var front := Unmeasured(headers, b, part[..|part| - 1]);
      var n := Key(part[|part| - 1]);
      if n in front.order || n == "host" then front else Put(front, Canonical(n), n, Values(headers, n))
  }

  function LayoutOf(headers: Header, measured: seq<string>, host: string): Block {
    Unmeasured(headers, Measuredly(headers, host, measured), headers)
  }

  method MeasuredHTTP1Layout(headers: Header, measured: seq<string>, host: string) returns (b: Block)
    ensures b == LayoutOf(headers, measured, host)
  {
    var target := HostOf(headers, host);
    var out: map<string, seq<string>> := map[];
    var order: seq<string> := [];
    var seen: set<string> := {};
    for i := 0 to |measured|
      invariant Block(out, order) == Measuredly(headers, host, measured[..i])
      invariant forall n :: n in seen <==> n in order
    {
      assert measured[..i + 1][..i] == measured[..i];
      var name := Lower(measured[i]);
      var fieldValues := if name == "host" then [target] else Values(headers, name);
      if fieldValues == [] {
        continue;
      }
      out := out[measured[i] := fieldValues];
      order := order + [name];
      seen := seen + {name};
    }
    assert measured[..|measured|] == measured;
    for i := 0 to |headers|
      invariant Block(out, order) == Unmeasured(headers, Measuredly(headers, host, measured), headers[..i])
      invariant forall n :: n in seen <==> n in order
    {
      assert headers[..i + 1][..i] == headers[..i];
      var name := Key(headers[i]);
      if name in seen || name == "host" {
        continue;
      }
      out := out[Canonical(name) := Values(headers, name)];
      order := order + [name];
      seen := seen + {name};
    }
    assert headers[..|headers|] == headers;
    b := Block(out, order);
  }
}
