/** The cookies.txt format column by column: what a written row looks like and what a row that is read says. */
module NetscapeText {
  import opened Common
  import opened Text
  import opened Netscape
  import opened NetscapeRoundTrip

  // ---------------------------------------------------------------------------------------------
  // Writing.

  function TrueOrFalse(yes: bool): string {
    if yes then "TRUE" else "FALSE"
  }

  /** A number as the format writes it. */
  function Signed(n: int): string {
    if n < 0 then ['-'] + Decimal(-n) else Decimal(n)
  }

  function Seven(a: string, b: string, c: string, d: string, e: string, f: string, g: string): string {
    a + ['\t'] + (b + ['\t'] + (c + ['\t'] + (d + ['\t'] + (e + ['\t'] + (f + ['\t'] + g)))))
  }

  lemma RowOfSeven(a: string, b: string, c: string, d: string, e: string, f: string, g: string)
    ensures Row([a, b, c, d, e, f, g]) == Seven(a, b, c, d, e, f, g)
  {
    hide Row;
    RowCons(f, [g]);
    OneField(g);
    RowCons(e, [f, g]);
    RowCons(d, [e, f, g]);
    RowCons(c, [d, e, f, g]);
    RowCons(b, [c, d, e, f, g]);
    RowCons(a, [b, c, d, e, f, g]);
    assert [f] + [g] == [f, g] && [e] + [f, g] == [e, f, g] && [d] + [e, f, g] == [d, e, f, g];
    assert [c] + [d, e, f, g] == [c, d, e, f, g] && [b] + [c, d, e, f, g] == [b, c, d, e, f, g];
    assert [a] + [b, c, d, e, f, g] == [a, b, c, d, e, f, g];
  }

  lemma OneField(g: string)
    ensures Row([g]) == g
  {
  }

  /** The row of a cookie: domain, whether it covers subdomains, path, whether it is secure, expiry, name, value;
      behind a mark if it is for HTTP only. No path is the root, no expiry is 0. */
  lemma HowACookieIsWritten(c: Cookie)
    ensures Line(c) ==
            Seven((if c.httpOnly then "#HttpOnly_" else "") + c.domain,
                  TrueOrFalse(c.domain != "" && c.domain[0] == '.'),
                  if c.path == "" then "/" else c.path,
                  TrueOrFalse(c.secure),
                  Signed(if c.expires.None? then 0 else c.expires.value.seconds),
                  c.name,
                  c.value)
  {
    hide Row, Seconds, Decimal;
    var f := Front(c);
    assert f + [c.value] == [f[0], f[1], f[2], f[3], f[4], f[5], c.value];
    RowOfSeven(f[0], f[1], f[2], f[3], f[4], f[5], c.value);
    assert "" + c.domain == c.domain;
    SecondsAre(if c.expires.None? then 0 else c.expires.value.seconds);
  }

  lemma SecondsAre(n: int)
    ensures Seconds(n) == Signed(n)
  {
  }

  /** A file is two comment lines, an empty one, and the rows, each on a line of its own. */
  lemma HowAFileIsWritten(cookies: seq<Cookie>, c: Cookie)
    ensures Encode([]) == "# Netscape HTTP Cookie File\n" +
                          ("# Written by tls-forge. Every line is seven tab-separated fields.\n" + "\n")
    ensures Encode(cookies + [c]) == Encode(cookies) + (Line(c) + ['\n'])
  {
    hide Line, Lines;
    LinesSnoc(cookies, c);
    HeaderIs();
    assert HEADER + (Lines(cookies) + (Line(c) + ['\n'])) == HEADER + Lines(cookies) + (Line(c) + ['\n']);
    assert HEADER + "" == HEADER;
  }

  lemma SecondLineIs()
    ensures HEADER1 + "\n" == "# Written by tls-forge. Every line is seven tab-separated fields.\n"
  {
    assert "# Written by tls-forge. " + "Every line is seven " ==
           "# Written by tls-forge. Every line is seven ";
    assert "# Written by tls-forge. Every line is seven " + "tab-separated fields." ==
           "# Written by tls-forge. Every line is seven tab-separated fields.";
  }

  lemma HeaderIs()
    ensures HEADER == "# Netscape HTTP Cookie File\n" +
                      ("# Written by tls-forge. Every line is seven tab-separated fields.\n" + "\n")
  {
    SecondLineIs();
    assert HEADER0 + "\n" == "# Netscape HTTP Cookie File\n";
    Associate(HEADER0 + "\n", HEADER1, "\n", "\n");
  }

  lemma Associate(a: string, b: string, c: string, d: string)
    ensures a + b + c + d == a + ((b + c) + d)
  {
  }

  // ---------------------------------------------------------------------------------------------
  // Reading.

  /** What a row comes to. A word is meant in any case and with white space around it. */
  predicate IsRead(r: Result<Cookie, Error>, domain: string, subdomains: string, path: string, secure: string,
                   expiry: Option<int>, name: string, value: string, httpOnly: bool) {
    if expiry.None? then r == Err(NotAnExpiry)
    else if name == "" then r == Err(NoName)
    else if subdomains != "true" && subdomains != "false" then r == Err(NotTrueOrFalse)
    else
      && r.Ok?
      && r.value.name == name && r.value.value == value && r.value.path == path && r.value.httpOnly == httpOnly
      && r.value.domain == (if subdomains == "true" && (domain == "" || domain[0] != '.') then "." + domain else domain)
      && (r.value.secure <==> secure == "true")
      && (expiry.value <= 0 ==> r.value.expires == None)
      && (expiry.value > 0 ==> r.value.expires.Some? && r.value.expires.value.seconds == expiry.value &&
                               r.value.expires.value.nanos == 0)
  }

  lemma WordsAre()
    ensures Lower("TRUE") == "true" && Lower("FALSE") == "false"
  {
    assert |Lower("TRUE")| == 4 && |Lower("FALSE")| == 5;
    assert Lower("TRUE")[0] == 't' && Lower("TRUE")[1] == 'r' && Lower("TRUE")[2] == 'u' && Lower("TRUE")[3] == 'e';
    assert Lower("FALSE")[0] == 'f' && Lower("FALSE")[1] == 'a' && Lower("FALSE")[2] == 'l';
    assert Lower("FALSE")[3] == 's' && Lower("FALSE")[4] == 'e';
  }

  lemma SevenFields(a: string, b: string, c: string, d: string, e: string, f: string, g: string, httpOnly: bool)
    ensures IsRead(ParseFields([a, b, c, d, e, f, g], httpOnly), a, Lower(Trim(b)), c, Lower(Trim(d)),
                   ParseInt(Trim(e)), f, g, httpOnly)
  {
    WordsAre();
    hide Lower, Trim, ParseInt;
  }

  /** A row that is read, column by column, with all that can be wrong with it. An expiry that is not positive is
      none; a domain that covers its subdomains gets a dot if it has none. Behind the mark a cookie is for HTTP
      only; a row without it must not begin like a comment. Line ends behind the value are not part of the row. */
  lemma WhatARowSays(a: string, b: string, c: string, d: string, e: string, f: string, g: string, httpOnly: bool,
                     raw: string, i: nat)
    requires '\t' !in a && '\t' !in b && '\t' !in c && '\t' !in d && '\t' !in e && '\t' !in f && '\t' !in g
    requires raw == (if httpOnly then "#HttpOnly_" else "") + Seven(a, b, c, d, e, f, g)
    requires |raw| < 4194304 && (httpOnly || !StartsWithHash(raw)) && i < |raw| && !IsSpace(raw[i])
    requires raw[|raw| - 1] != '\r' && raw[|raw| - 1] != '\n'
    ensures exists r :: ParseLine(raw) == Found(r) &&
                        IsRead(r, a, Lower(Trim(b)), c, Lower(Trim(d)), ParseInt(Trim(e)), f, g, httpOnly)
  {
    hide Row, Split, Trim, TrimEnds, TrimLeft, ParseInt, ParseFields, StartsWithHash, Seven, ParseLine, IsRead, Lower;
    var row := Seven(a, b, c, d, e, f, g);
    RowOfSeven(a, b, c, d, e, f, g);
    SplitRow([a, b, c, d, e, f, g]);
    NothingTrimmed(raw, i);
    assert "" + row == row;
    ReadAsRow(raw, raw, row, httpOnly);
    SevenFields(a, b, c, d, e, f, g, httpOnly);
  }

  lemma NothingTrimmed(raw: string, i: nat)
    requires i < |raw| && !IsSpace(raw[i]) && raw[|raw| - 1] != '\r' && raw[|raw| - 1] != '\n'
    ensures TrimEnds(raw) == raw && TrimLeft(raw) != ""
  {
    hide IsSpace;
    NotAllSpace(raw, i);
  }

  lemma TrimLeftStep(s: string)
    ensures TrimLeft(s) == if s == "" || !IsSpace(s[0]) then s else TrimLeft(s[1..])
  {
  }

  lemma {:induction false} NotAllSpace(s: string, i: nat)
    requires i < |s| && !IsSpace(s[i])
    ensures TrimLeft(s) != ""
  {
    hide IsSpace, TrimLeft;
    TrimLeftStep(s);
    if i > 0 {
      assert s[1..][i - 1] == s[i];
      NotAllSpace(s[1..], i - 1);
    }
  }

  lemma {:induction false} AllSpace(s: string)
    requires forall i :: 0 <= i < |s| ==> IsSpace(s[i])
    ensures TrimLeft(s) == ""
  {
    hide IsSpace, TrimLeft;
    TrimLeftStep(s);
    if s != "" {
      AllSpace(s[1..]);
    }
  }

  lemma BlankIsPassedOver(raw: string)
    requires |raw| < 4194304 && forall i :: 0 <= i < |raw| ==> IsSpace(raw[i])
    ensures ParseLine(raw) == Ok(None)
  {
    hide TrimLeft, IsSpace, Split, TrimEnds, ParseFields;
    AllSpace(TrimEnds(raw));
  }

  lemma CommentIsPassedOver(raw: string)
    requires 0 < |raw| < 4194304 && raw[0] == '#' && !("#HttpOnly_" <= raw)
    requires raw[|raw| - 1] != '\r' && raw[|raw| - 1] != '\n'
    ensures ParseLine(raw) == Ok(None)
  {
    hide TrimLeft, IsSpace, Split, TrimEnds, ParseFields;
    NoSpaceIsAHash();
    NothingTrimmed(raw, 0);
    TrimLeftStep(raw);
  }

  /** Blank lines and comments are passed over; a line too long ends the reading. */
  lemma WhatIsPassedOver(raw: string)
    ensures |raw| >= 4194304 ==> ParseLine(raw) == Err(TooLong)
    ensures (|raw| < 4194304 && forall i :: 0 <= i < |raw| ==> IsSpace(raw[i])) ==> ParseLine(raw) == Ok(None)
    ensures (0 < |raw| < 4194304 && raw[0] == '#' && !("#HttpOnly_" <= raw) && raw[|raw| - 1] != '\r' &&
             raw[|raw| - 1] != '\n') ==> ParseLine(raw) == Ok(None)
  {
    if |raw| < 4194304 {
      hide ParseLine, IsSpace;
      if forall i :: 0 <= i < |raw| ==> IsSpace(raw[i]) {
        BlankIsPassedOver(raw);
      } else if raw[0] == '#' && !("#HttpOnly_" <= raw) && raw[|raw| - 1] != '\r' && raw[|raw| - 1] != '\n' {
        CommentIsPassedOver(raw);
      }
    }
  }

  /** A row of fewer than seven columns is refused. */
  lemma TooFewColumns(fields: seq<string>, raw: string, i: nat)
    requires 0 < |fields| < 7 && (forall f <- fields :: '\t' !in f) && raw == Row(fields)
    requires |raw| < 4194304 && !StartsWithHash(raw) && i < |raw| && !IsSpace(raw[i])
    requires raw[|raw| - 1] != '\r' && raw[|raw| - 1] != '\n'
    ensures ParseLine(raw) == Err(FewFields)
  {
    hide Row, Split, Trim, TrimEnds, TrimLeft, StartsWithHash, ParseLine;
    SplitRow(fields);
    NothingTrimmed(raw, i);
    ReadAsRow(raw, raw, raw, false);
  }

  // ---------------------------------------------------------------------------------------------
  // Whole files.

  /** The cookies of the first `k` lines. */
  function CookiesOf(lines: seq<string>, k: nat): seq<Cookie>
    requires k <= |lines|
  {
    if k == 0 then []
    else
      var r := ParseLine(lines[k - 1]);
      CookiesOf(lines, k - 1) + (if r.Ok? && r.value.Some? then [r.value.value] else [])
  }

  lemma {:induction false} LinesUpTo(lines: seq<string>, k: nat)
    requires k <= |lines| && forall j :: 0 <= j < k ==> ParseLine(lines[j]).Ok?
    ensures ParseLines(lines) == Before(CookiesOf(lines, k), ParseLines(lines[k..]))
  {
    hide ParseLine;
    if k == 0 {
      assert lines[0..] == lines;
      BeforeMore([], Cookie("", "", "", "", false, false, None), ParseLines(lines));
    } else {
      LinesUpTo(lines, k - 1);
      assert lines[k - 1..] == [lines[k - 1]] + lines[k..];
      ParseLinesStep(lines[k - 1], lines[k..]);
      var r, rest := ParseLine(lines[k - 1]), ParseLines(lines[k..]);
      if r.value.Some? {
        BeforeMore(CookiesOf(lines, k - 1), r.value.value, rest);
      } else {
        assert CookiesOf(lines, k - 1) + [] == CookiesOf(lines, k - 1);
      }
    }
  }

  /** A file that is nothing but white space is empty, and one that begins like JSON is none of these. Of any other
      the first line that is wrong is the error; where none is, the cookies of all its lines are the set, in order,
      as long as there are any. */
  lemma WhatAFileSays(data: string, k: nat)
    requires var lines := Split(Trim(data), '\n'); k <= |lines| && forall j :: 0 <= j < k ==> ParseLine(lines[j]).Ok?
    ensures var lines := Split(Trim(data), '\n');
            && (Trim(data) == "" ==> Load(data) == Err(Empty))
            && (Trim(data) != "" && Trim(data)[0] in {'{', '['} ==> Load(data) == Err(IsJSON))
            && (Trim(data) != "" && Trim(data)[0] !in {'{', '['} ==>
                  && (k < |lines| && ParseLine(lines[k]).Err? ==> Load(data) == Err(ParseLine(lines[k]).error))
                  && (k == |lines| && CookiesOf(lines, k) == [] ==> Load(data) == Err(NoCookies))
                  && (k == |lines| && CookiesOf(lines, k) != [] ==>
                        Load(data) == Ok(Set("1", "read from a Netscape cookie file", CookiesOf(lines, k)))))
  {
    hide Split, Trim, ParseLine, CookiesOf;
    var lines := Split(Trim(data), '\n');
    LinesUpTo(lines, k);
    if k < |lines| {
      assert lines[k..] == [lines[k]] + lines[k + 1..];
      ParseLinesStep(lines[k], lines[k + 1..]);
      BeforeErr(CookiesOf(lines, k));
    } else {
      ParseLinesStep("", []);
      BeforeNothing(CookiesOf(lines, k));
    }
  }
}
