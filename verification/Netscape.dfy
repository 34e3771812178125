/** The Netscape cookie file: writing a set down, reading one back, and exactly when that is the same set. */
module Netscape {
  import opened Common
  import opened Text

  type int64 = x: int | -0x8000_0000_0000_0000 <= x <= 0x7FFF_FFFF_FFFF_FFFF

  /** A moment; the zero time is no date at all and is `None` where a moment is optional. */
  datatype Instant = Instant(seconds: int64, nanos: nat)

  datatype Cookie = Cookie(name: string, value: string, domain: string, path: string,
                           secure: bool, httpOnly: bool, expires: Option<Instant>)

  datatype Set = Set(id: string, note: string, cookies: seq<Cookie>)

  datatype Error = Empty | IsJSON | TooLong | FewFields | NotAnExpiry | NoName | NotTrueOrFalse | NoCookies

  const HTTP_ONLY := "#HttpOnly_"
  const NOTE := "read from a Netscape cookie file"
  const MAX_LINE := 4194304
  const HEADER0 := "# Netscape HTTP Cookie File"
  const HEADER1 := "# Written by tls-forge. " + "Every line is seven " + "tab-separated fields."
  const HEADER := HEADER0 + "\n" + HEADER1 + "\n" + "\n"

  // ---------------------------------------------------------------------------------------------
  // Writing.

  function Row(fields: seq<string>): string
    requires fields != []
  {
    if |fields| == 1 then fields[0] else fields[0] + ['\t'] + Row(fields[1..])
  }

  function Upper(yes: bool): string {
    if yes then "TRUE" else "FALSE"
  }

  function Seconds(n: int): string {
    if n < 0 then "-" + Decimal(-n) else Decimal(n)
  }

  predicate Dotted(domain: string) {
    domain != [] && domain[0] == '.'
  }

  function PathOf(c: Cookie): string {
    if c.path == "" then "/" else c.path
  }

  /** The domain as it is written. */
  function HeadOf(c: Cookie): string {
    if c.httpOnly then HTTP_ONLY + c.domain else c.domain
  }

  /** Six fields of the row; the value is the seventh. */
  function Front(c: Cookie): (f: seq<string>)
    ensures |f| == 6
  {
    [HeadOf(c),
     Upper(Dotted(c.domain)),
     PathOf(c),
     Upper(c.secure),
     Seconds(if c.expires.None? then 0 else c.expires.value.seconds),
     c.name]
  }

  function Line(c: Cookie): string {
    Row(Front(c) + [c.value])
  }

  function Lines(cookies: seq<Cookie>): string {
    if cookies == [] then "" else Line(cookies[0]) + ['\n'] + Lines(cookies[1..])
  }

  function Encode(cookies: seq<Cookie>): string {
    HEADER + Lines(cookies)
  }

  lemma {:induction false} LinesSnoc(cookies: seq<Cookie>, c: Cookie)
    ensures Lines([]) == ""
    ensures Lines(cookies + [c]) == Lines(cookies) + (Line(c) + ['\n'])
  {
    hide Line;
    if cookies == [] {
      assert [c][1..] == [] && [] + [c] == [c];
    } else {
      LinesSnoc(cookies[1..], c);
      assert (cookies + [c])[1..] == cookies[1..] + [c];
    }
  }

  method EncodeNetscape(cookies: seq<Cookie>) returns (b: string)
    ensures b == Encode(cookies)
  {
    hide Row, Lines, Seconds;
    b := HEADER;
    LinesSnoc([], Cookie("", "", "", "", false, false, None));
    for i := 0 to |cookies|
      invariant b == HEADER + Lines(cookies[..i])
    {
      var c := cookies[i];
      LinesSnoc(cookies[..i], c);
      assert cookies[..i + 1] == cookies[..i] + [c];
      var domain := c.domain;
      if c.httpOnly {
        domain := HTTP_ONLY + domain;
      }
      var path := c.path;
      if path == "" {
        path := "/";
      }
      var expires := 0;
      if c.expires.Some? {
        expires := c.expires.value.seconds;
      }
      var row := [domain, Upper(Dotted(c.domain)), path, Upper(c.secure), Seconds(expires), c.name, c.value];
      assert row == Front(c) + [c.value];
      Regroup(HEADER, Lines(cookies[..i]), Row(row) + ['\n']);
      b := b + (Row(row) + ['\n']);
    }
    assert cookies[..|cookies|] == cookies;
  }

  lemma Regroup(a: string, b: string, c: string)
    ensures a + (b + c) == (a + b) + c
  {
  }

  // ---------------------------------------------------------------------------------------------
  // Reading.

  /** Carriage returns and line feeds at the end do not belong to the line. */
  function TrimEnds(s: string): (t: string)
    ensures t <= s
    ensures t != [] ==> t[|t| - 1] != '\r' && t[|t| - 1] != '\n'
  {
    if s == [] || (s[|s| - 1] != '\r' && s[|s| - 1] != '\n') then s else TrimEnds(s[..|s| - 1])
  }

  predicate IsWord(s: string, word: string) {
    Lower(Trim(s)) == Lower(word)
  }

  function ParseFields(fields: seq<string>, httpOnly: bool): Result<Cookie, Error> {
    if |fields| < 7 then Err(FewFields)
    else
      var expires := ParseInt(Trim(fields[4]));
      if expires.None? then Err(NotAnExpiry)
      else if fields[5] == "" then Err(NoName)
      else if !IsWord(fields[1], "TRUE") && !IsWord(fields[1], "FALSE") then Err(NotTrueOrFalse)
      else
        var domain := if IsWord(fields[1], "TRUE") && !Dotted(fields[0]) then "." + fields[0] else fields[0];
        Ok(Cookie(fields[5], fields[6], domain, fields[2], IsWord(fields[3], "TRUE"), httpOnly,
                  if expires.value > 0 then Some(Instant(expires.value, 0)) else None))
  }

  predicate StartsWithHash(s: string) {
    var t := TrimLeft(s);
    t != [] && t[0] == '#'
  }

  /** One line: nothing, a cookie, or the end of the reading. */
  function ParseLine(raw: string): Result<Option<Cookie>, Error> {
    if |raw| >= MAX_LINE then Err(TooLong)
    else
      var text := TrimEnds(raw);
      if TrimLeft(text) == [] then Ok(None)
      else if HTTP_ONLY <= text then Found(ParseFields(Split(text[|HTTP_ONLY|..], '\t'), true))
      else if StartsWithHash(text) then Ok(None)
      else Found(ParseFields(Split(text, '\t'), false))
  }

  function Found(r: Result<Cookie, Error>): Result<Option<Cookie>, Error> {
    match r
    case Ok(c) => Ok(Some(c))
    case Err(e) => Err(e)
  }

  function ParseLines(lines: seq<string>): Result<seq<Cookie>, Error> {
    if lines == [] then Ok([]) else Onto(ParseLine(lines[0]), ParseLines(lines[1..]))
  }

  /** What a line puts before what the lines after it come to. */
  function Onto(line: Result<Option<Cookie>, Error>, r: Result<seq<Cookie>, Error>): Result<seq<Cookie>, Error> {
    if line.Err? then Err(line.error)
    else if line.value.None? then r
    else Before([line.value.value], r)
  }

  function Before(cookies: seq<Cookie>, r: Result<seq<Cookie>, Error>): Result<seq<Cookie>, Error> {
    if r.Ok? then Ok(cookies + r.value) else r
  }

  function LoadBody(body: string): Result<Set, Error> {
    match ParseLines(Split(body, '\n'))
    case Err(e) => Err(e)
    case Ok(cookies) => if cookies == [] then Err(NoCookies) else Ok(Set("1", NOTE, cookies))
  }

  /** The whole file is trimmed before anything is looked at. */
  function Load(data: string): Result<Set, Error> {
    var trimmed := Trim(data);
    if trimmed == "" then Err(Empty)
    else if trimmed[0] == '{' || trimmed[0] == '[' then Err(IsJSON)
    else LoadBody(trimmed)
  }

  lemma BeforeMore(cookies: seq<Cookie>, c: Cookie, r: Result<seq<Cookie>, Error>)
    ensures Before(cookies, Before([c], r)) == Before(cookies + [c], r)
    ensures Before([], r) == r
  {
    if r.Ok? {
      assert cookies + ([c] + r.value) == cookies + [c] + r.value;
      assert [] + r.value == r.value;
    }
  }

  lemma SplitStep(s: string)
    ensures Split(s, '\n') == if Cut(s, '\n').None? then [s]
                              else [Cut(s, '\n').value.0] + Split(Cut(s, '\n').value.1, '\n')
  {
  }

  lemma ParseLinesStep(line: string, lines: seq<string>)
    ensures ParseLines([]) == Ok([])
    ensures ParseLines([line] + lines) == Onto(ParseLine(line), ParseLines(lines))
  {
    assert ([line] + lines)[1..] == lines;
  }

  lemma NothingIsSkipped()
    ensures ParseLines([""]) == Ok([])
  {
    assert ParseLine("") == Ok(None);
    ParseLinesStep("", []);
  }

  method LoadNetscape(body: string) returns (r: Result<Set, Error>)
    ensures r == LoadBody(body)
  {
    hide Split, ParseLines, ParseLine, Cut, Before, ParseFields;
    var cookies: seq<Cookie> := [];
    var rest := body;
    BeforeMore([], Cookie("", "", "", "", false, false, None), ParseLines(Split(body, '\n')));
    while rest != ""
      invariant ParseLines(Split(body, '\n')) == Before(cookies, ParseLines(Split(rest, '\n')))
      decreases |rest|
    {
      var raw, after := rest, "";
      var cut := Cut(rest, '\n');
      SplitStep(rest);
      if cut.Some? {
        raw, after := cut.value.0, cut.value.1;
      }
      AfterLine(rest, raw, after);
      var parsed := ReadLine(raw);
      BeforeErr(cookies);
      if parsed.Err? {
        return Err(parsed.error);
      }
      if parsed.value.Some? {
        BeforeMore(cookies, parsed.value.value, ParseLines(Split(after, '\n')));
        cookies := cookies + [parsed.value.value];
      }
      rest := after;
    }
    SplitWhole("", '\n');
    NothingIsSkipped();
    BeforeNothing(cookies);
    if cookies == [] {
      return Err(NoCookies);
    }
    return Ok(Set("1", NOTE, cookies));
  }

  lemma BeforeErr(cookies: seq<Cookie>)
    ensures forall e :: Before(cookies, Err(e)) == Err(e)
  {
  }

  lemma BeforeNothing(cookies: seq<Cookie>)
    ensures Before(cookies, Ok([])) == Ok(cookies)
  {
    assert cookies + [] == cookies;
  }

  /** What one turn of the scanner takes off the body. */
  lemma AfterLine(rest: string, raw: string, after: string)
    requires (raw, after) == if Cut(rest, '\n').None? then (rest, "") else Cut(rest, '\n').value
    ensures ParseLines(Split(rest, '\n')) == Onto(ParseLine(raw), ParseLines(Split(after, '\n')))
  {
    hide Split, Cut, ParseLine;
    SplitStep(rest);
    if Cut(rest, '\n').Some? {
      ParseLinesStep(raw, Split(after, '\n'));
    } else {
      SplitWhole("", '\n');
      NothingIsSkipped();
      assert [raw] + [] == [raw];
      ParseLinesStep(raw, []);
    }
  }

  method ReadLine(raw: string) returns (r: Result<Option<Cookie>, Error>)
    ensures r == ParseLine(raw)
  {
    hide TrimEnds, TrimLeft, Split, TrimRight, Lower, ParseInt;
    if |raw| >= MAX_LINE {
      return Err(TooLong);
    }
    var text := TrimEnds(raw);
    if TrimLeft(text) == [] {
      return Ok(None);
    }
    var httpOnly := HTTP_ONLY <= text;
    if httpOnly {
      text := text[|HTTP_ONLY|..];
    } else if StartsWithHash(text) {
      return Ok(None);
    }
    var fields := Split(text, '\t');
    if |fields| < 7 {
      return Err(FewFields);
    }
    var expires := ParseInt(Trim(fields[4]));
    if expires.None? {
      return Err(NotAnExpiry);
    }
    if fields[5] == "" {
      return Err(NoName);
    }
    var included := fields[1];
    if !IsWord(included, "TRUE") && !IsWord(included, "FALSE") {
      return Err(NotTrueOrFalse);
    }
    var domain := fields[0];
    if IsWord(included, "TRUE") && !Dotted(domain) {
      domain := "." + domain;
    }
    var c := Cookie(fields[5], fields[6], domain, fields[2], IsWord(fields[3], "TRUE"), httpOnly, None);
    if expires.value > 0 {
      c := c.(expires := Some(Instant(expires.value, 0)));
    }
    return Ok(Some(c));
  }
}
