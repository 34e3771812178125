/** A set written as a cookies.txt and loaded again. */
module NetscapeRoundTrip {
  import opened Common
  import opened Text
  import opened Netscape

  // ---------------------------------------------------------------------------------------------
  // What can be written.

  predicate Plain(s: string) {
    '\t' !in s && '\n' !in s
  }

  predicate CleanFields(c: Cookie) {
    && Plain(c.domain) && Plain(c.path) && Plain(c.name) && Plain(c.value)
    && c.name != ""
  }

  /** No date, or whole seconds after 1970. */
  predicate Dated(c: Cookie) {
    c.expires.Some? ==> c.expires.value.seconds > 0 && c.expires.value.nanos == 0
  }

  predicate Writable(c: Cookie) {
    && CleanFields(c)
    && Dated(c)
    && (c.httpOnly || !StartsWithHash(c.domain))
    && (c.value != "" ==> c.value[|c.value| - 1] != '\r')
    && |Line(c)| < MAX_LINE
  }

  /** The end of the file is trimmed, and the last value with it. */
  predicate SurvivesTrimming(value: string) {
    value != "" && !IsSpace(value[|value| - 1])
  }

  predicate Faithful(cookies: seq<Cookie>) {
    && cookies != []
    && (forall c <- cookies :: Writable(c))
    && SurvivesTrimming(cookies[|cookies| - 1].value)
  }

  /** An empty path is written as the root. */
  function Rooted(c: Cookie): Cookie {
    c.(path := PathOf(c))
  }

  function AllRooted(cookies: seq<Cookie>): (r: seq<Cookie>)
    ensures |r| == |cookies| && forall i :: 0 <= i < |r| ==> r[i] == Rooted(cookies[i])
  {
    if cookies == [] then [] else [Rooted(cookies[0])] + AllRooted(cookies[1..])
  }

  // ---------------------------------------------------------------------------------------------
  // Rows and trimming.

  lemma RowCons(x: string, fields: seq<string>)
    requires fields != []
    ensures Row([x] + fields) == x + ['\t'] + Row(fields)
  {
    assert ([x] + fields)[1..] == fields;
  }

  lemma {:induction false} RowSnoc(fields: seq<string>, v: string)
    requires fields != []
    ensures Row(fields + [v]) == Row(fields) + ['\t'] + v
  {
    if |fields| == 1 {
      RowCons(fields[0], [v]);
      assert fields + [v] == [fields[0]] + [v];
    } else {
      assert fields == [fields[0]] + fields[1..];
      assert fields + [v] == [fields[0]] + (fields[1..] + [v]);
      RowCons(fields[0], fields[1..] + [v]);
      RowCons(fields[0], fields[1..]);
      RowSnoc(fields[1..], v);
      hide Row;
    }
  }

  lemma {:induction false} SplitRow(fields: seq<string>)
    requires fields != [] && forall f <- fields :: '\t' !in f
    ensures Split(Row(fields), '\t') == fields
  {
    hide Split;
    if |fields| == 1 {
      SplitWhole(fields[0], '\t');
    } else {
      SplitRow(fields[1..]);
      SplitAt(fields[0], '\t', Row(fields[1..]));
      assert fields == [fields[0]] + fields[1..];
    }
  }

  lemma {:induction false} RowIsOneLine(fields: seq<string>)
    requires fields != [] && forall f <- fields :: '\n' !in f
    ensures '\n' !in Row(fields)
  {
    if |fields| > 1 {
      RowIsOneLine(fields[1..]);
    }
  }

  lemma TrimEndsSnoc(s: string, x: char)
    ensures TrimEnds("") == ""
    ensures TrimEnds(s + [x]) == if x == '\r' || x == '\n' then TrimEnds(s) else s + [x]
  {
    assert (s + [x])[..|s|] == s;
  }

  lemma {:induction false} TrimEndsConcat(a: string, b: string)
    ensures TrimEnds(a + b) == if TrimEnds(b) != "" then a + TrimEnds(b) else TrimEnds(a)
  {
    hide TrimEnds;
    TrimEndsSnoc("", 'x');
    if b == "" {
      assert a + b == a;
    } else {
      var front, x := b[..|b| - 1], b[|b| - 1];
      assert b == front + [x] && a + b == (a + front) + [x];
      TrimEndsSnoc(front, x);
      TrimEndsSnoc(a + front, x);
      TrimEndsConcat(a, front);
    }
  }

  lemma TrimEndsAfterTab(a: string, v: string)
    ensures TrimEnds(a + ['\t'] + v) == a + ['\t'] + TrimEnds(v)
  {
    TrimEndsConcat(a + ['\t'], v);
    assert a + ['\t'] + "" == a + ['\t'];
  }

  lemma {:induction false} TrimRightConcat(a: string, b: string)
    ensures TrimRight(a + b) == if TrimRight(b) != "" then a + TrimRight(b) else TrimRight(a)
  {
    hide IsSpace;
    if b == "" {
      assert a + b == a;
    } else {
      var front := b[..|b| - 1];
      assert (a + b)[..|a + b| - 1] == a + front;
      TrimRightConcat(a, front);
    }
  }

  lemma {:induction false} TrimLeftConcat(a: string, b: string)
    ensures TrimLeft(a + b) == if TrimLeft(a) != "" then TrimLeft(a) + b else TrimLeft(b)
  {
    hide IsSpace;
    if a == "" {
      assert a + b == b;
    } else {
      assert (a + b)[1..] == a[1..] + b;
      TrimLeftConcat(a[1..], b);
    }
  }

  lemma TrimRightKeeps(s: string)
    ensures s != "" && !IsSpace(s[|s| - 1]) ==> TrimRight(s) == s
    ensures TrimRight(s) == s && s != "" ==> !IsSpace(s[|s| - 1])
    ensures TrimEnds(TrimRight(s)) == TrimRight(s)
    ensures (s != "" ==> s[|s| - 1] != '\r') && '\n' !in s ==> TrimEnds(s) == s
  {
  }

  // ---------------------------------------------------------------------------------------------
  // Numbers and words.

  lemma DigitsAreNoSpace(c: char)
    requires IsDigit(c)
    ensures !IsSpace(c) && c != '\t' && c != '\n' && c != '-' && c != '+'
  {
  }

  lemma TrimNothing(s: string)
    requires s != "" && !IsSpace(s[0]) && !IsSpace(s[|s| - 1])
    ensures Trim(s) == s
  {
    hide IsSpace;
  }

  lemma SecondsRead(n: nat)
    requires n <= MAX_INT64
    ensures ParseInt(Trim(Seconds(n))) == Some(n)
    ensures Plain(Seconds(n))
  {
    hide Decimal, Digits, IsSpace, IsDigit, Trim;
    DigitsRead(n);
    var s := Decimal(n);
    forall c | c in s
      ensures !IsSpace(c) && c != '\t' && c != '\n' && c != '-' && c != '+'
    {
      DigitsAreNoSpace(c);
    }
    TrimNothing(s);
  }

  lemma WordsRead(yes: bool)
    ensures IsWord(Upper(yes), "TRUE") <==> yes
    ensures IsWord(Upper(yes), "TRUE") || IsWord(Upper(yes), "FALSE")
    ensures Plain(Upper(yes))
  {
    var s := Upper(yes);
    assert TrimLeft(s) == s && TrimRight(s) == s;
    assert |Lower("TRUE")| == 4 && |Lower("FALSE")| == 5;
  }

  // ---------------------------------------------------------------------------------------------
  // One row.

  function Fields(c: Cookie): seq<string> {
    [c.domain, Upper(Dotted(c.domain)), PathOf(c), Upper(c.secure),
     Seconds(if c.expires.None? then 0 else c.expires.value.seconds), c.name, c.value]
  }

  lemma FieldsRead(c: Cookie)
    requires CleanFields(c) && Dated(c)
    ensures ParseFields(Fields(c), c.httpOnly) == Ok(Rooted(c))
    ensures forall f <- Fields(c) :: Plain(f)
  {
    hide Trim, ParseInt, IsWord, Seconds, Upper;
    SecondsRead(if c.expires.None? then 0 else c.expires.value.seconds);
    WordsRead(Dotted(c.domain));
    WordsRead(c.secure);
  }

  lemma LineIsRow(c: Cookie)
    ensures Line(c) == if c.httpOnly then HTTP_ONLY + Row(Fields(c)) else Row(Fields(c))
    ensures Line(c) == Row(Front(c)) + ['\t'] + c.value
    ensures Row(Fields(c)) == c.domain + (['\t'] + Row(Fields(c)[1..]))
  {
    hide Row;
    RowSnoc(Front(c), c.value);
    var rest := Fields(c)[1..];
    RowCons(c.domain, rest);
    assert Fields(c) == [c.domain] + rest;
    var head := if c.httpOnly then HTTP_ONLY + c.domain else c.domain;
    RowCons(head, rest);
    assert Front(c) + [c.value] == [head] + rest;
  }

  /** What stands left of the second field decides whether the line looks like a comment. */
  lemma LooksLikeItsDomain(head: string, rest: seq<string>)
    requires rest != [] && (rest[0] == "TRUE" || rest[0] == "FALSE")
    ensures var text := head + (['\t'] + Row(rest));
            && TrimLeft(text) != ""
            && (StartsWithHash(text) <==> StartsWithHash(head))
  {
    var tail := ['\t'] + Row(rest);
    assert Row(rest) != "" && (Row(rest)[0] == 'T' || Row(rest)[0] == 'F');
    hide Row;
    TabThenLetter(Row(rest));
    hide TrimLeft;
    TrimLeftConcat(head, tail);
  }

  lemma TabThenLetter(s: string)
    requires s != "" && (s[0] == 'T' || s[0] == 'F')
    ensures TrimLeft(['\t'] + s) == s
  {
    assert (['\t'] + s)[1..] == s;
  }

  lemma NoPrefixWithoutHash(text: string)
    requires HTTP_ONLY <= text
    ensures StartsWithHash(text)
  {
    assert text[0] == '#';
  }

  lemma LineOf(c: Cookie)
    ensures Line(c.(value := TrimEnds(c.value))) == TrimEnds(Line(c))
  {
    hide TrimEnds, Row;
    LineIsRow(c);
    LineIsRow(c.(value := TrimEnds(c.value)));
    TrimEndsAfterTab(Row(Front(c)), c.value);
  }

  lemma ReadAsRow(raw: string, text: string, row: string, httpOnly: bool)
    requires |raw| < MAX_LINE && text == TrimEnds(raw) && TrimLeft(text) != ""
    requires httpOnly ==> text == HTTP_ONLY + row
    requires !httpOnly ==> text == row && !StartsWithHash(text)
    ensures ParseLine(raw) == Found(ParseFields(Split(row, '\t'), httpOnly))
  {
    hide TrimEnds, TrimLeft, Split, StartsWithHash, ParseFields;
    if httpOnly {
      assert text[|HTTP_ONLY|..] == row;
    } else if HTTP_ONLY <= text {
      NoPrefixWithoutHash(text);
    }
  }

  lemma LineIsNoComment(c: Cookie)
    ensures TrimLeft(Line(c)) != ""
    ensures !c.httpOnly ==> (StartsWithHash(Line(c)) <==> StartsWithHash(c.domain))
  {
    hide TrimLeft, Row, StartsWithHash, Fields, Line, Front;
    LineIsRow(c);
    FieldsTail(c);
    if c.httpOnly {
      Regroup(HTTP_ONLY, c.domain, ['\t'] + Row(Fields(c)[1..]));
      LooksLikeItsDomain(HTTP_ONLY + c.domain, Fields(c)[1..]);
    } else {
      LooksLikeItsDomain(c.domain, Fields(c)[1..]);
    }
  }

  lemma TrimmedIsClean(c: Cookie)
    requires CleanFields(c) && Dated(c)
    ensures CleanFields(c.(value := TrimEnds(c.value))) && Dated(c.(value := TrimEnds(c.value)))
  {
  }

  /** A row that is short enough and does not look like a comment is read as the cookie it was written for,
      up to carriage returns at the end of the value. */
  lemma LineReads(c: Cookie)
    requires CleanFields(c) && Dated(c)
    requires |Line(c)| < MAX_LINE && (c.httpOnly || !StartsWithHash(c.domain))
    ensures ParseLine(Line(c)) == Ok(Some(Rooted(c.(value := TrimEnds(c.value)))))
  {
    hide TrimEnds, TrimLeft, Split, Row, StartsWithHash, ParseFields, Fields, ParseLine, CleanFields, Dated, Line,
         Rooted;
    var d := c.(value := TrimEnds(c.value));
    TrimmedIsClean(c);
    FieldsTail(d);
    LineOf(c);
    LineIsRow(d);
    LineIsNoComment(d);
    RowRead(d);
    ReadAsRow(Line(c), Line(d), Row(Fields(d)), c.httpOnly);
  }

  lemma RowRead(c: Cookie)
    requires CleanFields(c) && Dated(c)
    ensures ParseFields(Split(Row(Fields(c)), '\t'), c.httpOnly) == Ok(Rooted(c))
  {
    hide Row, Split, ParseFields, Fields, Rooted;
    FieldsRead(c);
    FieldsTail(c);
    SplitRow(Fields(c));
  }

  lemma FieldsTail(c: Cookie)
    ensures |Fields(c)| == 7 && (Fields(c)[1..][0] == "TRUE" || Fields(c)[1..][0] == "FALSE")
  {
  }

  lemma CommentsAreNotRead(c: Cookie)
    requires CleanFields(c) && Dated(c) && !c.httpOnly && StartsWithHash(c.domain)
    ensures var r := ParseLine(Line(c)); r.Ok? && r.value.Some? ==> r.value.value.httpOnly
  {
    hide TrimEnds, TrimLeft, Split, Row, StartsWithHash, ParseFields, Fields;
    var d := c.(value := TrimEnds(c.value));
    LineOf(c);
    LineIsRow(d);
    FieldsTail(d);
    LooksLikeItsDomain(d.domain, Fields(d)[1..]);
    ReadAsHttpOnly(Split(Line(d)[if HTTP_ONLY <= Line(d) then |HTTP_ONLY| else 0..], '\t'));
  }

  lemma ReadAsHttpOnly(fields: seq<string>)
    ensures ParseFields(fields, true).Ok? ==> ParseFields(fields, true).value.httpOnly
  {
  }

  /** Whatever is read from one line has fields without separators, a name, and a date or none. */
  lemma RowOf(raw: string) returns (row: string, httpOnly: bool)
    requires ParseLine(raw).Ok? && ParseLine(raw).value.Some?
    ensures ParseLine(raw) == Found(ParseFields(Split(row, '\t'), httpOnly))
    ensures forall x <- row :: x in raw
  {
    hide TrimEnds, TrimLeft, Split, ParseFields, StartsWithHash;
    var text := TrimEnds(raw);
    httpOnly := HTTP_ONLY <= text;
    row := if httpOnly then text[|HTTP_ONLY|..] else text;
    assert forall x <- text :: x in raw;
  }

  lemma PlainFieldsAreClean(fields: seq<string>, httpOnly: bool)
    requires ParseFields(fields, httpOnly).Ok? && forall f <- fields :: Plain(f)
    ensures CleanFields(ParseFields(fields, httpOnly).value) && Dated(ParseFields(fields, httpOnly).value)
  {
    hide Trim, ParseInt, IsWord;
    assert Plain(fields[0]) && Plain(fields[2]) && Plain(fields[5]) && Plain(fields[6]);
  }

  lemma ParsedIsClean(raw: string)
    requires '\n' !in raw && ParseLine(raw).Ok? && ParseLine(raw).value.Some?
    ensures CleanFields(ParseLine(raw).value.value) && Dated(ParseLine(raw).value.value)
  {
    hide ParseLine, ParseFields, Split, CleanFields, Dated;
    var row, httpOnly := RowOf(raw);
    forall f | f in Split(row, '\t')
      ensures Plain(f)
    {
      assert '\n' !in f;
    }
    PlainFieldsAreClean(Split(row, '\t'), httpOnly);
  }

  // ---------------------------------------------------------------------------------------------
  // All the lines.

  lemma {:induction false} LinesYield(lines: seq<string>)
    requires ParseLines(lines).Ok?
    ensures var ks := ParseLines(lines).value;
            && |ks| <= |lines|
            && (|ks| == |lines| ==> forall i :: 0 <= i < |lines| ==> ParseLine(lines[i]) == Ok(Some(ks[i])))
  {
    hide ParseLine, ParseLines;
    ParseLinesStep("", []);
    if lines != [] {
      assert lines == [lines[0]] + lines[1..];
      ParseLinesStep(lines[0], lines[1..]);
      LinesYield(lines[1..]);
      var ks := ParseLines(lines).value;
      if |ks| == |lines| {
        assert ks[1..] == ParseLines(lines[1..]).value;
        assert forall i :: 1 <= i < |lines| ==> lines[i] == lines[1..][i - 1] && ks[i] == ks[1..][i - 1];
      }
    }
  }

  lemma {:induction false} LinesRead(lines: seq<string>, ks: seq<Cookie>)
    requires |lines| == |ks| && forall i :: 0 <= i < |lines| ==> ParseLine(lines[i]) == Ok(Some(ks[i]))
    ensures ParseLines(lines) == Ok(ks)
  {
    hide ParseLine;
    if lines == [] {
      ParseLinesStep("", []);
    } else {
      assert lines == [lines[0]] + lines[1..] && ks == [ks[0]] + ks[1..];
      ParseLinesStep(lines[0], lines[1..]);
      LinesRead(lines[1..], ks[1..]);
    }
  }

  lemma {:induction false} LinesClean(lines: seq<string>)
    requires ParseLines(lines).Ok? && forall l <- lines :: '\n' !in l
    ensures forall k <- ParseLines(lines).value :: CleanFields(k) && Dated(k)
  {
    hide ParseLine, ParseLines, CleanFields, Dated;
    ParseLinesStep("", []);
    if lines != [] {
      assert lines == [lines[0]] + lines[1..];
      ParseLinesStep(lines[0], lines[1..]);
      LinesClean(lines[1..]);
      if ParseLine(lines[0]).value.Some? {
        ParsedIsClean(lines[0]);
      }
    }
  }

  function RawLines(cookies: seq<Cookie>): (r: seq<string>)
    ensures |r| == |cookies| && forall i :: 0 <= i < |r| ==> r[i] == Line(cookies[i])
  {
    if cookies == [] then [] else [Line(cookies[0])] + RawLines(cookies[1..])
  }

  lemma NoNewline(a: string, b: string)
    requires '\n' !in a && '\n' !in b
    ensures '\n' !in a + b
  {
  }

  lemma SecondHeaderIsOneLine()
    ensures '\n' !in HEADER1
  {
    var a, b, c := "# Written by tls-forge. ", "Every line is seven ", "tab-separated fields.";
    NoNewline(a, b);
    NoNewline(a + b, c);
  }

  lemma FixedTextIsOneLine()
    ensures '\n' !in HTTP_ONLY && '\n' !in HEADER0 && '\n' !in HEADER1
  {
    SecondHeaderIsOneLine();
  }

  lemma LineIsOneLine(c: Cookie)
    requires CleanFields(c) && Dated(c)
    ensures '\n' !in Line(c)
  {
    hide Row, Fields, Line, CleanFields, Dated;
    FieldsRead(c);
    FieldsTail(c);
    LineIsRow(c);
    RowIsOneLine(Fields(c));
    FixedTextIsOneLine();
    NoNewline(HTTP_ONLY, Row(Fields(c)));
  }

  lemma {:induction false} SplitLines(cookies: seq<Cookie>, last: string)
    requires '\n' !in last && forall c <- cookies :: CleanFields(c) && Dated(c)
    ensures Split(Lines(cookies) + last, '\n') == RawLines(cookies) + [last]
  {
    hide Line, Split, CleanFields, Dated;
    if cookies == [] {
      assert "" + last == last;
      SplitWhole(last, '\n');
    } else {
      LineIsOneLine(cookies[0]);
      SplitLines(cookies[1..], last);
      assert Lines(cookies) + last == Line(cookies[0]) + ['\n'] + (Lines(cookies[1..]) + last);
      SplitAt(Line(cookies[0]), '\n', Lines(cookies[1..]) + last);
    }
  }

  lemma SplitThree(a: string, b: string, rest: string)
    requires '\n' !in a && '\n' !in b
    ensures Split(a + "\n" + b + "\n" + "\n" + rest, '\n') == [a] + ([b] + ([""] + Split(rest, '\n')))
  {
    hide Split;
    var tail := "" + ['\n'] + rest;
    var middle := b + ['\n'] + tail;
    assert a + "\n" + b + "\n" + "\n" + rest == a + ['\n'] + middle;
    SplitAt("", '\n', rest);
    SplitAt(b, '\n', tail);
    SplitAt(a, '\n', middle);
  }

  lemma SplitHeader(rest: string)
    ensures Split(HEADER + rest, '\n') == [HEADER0] + ([HEADER1] + ([""] + Split(rest, '\n')))
  {
    hide Split;
    FixedTextIsOneLine();
    SplitThree(HEADER0, HEADER1, rest);
  }

  lemma CommentLine(s: string)
    requires 2 <= |s| < 100 && s[0] == '#' && s[1] == ' ' && s[|s| - 1] != '\r' && s[|s| - 1] != '\n'
    ensures ParseLine(s) == Ok(None)
  {
    assert HTTP_ONLY[1] == 'H';
  }

  lemma CommentInPieces(start: string, middle: string, end: string)
    requires |start| >= 2 && start[0] == '#' && start[1] == ' '
    requires end != "" && end[|end| - 1] != '\r' && end[|end| - 1] != '\n'
    requires |start| + |middle| + |end| < 100
    ensures ParseLine(start + middle + end) == Ok(None)
  {
    hide ParseLine;
    var s := start + middle + end;
    assert s[0] == start[0] && s[1] == start[1] && s[|s| - 1] == end[|end| - 1];
    CommentLine(s);
  }

  lemma SecondHeaderLine()
    ensures ParseLine(HEADER1) == Ok(None)
  {
    hide ParseLine;
    CommentInPieces("# Written by tls-forge. ", "Every line is seven ", "tab-separated fields.");
  }

  lemma FirstHeaderLine()
    ensures ParseLine(HEADER0) == Ok(None)
  {
    hide ParseLine;
    CommentLine(HEADER0);
  }

  lemma EmptyLine()
    ensures ParseLine("") == Ok(None)
  {
  }

  lemma ThreeAreSkipped(a: string, b: string, c: string, lines: seq<string>)
    requires ParseLine(a) == ParseLine(b) == ParseLine(c) == Ok(None)
    ensures ParseLines([a] + ([b] + ([c] + lines))) == ParseLines(lines)
  {
    hide ParseLine, ParseLines;
    ParseLinesStep(a, [b] + ([c] + lines));
    ParseLinesStep(b, [c] + lines);
    ParseLinesStep(c, lines);
  }

  lemma HeaderIsSkipped(lines: seq<string>)
    ensures ParseLines([HEADER0] + ([HEADER1] + ([""] + lines))) == ParseLines(lines)
  {
    hide ParseLine, ParseLines;
    FirstHeaderLine();
    SecondHeaderLine();
    EmptyLine();
    ThreeAreSkipped(HEADER0, HEADER1, "", lines);
  }

  lemma LineEndsSomewhere(c: Cookie)
    ensures TrimRight(Line(c)) != ""
    ensures TrimRight(Line(c)) == if TrimRight(c.value) != "" then Line(c.(value := TrimRight(c.value)))
                                  else TrimRight(Row(Front(c)))
  {
    hide TrimRight, Row;
    var d := c.(value := TrimRight(c.value));
    LineIsRow(c);
    LineIsRow(d);
    var head := Row(Front(c)) + ['\t'];
    TrimRightConcat(head, c.value);
    TrimRightConcat(Row(Front(c)), ['\t']);
    TabIsTrimmed();
    FrontHasAWord(c);
  }

  lemma TabIsTrimmed()
    ensures TrimRight(['\t']) == ""
  {
    assert ['\t'][..0] == "";
  }

  lemma FrontHasAWord(c: Cookie)
    ensures TrimRight(Row(Front(c))) != ""
  {
    hide Seconds;
    var f := Front(c);
    var word := f[1];
    assert f == [f[0]] + ([word] + f[2..]);
    var text := Row(f);
    RowCons(f[0], [word] + f[2..]);
    RowCons(word, f[2..]);
    hide Row;
    assert text[|f[0]| + 1] == word[0];
    TrimmedToNothing(text, |f[0]| + 1);
  }

  lemma {:induction false} TrimmedToNothing(s: string, i: nat)
    requires i < |s| && !IsSpace(s[i])
    ensures TrimRight(s) != ""
  {
    hide IsSpace;
    if i < |s| - 1 {
      TrimmedToNothing(s[..|s| - 1], i);
    }
  }

  /** What is left of the file once its end has been trimmed. */
  lemma TrimmedFile(front: seq<Cookie>, last: Cookie)
    ensures Trim(Encode(front + [last])) == HEADER + (Lines(front) + TrimRight(Line(last)))
  {
    hide Line, TrimRight, TrimLeft, Lines;
    LinesSnoc(front, last);
    var body := Line(last) + ['\n'];
    var all := HEADER + Lines(front);
    Regroup(HEADER, Lines(front), body);
    HashStays(all + body);
    TrimRightConcat(all, body);
    TrimRightConcat(Line(last), ['\n']);
    NewlineIsTrimmed();
    LineEndsSomewhere(last);
    Regroup(HEADER, Lines(front), TrimRight(Line(last)));
  }

  lemma NewlineIsTrimmed()
    ensures TrimRight(['\n']) == ""
  {
    assert ['\n'][..0] == "";
  }

  lemma NothingToTrim(s: string)
    requires s != "" && !IsSpace(s[0])
    ensures TrimLeft(s) == s
  {
    hide IsSpace;
  }

  lemma NoSpaceIsAHash()
    ensures !IsSpace('#')
  {
  }

  lemma HashStays(s: string)
    requires s != "" && s[0] == '#'
    ensures TrimLeft(s) == s
  {
    hide IsSpace, TrimLeft;
    NoSpaceIsAHash();
    NothingToTrim(s);
  }

  /** The lines that are read of a file with clean cookies. */
  lemma LinesOfFile(front: seq<Cookie>, last: Cookie)
    requires forall c <- front + [last] :: CleanFields(c) && Dated(c)
    ensures ParseLines(Split(Trim(Encode(front + [last])), '\n')) ==
            ParseLines(RawLines(front) + [TrimRight(Line(last))])
  {
    hide Line, Trim, Lines, Split, ParseLines, CleanFields, Dated, RawLines, TrimRight;
    assert last in front + [last] && forall c <- front :: c in front + [last];
    TrimmedFile(front, last);
    LineIsOneLine(last);
    var end := TrimRight(Line(last));
    assert '\n' !in end;
    SplitHeader(Lines(front) + end);
    SplitLines(front, end);
    HeaderIsSkipped(RawLines(front) + [end]);
  }

  lemma LoadIsLines(cookies: seq<Cookie>)
    ensures Load(Encode(cookies)) == LoadBody(Trim(Encode(cookies)))
  {
    hide TrimRight, LoadBody, Lines;
    var s := Encode(cookies);
    HashStays(s);
    assert s[..1] == "#";
    assert s == "#" + s[1..];
    TrimRightConcat("#", s[1..]);
    HashIsNoSpace();
  }

  lemma HashIsNoSpace()
    ensures TrimRight("#") == "#"
  {
  }

  // ---------------------------------------------------------------------------------------------
  // The round trip.

  lemma EndsRead(c: Cookie)
    requires Writable(c)
    ensures ParseLine(Line(c)) == Ok(Some(Rooted(c)))
  {
    hide Line, ParseLine, Rooted, StartsWithHash, TrimRight;
    TrimRightKeeps(c.value);
    LineReads(c);
    assert c.(value := c.value) == c;
  }

  /** Only a writable cookie is read back from its own line. */
  lemma OnlyWritableReadsBack(c: Cookie)
    requires CleanFields(c) && Dated(c) && ParseLine(Line(c)) == Ok(Some(Rooted(c)))
    ensures Writable(c)
  {
    hide Line, StartsWithHash, Row, TrimRight;
    assert |Line(c)| < MAX_LINE;
    if !c.httpOnly && StartsWithHash(c.domain) {
      CommentsAreNotRead(c);
    } else {
      hide ParseLine;
      LineReads(c);
      assert TrimEnds(c.value) == c.value;
    }
  }

  lemma {:induction false} FewerParts(s: string, n: nat, c: char)
    requires n <= |s|
    ensures |Split(s[..n], c)| <= |Split(s, c)| && |Split(s[n..], c)| <= |Split(s, c)|
    decreases |s|
  {
    var r := Cut(s, c);
    if r.None? {
      SplitWhole(s[..n], c);
      SplitWhole(s[n..], c);
    } else {
      var b, a := r.value.0, r.value.1;
      hide Cut;
      assert Split(s, c) == [b] + Split(a, c);
      hide Split;
      if n <= |b| {
        SplitWhole(s[..n], c);
        assert s[n..] == b[n..] + [c] + a;
        SplitAt(b[n..], c, a);
      } else {
        var m := n - |b| - 1;
        assert s[..n] == b + [c] + a[..m] && s[n..] == a[m..];
        FewerParts(a, m, c);
        SplitAt(b, c, a[..m]);
      }
    }
  }

  lemma FewParts(raw: string)
    requires |Split(TrimEnds(raw), '\t')| <= 6
    ensures !(ParseLine(raw).Ok? && ParseLine(raw).value.Some?)
  {
    hide Split, TrimEnds, TrimLeft, StartsWithHash;
    var text := TrimEnds(raw);
    if HTTP_ONLY <= text {
      FewerParts(text, |HTTP_ONLY|, '\t');
    }
  }

  /** A row whose value has been trimmed away, and the tab before it, has too few fields. */
  lemma NoValueNoCookie(c: Cookie)
    requires CleanFields(c) && Dated(c)
    ensures !(ParseLine(TrimRight(Row(Front(c)))).Ok? && ParseLine(TrimRight(Row(Front(c)))).value.Some?)
  {
    hide Split, Row, TrimEnds, TrimRight, CleanFields, Dated, Front, ParseLine;
    var row := Row(Front(c));
    SixParts(c);
    var text := TrimEnds(TrimRight(row));
    assert text == row[..|text|];
    FewerParts(row, |text|, '\t');
    FewParts(TrimRight(row));
  }

  lemma NoTab(a: string, b: string)
    requires '\t' !in a && '\t' !in b
    ensures '\t' !in a + b
  {
  }

  lemma PrefixHasNoTab()
    ensures '\t' !in HTTP_ONLY
  {
  }

  lemma SixAreSplit(a: string, b: string, c: string, d: string, e: string, f: string)
    requires '\t' !in a && '\t' !in b && '\t' !in c && '\t' !in d && '\t' !in e && '\t' !in f
    ensures |Split(Row([a, b, c, d, e, f]), '\t')| == 6
  {
    hide Split, Row;
    SplitRow([a, b, c, d, e, f]);
  }

  lemma NumberIsPlain(c: Cookie)
    requires Dated(c)
    ensures '\t' !in Seconds(if c.expires.None? then 0 else c.expires.value.seconds)
  {
    hide Seconds;
    SecondsRead(if c.expires.None? then 0 else c.expires.value.seconds);
  }

  lemma HeadIsPlain(c: Cookie)
    requires CleanFields(c)
    ensures '\t' !in HeadOf(c) && '\t' !in PathOf(c)
  {
    PrefixHasNoTab();
    NoTab(HTTP_ONLY, c.domain);
  }

  lemma SixParts(c: Cookie)
    requires CleanFields(c) && Dated(c)
    ensures |Split(Row(Front(c)), '\t')| == 6
  {
    hide Split, Row, Seconds, Upper, HeadOf, PathOf;
    NumberIsPlain(c);
    WordsRead(Dotted(c.domain));
    WordsRead(c.secure);
    HeadIsPlain(c);
    SixAreSplit(HeadOf(c), Upper(Dotted(c.domain)), PathOf(c), Upper(c.secure),
                Seconds(if c.expires.None? then 0 else c.expires.value.seconds), c.name);
  }

  lemma LastReadsBack(c: Cookie)
    requires CleanFields(c) && Dated(c) && ParseLine(TrimRight(Line(c))) == Ok(Some(Rooted(c)))
    ensures Writable(c) && SurvivesTrimming(c.value)
  {
    hide ParseLine, TrimRight, Line, Row, StartsWithHash, TrimEnds;
    LineEndsSomewhere(c);
    if TrimRight(c.value) == "" {
      NoValueNoCookie(c);
    } else {
      var d := c.(value := TrimRight(c.value));
      TrimmedRightIsClean(c);
      LineOfParsed(d, c);
      OnlyWritableReadsBack(d);
      TrimRightKeeps(c.value);
    }
  }

  lemma TrimmedRightIsClean(c: Cookie)
    requires CleanFields(c) && Dated(c)
    ensures var d := c.(value := TrimRight(c.value)); CleanFields(d) && Dated(d)
  {
  }

  /** The value read is the value written, so trimming took nothing. */
  lemma LineOfParsed(d: Cookie, c: Cookie)
    requires CleanFields(d) && Dated(d) && d == c.(value := TrimRight(c.value))
    requires ParseLine(Line(d)) == Ok(Some(Rooted(c)))
    ensures d == c
  {
    hide Line, Row, StartsWithHash, TrimRight;
    assert |Line(d)| < MAX_LINE;
    if !d.httpOnly && StartsWithHash(d.domain) {
      CommentsAreNotRead(d);
    } else {
      hide ParseLine;
      LineReads(d);
      TrimRightKeeps(c.value);
    }
  }

  /** A written set is loaded as the same cookies in the same order exactly when it is not empty, every
      cookie fits its line, and the last value survives the trimming of the file. */
  lemma LoadsWhatWasWritten(cookies: seq<Cookie>)
    ensures Load(Encode(cookies)) == Ok(Set("1", "read from a Netscape cookie file", AllRooted(cookies))) <==>
            Faithful(cookies)
  {
    hide Load, Encode, Faithful, AllRooted;
    if Load(Encode(cookies)) == Ok(Set("1", NOTE, AllRooted(cookies))) {
      OnlyFaithfulLoads(cookies);
    }
    if Faithful(cookies) {
      FaithfulLoads(cookies);
    }
  }

  lemma FaithfulLoads(cookies: seq<Cookie>)
    requires Faithful(cookies)
    ensures Load(Encode(cookies)) == Ok(Set("1", NOTE, AllRooted(cookies)))
  {
    hide Load, Encode, ParseLines, ParseLine, Line, Rooted, TrimRight, CleanFields, Dated, StartsWithHash, Split, Trim;
    var front, last := cookies[..|cookies| - 1], cookies[|cookies| - 1];
    assert cookies == front + [last];
    LoadIsLines(cookies);
    LinesOfFile(front, last);
    LineEndsSomewhere(last);
    TrimRightKeeps(last.value);
    assert last.(value := last.value) == last;
    var lines := RawLines(front) + [TrimRight(Line(last))];
    forall i | 0 <= i < |lines|
      ensures ParseLine(lines[i]) == Ok(Some(AllRooted(cookies)[i]))
    {
      EndsRead(cookies[i]);
    }
    LinesRead(lines, AllRooted(cookies));
  }

  lemma LoadedAreClean(cookies: seq<Cookie>)
    requires Load(Encode(cookies)) == Ok(Set("1", NOTE, AllRooted(cookies)))
    ensures cookies != [] && forall c <- cookies :: CleanFields(c) && Dated(c)
    ensures ParseLines(Split(Trim(Encode(cookies)), '\n')) == Ok(AllRooted(cookies))
  {
    hide Load, Encode, ParseLines, ParseLine, Line, Split, Trim;
    LoadIsLines(cookies);
    LinesClean(Split(Trim(Encode(cookies)), '\n'));
    forall c | c in cookies
      ensures CleanFields(c) && Dated(c)
    {
      var i :| 0 <= i < |cookies| && cookies[i] == c;
      assert AllRooted(cookies)[i] in AllRooted(cookies);
    }
  }

  lemma OnlyFaithfulLoads(cookies: seq<Cookie>)
    requires Load(Encode(cookies)) == Ok(Set("1", NOTE, AllRooted(cookies)))
    ensures Faithful(cookies)
  {
    hide Load, Encode, ParseLines, ParseLine, Line, Rooted, Row, TrimRight, Split, Trim, CleanFields, Dated, Writable,
         SurvivesTrimming, RawLines, AllRooted;
    LoadedAreClean(cookies);
    var front, last := cookies[..|cookies| - 1], cookies[|cookies| - 1];
    assert cookies == front + [last];
    LinesOfFile(front, last);
    var lines := RawLines(front) + [TrimRight(Line(last))];
    LinesYield(lines);
    forall i | 0 <= i < |cookies|
      ensures Writable(cookies[i])
    {
      assert ParseLine(lines[i]) == Ok(Some(Rooted(cookies[i])));
      if i < |front| {
        OnlyWritableReadsBack(cookies[i]);
      } else {
        LastReadsBack(last);
      }
    }
    LastReadsBack(last);
  }

  // ---------------------------------------------------------------------------------------------
  // A set that does not survive.

  function Plainly(value: string): Cookie {
    Cookie("id", value, "a.example", "/", false, false, None)
  }

  lemma LineLength(c: Cookie)
    requires c.expires.None? && !c.httpOnly
    ensures |Line(c)| <= |c.domain| + |PathOf(c)| + |c.name| + |c.value| + 17
  {
    hide Row;
    var f := Fields(c);
    LineIsRow(c);
    assert |f[4]| == 1;
    RowLength(f);
    assert f == [f[0], f[1], f[2], f[3], f[4], f[5], f[6]];
    SumOfSeven(f);
  }

  function Sum(fields: seq<string>): nat {
    if fields == [] then 0 else |fields[0]| + Sum(fields[1..])
  }

  lemma {:induction false} RowLength(fields: seq<string>)
    requires fields != []
    ensures |Row(fields)| == Sum(fields) + |fields| - 1
  {
    if |fields| > 1 {
      RowLength(fields[1..]);
    } else {
      assert fields[1..] == [];
    }
  }

  lemma SumOfSeven(f: seq<string>)
    requires |f| == 7
    ensures Sum(f) == |f[0]| + |f[1]| + |f[2]| + |f[3]| + |f[4]| + |f[5]| + |f[6]|
  {
    assert Sum(f[7..]) == 0;
    assert Sum(f[6..]) == |f[6]| by { assert f[6..][1..] == f[7..]; }
    assert Sum(f[5..]) == |f[5]| + Sum(f[6..]) by { assert f[5..][1..] == f[6..]; }
    assert Sum(f[4..]) == |f[4]| + Sum(f[5..]) by { assert f[4..][1..] == f[5..]; }
    assert Sum(f[3..]) == |f[3]| + Sum(f[4..]) by { assert f[3..][1..] == f[4..]; }
    assert Sum(f[2..]) == |f[2]| + Sum(f[3..]) by { assert f[2..][1..] == f[3..]; }
    assert Sum(f[1..]) == |f[1]| + Sum(f[2..]) by { assert f[1..][1..] == f[2..]; }
  }

  lemma PlainlyIsClean(value: string)
    requires Plain(value)
    ensures CleanFields(Plainly(value)) && Dated(Plainly(value))
  {
  }

  lemma PlainlyIsShort(value: string)
    requires |value| < 100
    ensures |Line(Plainly(value))| < MAX_LINE
  {
    hide Line;
    LineLength(Plainly(value));
  }

  lemma PlainlyIsNoComment()
    ensures !StartsWithHash("a.example")
  {
    assert !IsSpace('a');
    hide IsSpace, TrimLeft;
    NothingToTrim("a.example");
  }

  lemma PlainlyIsWritable(value: string)
    requires Plain(value) && |value| < 100 && (value != "" ==> value[|value| - 1] != '\r')
    ensures Writable(Plainly(value))
  {
    hide Line, CleanFields, Dated, StartsWithHash, Plain;
    PlainlyIsClean(value);
    PlainlyIsShort(value);
    PlainlyIsNoComment();
  }

  /** A cookie without a value is lost when it is the last of its set, and kept when it is not. */
  lemma AnEmptyLastValueIsLost()
    ensures var empty, full := Plainly(""), Plainly("1");
            && Load(Encode([full, empty])) != Ok(Set("1", NOTE, AllRooted([full, empty])))
            && Load(Encode([empty, full])) == Ok(Set("1", NOTE, AllRooted([empty, full])))
  {
    hide Load, Encode, AllRooted, Writable;
    var empty, full := Plainly(""), Plainly("1");
    PlainlyIsWritable("");
    PlainlyIsWritable("1");
    LoadsWhatWasWritten([full, empty]);
    LoadsWhatWasWritten([empty, full]);
  }
}
