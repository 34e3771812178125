/** Strings as the Go library treats them: case folding of ASCII, white space, decimal integers. */
module Text {
  import opened Common

  // --- case ---

  function LowerChar(c: char): char {
    if 'A' <= c <= 'Z' then (c as int + 32) as char else c
  }

  function UpperChar(c: char): char {
    if 'a' <= c <= 'z' then (c as int - 32) as char else c
  }

  function Lower(s: string): (t: string)
    ensures |t| == |s|
  {
    seq(|s|, i requires 0 <= i < |s| => LowerChar(s[i]))
  }

  lemma LowerLower(s: string)
    ensures Lower(Lower(s)) == Lower(s)
  {
  }

  // --- white space ---

  predicate IsSpace(c: char) {
    c in {'\t', '\n', '\U{0B}', '\U{0C}', '\r', ' ', '\U{85}', '\U{A0}', '\U{1680}', '\U{2028}', '\U{2029}',
          '\U{202F}', '\U{205F}', '\U{3000}'} || '\U{2000}' <= c <= '\U{200A}'
  }

  function TrimLeft(s: string): (t: string)
    ensures |t| <= |s| && t == s[|s| - |t|..]
    ensures t != [] ==> !IsSpace(t[0])
  {
    if s == [] || !IsSpace(s[0]) then s else TrimLeft(s[1..])
  }

  function TrimRight(s: string): (t: string)
    ensures t <= s
    ensures t != [] ==> !IsSpace(t[|t| - 1])
  {
    if s == [] || !IsSpace(s[|s| - 1]) then s else TrimRight(s[..|s| - 1])
  }

  function Trim(s: string): string {
    TrimRight(TrimLeft(s))
  }

  // --- cutting ---

  /** The part before the first occurrence of `c`, and the part after it. */
  function Cut(s: string, c: char): (r: Option<(string, string)>)
    ensures r.None? ==> c !in s
    ensures r.Some? ==> c !in r.value.0 && s == r.value.0 + [c] + r.value.1
  {
    if s == [] then None
    else if s[0] == c then Some(("", s[1..]))
    else match Cut(s[1..], c)
      case None => None
      case Some((before, after)) => Some(([s[0]] + before, after))
  }

  lemma {:induction false} CutAt(before: string, c: char, after: string)
    requires c !in before
    ensures Cut(before + [c] + after, c) == Some((before, after))
  {
    if before == [] {
      assert before + [c] + after == [c] + after;
    } else {
      var whole := before + [c] + after;
      assert whole[1..] == before[1..] + [c] + after;
      assert before == [before[0]] + before[1..];
      CutAt(before[1..], c, after);
    }
  }

  /** All the parts between occurrences of `c`. */
  function Split(s: string, c: char): (parts: seq<string>)
    ensures parts != [] && forall p <- parts :: c !in p && forall x <- p :: x in s
    decreases |s|
  {
    match Cut(s, c)
    case None => [s]
    case Some((before, after)) => [before] + Split(after, c)
  }

  lemma SplitAt(before: string, c: char, after: string)
    requires c !in before
    ensures Split(before + [c] + after, c) == [before] + Split(after, c)
  {
    hide Cut;
    CutAt(before, c, after);
  }

  lemma SplitWhole(s: string, c: char)
    requires c !in s
    ensures Split(s, c) == [s]
  {
    hide Cut;
    var r := Cut(s, c);
    if r.Some? {
      Holds(r.value.0, c, r.value.1);
    }
  }

  lemma Holds(before: string, c: char, after: string)
    ensures c in before + [c] + after
  {
    assert (before + [c] + after)[|before|] == c;
  }

  // --- decimal integers ---

  predicate IsDigit(c: char) {
    '0' <= c <= '9'
  }

  function Digit(n: nat): char
    requires n < 10
  {
    ('0' as int + n) as char
  }

  function Decimal(n: nat): (s: string)
    ensures s != [] && forall c <- s :: IsDigit(c)
  {
    if n < 10 then [Digit(n)] else Decimal(n / 10) + [Digit(n % 10)]
  }

  function Digits(s: string): Option<nat> {
    if s == [] || !IsDigit(s[|s| - 1]) then None
    else
      var last := s[|s| - 1] as int - '0' as int;
      if |s| == 1 then Some(last)
      else match Digits(s[..|s| - 1])
        case None => None
        case Some(n) => Some(10 * n + last)
  }

  lemma {:induction false} DigitsRead(n: nat)
    ensures Digits(Decimal(n)) == Some(n)
  {
    if n >= 10 {
      DigitsRead(n / 10);
      assert Decimal(n)[..|Decimal(n)| - 1] == Decimal(n / 10);
    }
  }

  const MAX_INT64 := 0x7FFF_FFFF_FFFF_FFFF

  /** A signed 64-bit integer in base ten. */
  function ParseInt(s: string): (r: Option<int>)
    ensures r.Some? ==> -MAX_INT64 - 1 <= r.value <= MAX_INT64
  {
    if s == [] then None
    else
      var negative := s[0] == '-';
      match Digits(if s[0] in {'+', '-'} then s[1..] else s)
      case None => None
      case Some(n) =>
        if negative then (if n <= MAX_INT64 + 1 then Some(-(n as int)) else None)
        else if n <= MAX_INT64 then Some(n) else None
  }

  // --- what the characters say ---

  /** What a row of decimal digits is worth. */
  function NumberOf(digits: string): int {
    if digits == [] then 0
    else 10 * NumberOf(digits[..|digits| - 1]) + (digits[|digits| - 1] as int - '0' as int)
  }

  /** A number in base ten: digits that are worth it, and no zero in front. */
  lemma {:induction false} DecimalIs(n: nat)
    ensures NumberOf(Decimal(n)) == n
    ensures forall c <- Decimal(n) :: '0' <= c <= '9'
    ensures Decimal(n)[0] == '0' <==> n == 0
    ensures |Decimal(n)| == 1 <==> n < 10
  {
    var s := Decimal(n);
    if n >= 10 {
      DecimalIs(n / 10);
      assert s[..|s| - 1] == Decimal(n / 10);
    }
  }

  lemma {:induction false} DigitsAreRead(s: string)
    requires s != "" && forall c <- s :: '0' <= c <= '9'
    ensures NumberOf(s) >= 0 && Digits(s) == Some(NumberOf(s))
  {
    var front, last := s[..|s| - 1], s[|s| - 1];
    assert s == front + [last];
    assert last in s && IsDigit(last);
    if front == "" {
      assert NumberOf(front) == 0;
    } else {
      assert forall c <- front :: c in s;
      DigitsAreRead(front);
    }
  }

  /** A signed integer is read for what its digits are worth, if that fits 64 bits. */
  lemma IntegersRead(digits: string)
    requires digits != "" && forall c <- digits :: '0' <= c <= '9'
    ensures ParseInt(digits) ==
            if NumberOf(digits) <= 9223372036854775807 then Some(NumberOf(digits)) else None
    ensures ParseInt(['+'] + digits) ==
            if NumberOf(digits) <= 9223372036854775807 then Some(NumberOf(digits)) else None
    ensures ParseInt(['-'] + digits) ==
            if NumberOf(digits) <= 9223372036854775808 then Some(-NumberOf(digits)) else None
  {
    hide NumberOf, Digits;
    DigitsAreRead(digits);
    assert digits[0] in digits;
    assert (['+'] + digits)[1..] == digits && (['-'] + digits)[1..] == digits;
  }

  lemma {:induction false} NoDigitsNoNumber(s: string, c: char)
    requires c in s && !('0' <= c <= '9')
    ensures Digits(s) == None
  {
    if s[|s| - 1] != c {
      assert s == s[..|s| - 1] + [s[|s| - 1]];
      NoDigitsNoNumber(s[..|s| - 1], c);
    }
  }

  /** Anything that is neither a digit nor a sign in front is no integer, and neither is nothing. */
  lemma NotAnInteger(s: string, i: nat)
    requires i < |s| && !('0' <= s[i] <= '9') && (i > 0 || s[i] !in {'+', '-'})
    ensures ParseInt(s) == None && ParseInt("") == None
  {
    hide Digits;
    NoDigitsNoNumber(s, s[i]);
    if s[0] in {'+', '-'} {
      assert s[1..][i - 1] == s[i];
      NoDigitsNoNumber(s[1..], s[i]);
    }
  }
}
