/** Sorting by a total order, and why its result does not depend on the order of its input. */
module Sorting {

  ghost predicate TotalOrder<T(!new)>(le: (T, T) -> bool) {
    && (forall a, b :: le(a, b) || le(b, a))
    && (forall a, b :: le(a, b) && le(b, a) ==> a == b)
    && (forall a, b, c :: le(a, b) && le(b, c) ==> le(a, c))
  }

  ghost predicate Sorted<T>(le: (T, T) -> bool, s: seq<T>) {
    forall i, j :: 0 <= i < j < |s| ==> le(s[i], s[j])
  }

  function Insert<T>(le: (T, T) -> bool, x: T, s: seq<T>): seq<T> {
    if s == [] || le(x, s[0]) then [x] + s else [s[0]] + Insert(le, x, s[1..])
  }

  function Sort<T>(le: (T, T) -> bool, s: seq<T>): seq<T> {
    if s == [] then [] else Insert(le, s[0], Sort(le, s[1..]))
  }

  lemma SortedCons<T(!new)>(le: (T, T) -> bool, x: T, s: seq<T>)
    requires Sorted(le, s) && forall y <- s :: le(x, y)
    ensures Sorted(le, [x] + s)
  {
  }

  lemma HeadIsLeast<T(!new)>(le: (T, T) -> bool, x: T, s: seq<T>)
    requires TotalOrder(le) && Sorted(le, s)
    requires s == [] || le(x, s[0])
    ensures forall y <- s :: le(x, y)
  {
    forall y | y in s
      ensures le(x, y)
    {
      var i :| 0 <= i < |s| && s[i] == y;
      assert i == 0 || le(s[0], s[i]);
    }
  }

  lemma {:induction false} InsertKeeps<T(!new)>(le: (T, T) -> bool, x: T, s: seq<T>)
    requires TotalOrder(le) && Sorted(le, s)
    ensures Sorted(le, Insert(le, x, s))
    ensures multiset(Insert(le, x, s)) == multiset{x} + multiset(s)
  {
    if s == [] || le(x, s[0]) {
      HeadIsLeast(le, x, s);
      SortedCons(le, x, s);
    } else {
      var tail := Insert(le, x, s[1..]);
      assert le(s[0], x);
      InsertKeeps(le, x, s[1..]);
      assert s == [s[0]] + s[1..];
      forall y | y in tail
        ensures le(s[0], y)
      {
        assert y in multiset(tail);
      }
      SortedCons(le, s[0], tail);
    }
  }

  lemma TailOut<T>(s: seq<T>)
    requires s != []
    ensures multiset(s[1..]) == multiset(s) - multiset{s[0]}
    ensures multiset(s) == multiset{s[0]} + multiset(s[1..])
  {
    assert s == [s[0]] + s[1..];
  }

  lemma {:induction false} SortSorts<T(!new)>(le: (T, T) -> bool, s: seq<T>)
    requires TotalOrder(le)
    ensures Sorted(le, Sort(le, s)) && multiset(Sort(le, s)) == multiset(s)
    ensures |Sort(le, s)| == |s|
  {
    hide TotalOrder;
    if s != [] {
      SortSorts(le, s[1..]);
      InsertKeeps(le, s[0], Sort(le, s[1..]));
      TailOut(s);
    }
    assert |multiset(Sort(le, s))| == |multiset(s)|;
  }

  lemma SameHead<T(!new)>(le: (T, T) -> bool, a: seq<T>, b: seq<T>)
    requires TotalOrder(le) && Sorted(le, a) && Sorted(le, b) && multiset(a) == multiset(b) && a != []
    ensures b != [] && a[0] == b[0]
  {
    assert a[0] in multiset(b) && |multiset(a)| == |multiset(b)|;
    assert b[0] in multiset(a);
  }

  lemma SortedTail<T>(le: (T, T) -> bool, s: seq<T>)
    requires Sorted(le, s) && s != []
    ensures Sorted(le, s[1..])
  {
  }

  lemma SameTail<T>(a: seq<T>, b: seq<T>)
    requires a != [] && b != [] && a[0] == b[0] && multiset(a) == multiset(b)
    ensures multiset(a[1..]) == multiset(b[1..])
  {
    TailOut(a);
    TailOut(b);
  }

  lemma NothingElse<T>(b: seq<T>)
    requires multiset(b) == multiset([])
    ensures b == []
  {
    assert |multiset(b)| == 0;
  }

  lemma {:induction false} SortedIsUnique<T(!new)>(le: (T, T) -> bool, a: seq<T>, b: seq<T>)
    requires TotalOrder(le) && Sorted(le, a) && Sorted(le, b) && multiset(a) == multiset(b)
    ensures a == b
  {
    hide TotalOrder, Sorted;
    if a == [] {
      NothingElse(b);
    } else {
      SameHead(le, a, b);
      SortedTail(le, a);
      SortedTail(le, b);
      SameTail(a, b);
      SortedIsUnique(le, a[1..], b[1..]);
      assert a == [a[0]] + a[1..] && b == [b[0]] + b[1..];
    }
  }

  /** Sorting forgets exactly the order: two lists sort alike if and only if they hold the same elements
      the same number of times. */
  lemma SortIsCanonical<T(!new)>(le: (T, T) -> bool, a: seq<T>, b: seq<T>)
    requires TotalOrder(le)
    ensures Sort(le, a) == Sort(le, b) <==> multiset(a) == multiset(b)
  {
    SortSorts(le, a);
    SortSorts(le, b);
    if multiset(a) == multiset(b) {
      SortedIsUnique(le, Sort(le, a), Sort(le, b));
    }
  }

  // ---------------------------------------------------------------------------------------------
  // The orders in use.

  /** Byte-wise order: a proper prefix comes first. */
  predicate BytesLe(a: seq<int>, b: seq<int>) {
    a == [] || (b != [] && (a[0] < b[0] || (a[0] == b[0] && BytesLe(a[1..], b[1..]))))
  }

  function Codes(s: string): seq<int> {
    seq(|s|, i requires 0 <= i < |s| => s[i] as int)
  }

  predicate StringLe(a: string, b: string) {
    BytesLe(Codes(a), Codes(b))
  }

  lemma {:induction false} BytesLeTotal(a: seq<int>, b: seq<int>)
    ensures BytesLe(a, b) || BytesLe(b, a)
    ensures BytesLe(a, b) && BytesLe(b, a) ==> a == b
  {
    if a != [] && b != [] && a[0] == b[0] {
      BytesLeTotal(a[1..], b[1..]);
      assert a == [a[0]] + a[1..] && b == [b[0]] + b[1..];
    }
  }

  lemma {:induction false} BytesLeTransitive(a: seq<int>, b: seq<int>, c: seq<int>)
    requires BytesLe(a, b) && BytesLe(b, c)
    ensures BytesLe(a, c)
  {
    if a != [] && a[0] == b[0] == c[0] {
      BytesLeTransitive(a[1..], b[1..], c[1..]);
    }
  }

  lemma BytesLeIsTotal()
    ensures TotalOrder(BytesLe)
  {
    forall a, b
      ensures BytesLe(a, b) || BytesLe(b, a)
      ensures BytesLe(a, b) && BytesLe(b, a) ==> a == b
    {
      BytesLeTotal(a, b);
    }
    forall a, b, c | BytesLe(a, b) && BytesLe(b, c)
      ensures BytesLe(a, c)
    {
      BytesLeTransitive(a, b, c);
    }
  }

  lemma StringLeIsTotal()
    ensures TotalOrder(StringLe)
  {
    BytesLeIsTotal();
    forall a: string, b: string | Codes(a) == Codes(b)
      ensures a == b
    {
      forall i | 0 <= i < |a|
        ensures a[i] == b[i]
      {
        assert Codes(a)[i] == Codes(b)[i];
      }
      assert |a| == |Codes(a)| == |b|;
    }
  }

  /** The order is that of the first place where two lists differ; a list comes before what it begins. */
  lemma {:induction false} TheFirstDifferenceDecides(front: seq<int>, x: int, a: seq<int>, y: int, b: seq<int>)
    requires x != y
    ensures BytesLe(front + ([x] + a), front + ([y] + b)) <==> x < y
    ensures BytesLe(front, front + ([y] + b)) && !BytesLe(front + ([y] + b), front)
  {
    if front == [] {
      assert front + ([x] + a) == [x] + a && front + ([y] + b) == [y] + b;
    } else {
      var s, t := front + ([x] + a), front + ([y] + b);
      assert s[1..] == front[1..] + ([x] + a) && t[1..] == front[1..] + ([y] + b);
      TheFirstDifferenceDecides(front[1..], x, a, y, b);
    }
  }

  /** Strings are ordered by the numbers of their characters. */
  lemma StringsAreOrderedByTheirCharacters(front: string, x: char, a: string, y: char, b: string)
    requires x != y
    ensures StringLe(front + ([x] + a), front + ([y] + b)) <==> x as int < y as int
    ensures StringLe(front, front + ([y] + b)) && !StringLe(front + ([y] + b), front)
  {
    hide BytesLe;
    TheFirstDifferenceDecides(Codes(front), x as int, Codes(a), y as int, Codes(b));
    assert Codes(front + ([x] + a)) == Codes(front) + ([x as int] + Codes(a));
    assert Codes(front + ([y] + b)) == Codes(front) + ([y as int] + Codes(b));
  }
}
