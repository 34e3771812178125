/** Trust-anchor payloads: a list of length-prefixed records behind a 16-bit length, and the cache that
    gives every set of records one order for the life of the process. */
module TrustAnchors {
  import opened Common
  import opened Bytes
  import opened Sorting

  type Record = seq<byte>

  datatype Error = ShorterThanItsLength | LengthDoesNotMatch | EmptyAnchor | PastTheList

  /** A record is its own length and that many bytes, at least one. */
  predicate IsRecord(r: Record) {
    |r| >= 2 && |r| == 1 + r[0] as int
  }

  function Flatten(rs: seq<Record>): seq<byte> {
    if rs == [] then [] else rs[0] + Flatten(rs[1..])
  }

  function SplitList(list: seq<byte>): Result<seq<Record>, Error> {
    if list == [] then Ok([])
    else
      var end := 1 + list[0] as int;
      if list[0] == 0 then Err(EmptyAnchor)
      else if end > |list| then Err(PastTheList)
      else Prepend([list[..end]], SplitList(list[end..]))
  }

  function Prepend(rs: seq<Record>, r: Result<seq<Record>, Error>): Result<seq<Record>, Error> {
    if r.Ok? then Ok(rs + r.value) else r
  }

  lemma PrependMore(rs: seq<Record>, x: Record, r: Result<seq<Record>, Error>)
    ensures Prepend([], r) == r
    ensures Prepend(rs, Prepend([x], r)) == Prepend(rs + [x], r)
  {
    if r.Ok? {
      assert [] + r.value == r.value;
      assert rs + ([x] + r.value) == rs + [x] + r.value;
    }
  }

  function Split(payload: seq<byte>): Result<seq<Record>, Error> {
    if |payload| < 2 then Err(ShorterThanItsLength)
    else if U16(payload) != |payload| - 2 then Err(LengthDoesNotMatch)
    else SplitList(payload[2..])
  }

  /** The length is cut to sixteen bits, as the conversion in the encoder cuts it. */
  function Join(rs: seq<Record>): seq<byte> {
    Put16(|Flatten(rs)| % 0x1_0000) + Flatten(rs)
  }

  method SplitTrustAnchors(payload: seq<byte>) returns (r: Result<seq<Record>, Error>)
    ensures r == Split(payload)
  {
    if |payload| < 2 {
      return Err(ShorterThanItsLength);
    }
    var list := payload[2..];
    if U16(payload) != |list| {
      return Err(LengthDoesNotMatch);
    }
    var records: seq<Record> := [];
    var offset := 0;
    assert list[0..] == list;
    PrependMore([], [], SplitList(list));
    while offset < |list|
      invariant 0 <= offset <= |list|
      invariant SplitList(list) == Prepend(records, SplitList(list[offset..]))
    {
      var length := list[offset] as int;
      assert list[offset..][0] == list[offset];
      if length == 0 {
        return Err(EmptyAnchor);
      }
      var end := offset + 1 + length;
      if end > |list| {
        return Err(PastTheList);
      }
      assert list[offset..][..1 + length] == list[offset..end] && list[offset..][1 + length..] == list[end..];
      PrependMore(records, list[offset..end], SplitList(list[end..]));
      records := records + [list[offset..end]];
      offset := end;
    }
    assert list[offset..] == [] && records + [] == records;
    return Ok(records);
  }

  method JoinTrustAnchors(records: seq<Record>) returns (payload: seq<byte>)
    ensures payload == Join(records)
  {
    FlattenNothing();
    var size := 0;
    for i := 0 to |records|
      invariant size == |Flatten(records[..i])|
    {
      FlattenSnoc(records[..i], records[i]);
      assert records[..i + 1] == records[..i] + [records[i]];
      size := size + |records[i]|;
    }
    assert records[..|records|] == records;
    payload := Put16(size % 0x1_0000);
    for i := 0 to |records|
      invariant payload == Put16(size % 0x1_0000) + Flatten(records[..i])
    {
      FlattenSnoc(records[..i], records[i]);
      assert records[..i + 1] == records[..i] + [records[i]];
      payload := payload + records[i];
    }
  }

  lemma FlattenNothing()
    ensures Flatten([]) == []
  {
  }

  lemma {:induction false} FlattenSnoc(rs: seq<Record>, r: Record)
    ensures Flatten(rs + [r]) == Flatten(rs) + r
  {
    if rs == [] {
      assert [r][1..] == [] && [] + [r] == [r];
    } else {
      FlattenSnoc(rs[1..], r);
      assert (rs + [r])[1..] == rs[1..] + [r];
    }
  }

  // ---------------------------------------------------------------------------------------------
  // Splitting and joining undo each other.

  lemma {:induction false} SplitFlat(rs: seq<Record>)
    requires forall r <- rs :: IsRecord(r)
    ensures SplitList(Flatten(rs)) == Ok(rs)
  {
    if rs != [] {
      SplitFlat(rs[1..]);
      var list := Flatten(rs);
      assert IsRecord(rs[0]) && list[0] == rs[0][0];
      assert list[..|rs[0]|] == rs[0] && list[|rs[0]|..] == Flatten(rs[1..]);
      assert [rs[0]] + rs[1..] == rs;
    }
  }

  lemma {:induction false} FlatSplit(list: seq<byte>)
    requires SplitList(list).Ok?
    ensures var rs := SplitList(list).value; Flatten(rs) == list && forall r <- rs :: IsRecord(r)
  {
    if list != [] {
      var end := 1 + list[0] as int;
      FlatSplit(list[end..]);
      var rs := SplitList(list).value;
      assert rs == [list[..end]] + SplitList(list[end..]).value;
      assert rs[1..] == SplitList(list[end..]).value;
      assert list == list[..end] + list[end..];
    }
  }

  /** Reading back what was written gives the records if and only if they are records and their length fits
      the prefix. */
  lemma JoinReadsBack(rs: seq<Record>)
    ensures Split(Join(rs)) == Ok(rs) <==> (forall r <- rs :: IsRecord(r)) && |Flatten(rs)| < 0x1_0000
  {
    hide SplitList, Flatten, IsRecord;
    var payload := Join(rs);
    assert payload[2..] == Flatten(rs);
    assert U16(payload) == U16(Put16(|Flatten(rs)| % 0x1_0000));
    if Split(payload) == Ok(rs) {
      FlatSplit(Flatten(rs));
    }
    if forall r <- rs :: IsRecord(r) {
      SplitFlat(rs);
    }
  }

  /** A payload that was accepted is written back byte for byte. */
  lemma SplitWritesBack(payload: seq<byte>)
    requires Split(payload).Ok?
    ensures Join(Split(payload).value) == payload
    ensures forall r <- Split(payload).value :: IsRecord(r)
  {
    hide SplitList, Flatten, IsRecord;
    FlatSplit(payload[2..]);
    Put16Inverse(payload[..2]);
    assert U16(payload[..2]) == U16(payload);
    assert payload == payload[..2] + payload[2..];
  }

  /** Where a payload is malformed: its length is not there; it is not that of the list; an anchor is empty; or an
      anchor runs past the list. What stands before the anchor does not matter. */
  lemma WhatIsMalformed(payload: seq<byte>, rs: seq<Record>, rest: seq<byte>)
    requires forall r <- rs :: IsRecord(r)
    ensures |payload| < 2 ==> Split(payload) == Err(ShorterThanItsLength)
    ensures |payload| >= 2 && 256 * (payload[0] as int) + payload[1] as int != |payload| - 2 ==>
              Split(payload) == Err(LengthDoesNotMatch)
    ensures (|payload| >= 2 && 256 * (payload[0] as int) + payload[1] as int == |payload| - 2 &&
             payload[2..] == Flatten(rs) + rest) ==>
              && (rest == [] ==> Split(payload) == Ok(rs))
              && (rest != [] && rest[0] == 0 ==> Split(payload) == Err(EmptyAnchor))
              && (rest != [] && rest[0] > 0 && rest[0] as int > |rest| - 1 ==> Split(payload) == Err(PastTheList))
  {
    if rest == [] {
      assert Flatten(rs) + rest == Flatten(rs);
      SplitFlat(rs);
    } else if rest[0] == 0 || rest[0] as int > |rest| - 1 {
      SplitAfter(rs, rest);
    }
    hide SplitList, Flatten, IsRecord;
  }

  lemma {:induction false} SplitAfter(rs: seq<Record>, rest: seq<byte>)
    requires (forall r <- rs :: IsRecord(r)) && SplitList(rest).Err?
    ensures SplitList(Flatten(rs) + rest) == SplitList(rest)
  {
    if rs == [] {
      assert Flatten(rs) + rest == rest;
    } else {
      SplitAfter(rs[1..], rest);
      var list := Flatten(rs) + rest;
      assert IsRecord(rs[0]) && list[0] == rs[0][0];
      assert list[..|rs[0]|] == rs[0] && list[|rs[0]|..] == Flatten(rs[1..]) + rest;
    }
  }

  /** What is written: the length in two bytes, cut to sixteen bits, and the records one after another. */
  lemma HowAnchorsAreWritten(rs: seq<Record>, r: Record)
    ensures Flatten([]) == [] && Flatten(rs + [r]) == Flatten(rs) + r
    ensures Join(rs) == [|Flatten(rs)| % 65536 / 256, |Flatten(rs)| % 65536 % 256] + Flatten(rs)
  {
    FlattenNothing();
    hide Flatten;
    FlattenSnoc(rs, r);
  }

  // ---------------------------------------------------------------------------------------------
  // The cache key.

  predicate RecordLe(a: Record, b: Record) {
    BytesLe(a, b)
  }

  lemma RecordLeIsTotal()
    ensures TotalOrder(RecordLe)
  {
    forall a: Record, b: Record
      ensures RecordLe(a, b) || RecordLe(b, a)
      ensures RecordLe(a, b) && RecordLe(b, a) ==> a == b
    {
      BytesLeTotal(a, b);
    }
    forall a: Record, b: Record, c: Record | RecordLe(a, b) && RecordLe(b, c)
      ensures RecordLe(a, c)
    {
      BytesLeTransitive(a, b, c);
    }
  }

  function Key(rs: seq<Record>): seq<byte> {
    Flatten(Sort(RecordLe, rs))
  }

  lemma SortedAreRecords(rs: seq<Record>)
    requires forall r <- rs :: IsRecord(r)
    ensures forall r <- Sort(RecordLe, rs) :: IsRecord(r)
    ensures multiset(Sort(RecordLe, rs)) == multiset(rs)
  {
    RecordLeIsTotal();
    SortSorts(RecordLe, rs);
    hide RecordLe, Sort, IsRecord;
    forall r | r in Sort(RecordLe, rs)
      ensures IsRecord(r)
    {
      assert r in multiset(Sort(RecordLe, rs));
    }
  }

  /** The key names the multiset: equal for the same records in any order, and only for those. */
  lemma KeyIsTheMultiset(a: seq<Record>, b: seq<Record>)
    requires (forall r <- a :: IsRecord(r)) && forall r <- b :: IsRecord(r)
    ensures Key(a) == Key(b) <==> multiset(a) == multiset(b)
  {
    SortedAreRecords(a);
    SortedAreRecords(b);
    SplitFlat(Sort(RecordLe, a));
    SplitFlat(Sort(RecordLe, b));
    RecordLeIsTotal();
    hide RecordLe, Sort, IsRecord, Flatten, SplitList, TotalOrder;
    SortIsCanonical(RecordLe, a, b);
  }

  // ---------------------------------------------------------------------------------------------
  // The cache.

  type Cache = map<seq<byte>, seq<byte>>

  /** Every entry is some order of the records its key was made of. */
  ghost predicate Sound(cache: Cache) {
    forall key <- cache :: IsOrderOf(key, cache[key])
  }

  ghost predicate IsOrderOf(key: seq<byte>, payload: seq<byte>) {
    && Split(payload).Ok?
    && Key(Split(payload).value) == key
  }

  /** One call: malformed input changes nothing; otherwise the answer is the entry of its set, which is made
      at the first call and never changes. */
  ghost predicate Called(cache: Cache, captured: seq<byte>, r: Result<seq<byte>, Error>, after: Cache) {
    match Split(captured)
    case Err(e) => r == Err(e) && after == cache
    case Ok(records) =>
      var key := Key(records);
      && r.Ok?
      && IsOrderOf(key, r.value)
      && |r.value| == |captured|
      && after == cache[key := r.value]
      && (key in cache ==> r.value == cache[key])
  }

  lemma CallsKeepSound(cache: Cache, captured: seq<byte>, r: Result<seq<byte>, Error>, after: Cache)
    requires Sound(cache) && Called(cache, captured, r, after)
    ensures Sound(after)
  {
  }

  method Shuffle(records: array<Record>, swaps: seq<(nat, nat)>)
    requires forall swap <- swaps :: swap.0 < records.Length && swap.1 < records.Length
    modifies records
    ensures multiset(records[..]) == multiset(old(records[..]))
  {
    for k := 0 to |swaps|
      invariant multiset(records[..]) == multiset(old(records[..]))
    {
      var i, j := swaps[k].0, swaps[k].1;
      records[i], records[j] := records[j], records[i];
    }
  }

  class TrustAnchorPayloads {
    var bySet: Cache

    constructor ()
      ensures bySet == map[] && Sound(bySet)
    {
      bySet := map[];
    }

    /** The shuffle is whatever swaps the random source asks for, as long as it has read the length. */
    method Payload(captured: seq<byte>, swaps: seq<(nat, nat)>) returns (r: Result<seq<byte>, Error>)
      requires Sound(bySet)
      requires Split(captured).Ok? ==>
                 forall swap <- swaps :: swap.0 < |Split(captured).value| && swap.1 < |Split(captured).value|
      modifies this
      ensures Called(old(bySet), captured, r, bySet) && Sound(bySet)
    {
      hide Split, Sort, Flatten, Join, IsRecord;
      var split := SplitTrustAnchors(captured);
      if split.Err? {
        return Err(split.error);
      }
      SplitWritesBack(captured);
      var sorted := Sort(RecordLe, split.value);
      SortedAreRecords(split.value);
      SameSize(sorted, split.value);
      var key := Flatten(sorted);
      if key in bySet {
        r := Ok(bySet[key]);
        SameKeySameSize(captured, bySet[key]);
        assert bySet == bySet[key := bySet[key]];
        return;
      }
      var records := new Record[|sorted|](i requires 0 <= i < |sorted| => sorted[i]);
      assert records[..] == sorted;
      Shuffle(records, swaps);
      var payload := JoinTrustAnchors(records[..]);
      ShuffledIsAnOrder(captured, records[..]);
      bySet := bySet[key := payload];
      r := Ok(payload);
    }
  }

  lemma SameSize(a: seq<Record>, b: seq<Record>)
    requires multiset(a) == multiset(b)
    ensures |a| == |b|
  {
    assert |multiset(a)| == |multiset(b)|;
  }

  lemma {:induction false} TakeOut(rs: seq<Record>, i: nat)
    requires i < |rs|
    ensures |Flatten(rs)| == |rs[i]| + |Flatten(rs[..i] + rs[i + 1..])|
    ensures multiset(rs[..i] + rs[i + 1..]) == multiset(rs) - multiset{rs[i]}
  {
    assert rs == rs[..i] + [rs[i]] + rs[i + 1..];
    if i > 0 {
      TakeOut(rs[1..], i - 1);
      assert rs[1..][..i - 1] + rs[1..][i..] == (rs[..i] + rs[i + 1..])[1..];
      assert (rs[..i] + rs[i + 1..])[0] == rs[0];
    } else {
      assert rs[..0] + rs[1..] == rs[1..];
    }
  }

  /** The bytes that go out are as many as came in, whatever the order. */
  lemma {:induction false} FlattenSize(a: seq<Record>, b: seq<Record>)
    requires multiset(a) == multiset(b)
    ensures |Flatten(a)| == |Flatten(b)|
  {
    SameSize(a, b);
    if a != [] {
      assert a == [a[0]] + a[1..];
      assert a[0] in multiset(b);
      var i :| 0 <= i < |b| && b[i] == a[0];
      TakeOut(b, i);
      assert multiset(a[1..]) == multiset(a) - multiset{a[0]};
      FlattenSize(a[1..], b[..i] + b[i + 1..]);
    }
  }

  lemma ShuffledIsAnOrder(captured: seq<byte>, shuffled: seq<Record>)
    requires Split(captured).Ok? && multiset(shuffled) == multiset(Split(captured).value)
    ensures IsOrderOf(Key(Split(captured).value), Join(shuffled))
    ensures |Join(shuffled)| == |captured|
  {
    var records := Split(captured).value;
    SplitWritesBack(captured);
    FlattenSize(shuffled, records);
    forall r | r in shuffled
      ensures IsRecord(r)
    {
      assert r in multiset(shuffled);
      assert r in multiset(records);
    }
    JoinReadsBack(shuffled);
    JoinReadsBack(records);
    KeyIsTheMultiset(shuffled, records);
  }

  lemma SameKeySameSize(a: seq<byte>, b: seq<byte>)
    requires Split(a).Ok? && IsOrderOf(Key(Split(a).value), b)
    ensures |a| == |b|
  {
    SplitWritesBack(a);
    SplitWritesBack(b);
    hide Split, Sort, Key, IsRecord;
    KeyIsTheMultiset(Split(a).value, Split(b).value);
    FlattenSize(Split(a).value, Split(b).value);
  }

  // ---------------------------------------------------------------------------------------------
  // Any number of calls.

  datatype Call = Call(captured: seq<byte>, answer: Result<seq<byte>, Error>)

  ghost predicate History(caches: seq<Cache>, calls: seq<Call>) {
    && |caches| == |calls| + 1
    && Sound(caches[0])
    && forall i :: 0 <= i < |calls| ==> Called(caches[i], calls[i].captured, calls[i].answer, caches[i + 1])
  }

  lemma {:induction false} HistorySound(caches: seq<Cache>, calls: seq<Call>, to: nat)
    requires History(caches, calls) && to <= |calls|
    ensures Sound(caches[to])
  {
    if to > 0 {
      HistorySound(caches, calls, to - 1);
      hide Called, Sound;
      assert Called(caches[to - 1], calls[to - 1].captured, calls[to - 1].answer, caches[to - 1 + 1]);
      CallsKeepSound(caches[to - 1], calls[to - 1].captured, calls[to - 1].answer, caches[to]);
    }
  }

  lemma {:induction false} EntriesStay(caches: seq<Cache>, calls: seq<Call>, key: seq<byte>, from: nat, to: nat)
    requires History(caches, calls) && from <= to <= |calls| && key in caches[from]
    ensures key in caches[to] && caches[to][key] == caches[from][key]
  {
    if from < to {
      EntriesStay(caches, calls, key, from, to - 1);
      assert Called(caches[to - 1], calls[to - 1].captured, calls[to - 1].answer, caches[to - 1 + 1]);
      hide Split, Key;
    }
  }

  /** Over the life of a process: two well-formed captures are answered with the same bytes if and only if
      they hold the same anchors, and every answer holds exactly the anchors of its capture. */
  lemma OneOrderPerSet(caches: seq<Cache>, calls: seq<Call>, i: nat, j: nat)
    requires History(caches, calls) && i <= j < |calls|
    requires Split(calls[i].captured).Ok? && Split(calls[j].captured).Ok?
    ensures calls[i].answer.Ok? && calls[j].answer.Ok?
    ensures calls[i].answer.value == calls[j].answer.value <==>
            multiset(Split(calls[i].captured).value) == multiset(Split(calls[j].captured).value)
    ensures Split(calls[i].answer.value).Ok?
    ensures multiset(Split(calls[i].answer.value).value) == multiset(Split(calls[i].captured).value)
  {
    var a, b := calls[i], calls[j];
    assert Called(caches[i], a.captured, a.answer, caches[i + 1]);
    assert Called(caches[j], b.captured, b.answer, caches[j + 1]);
    SplitWritesBack(a.captured);
    SplitWritesBack(b.captured);
    SplitWritesBack(a.answer.value);
    hide Split, Key, IsRecord, Sound;
    KeyIsTheMultiset(Split(a.captured).value, Split(b.captured).value);
    KeyIsTheMultiset(Split(a.captured).value, Split(a.answer.value).value);
    if i < j {
      EntriesStay(caches, calls, Key(Split(a.captured).value), i + 1, j);
    }
  }
}
