/**
 The ranges of handles that a client has still to explore, and what taking a service out of
 them does.
 */
module GattRanges {
  import opened Bytes
  import opened Gatt

  datatype Range = Range(start: int, end: int)

  predicate InBounds(r: Range) { 1 <= r.start <= r.end <= MAX_HANDLE }

  /** Ranges in order, none empty, no two with a handle in common. */
  ghost predicate Sorted(rs: seq<Range>) {
    && (forall i :: 0 <= i < |rs| ==> InBounds(rs[i]))
    && forall i, j :: 0 <= i < j < |rs| ==> rs[i].end < rs[j].start
  }

  ghost predicate Covers(rs: seq<Range>, h: int) { exists i :: 0 <= i < |rs| && rs[i].start <= h <= rs[i].end }

  /** Position of the first range that `start` lies in, or the number of ranges. */
  function Holder(rs: seq<Range>, start: int): (i: nat)
    ensures i <= |rs| && (i < |rs| ==> rs[i].start <= start <= rs[i].end)
    ensures forall j :: 0 <= j < i ==> !(rs[j].start <= start <= rs[j].end)
  {
    if rs == [] || rs[0].start <= start <= rs[0].end then 0 else Holder(rs[1..], start) + 1
  }

  /** The handle behind `h`, as a 16-bit number. */
  function Behind(h: int): int { (h + 1) % 0x10000 }

  /** What becomes of the range that `start` lies in. */
  function Left(r: Range, start: int, end: int): seq<Range> {
    if r.start == start && r.end == end then []
    else if r.start == start then [Range(Behind(end), r.end)]
    else if r.end == end then [Range(r.start, start - 1)]
    else [Range(r.start, start - 1), Range(Behind(end), r.end)]
  }

  /** Takes the handles from `start` to `end` out of the range that `start` lies in. */
  function Removed(rs: seq<Range>, start: int, end: int): seq<Range> {
    var i := Holder(rs, start);
    if i < |rs| then rs[..i] + Left(rs[i], start, end) + rs[i + 1..] else rs
  }

  /** The handles from `start` to `end` are gone, all the others are still there, and the list is
      in order. */
  ghost predicate IsDifference(rs: seq<Range>, start: int, end: int) {
    && Sorted(Removed(rs, start, end))
    && forall h :: Covers(Removed(rs, start, end), h) <==> Covers(rs, h) && !(start <= h <= end)
  }

  lemma CoversJoined(a: seq<Range>, b: seq<Range>, h: int)
    ensures Covers(a + b, h) <==> Covers(a, h) || Covers(b, h)
  {
    if Covers(a, h) {
      var i :| 0 <= i < |a| && a[i].start <= h <= a[i].end;
      assert (a + b)[i] == a[i];
    }
    if Covers(b, h) {
      var i :| 0 <= i < |b| && b[i].start <= h <= b[i].end;
      assert (a + b)[|a| + i] == b[i];
    }
  }

  lemma CoversThree(a: seq<Range>, b: seq<Range>, c: seq<Range>, h: int)
    ensures Covers(a + b + c, h) <==> Covers(a, h) || Covers(b, h) || Covers(c, h)
  {
    CoversJoined(a + b, c, h);
    CoversJoined(a, b, h);
  }

  lemma CoversOne(r: Range, h: int)
    ensures Covers([r], h) <==> r.start <= h <= r.end
  {
    assert [r][0] == r;
  }

  lemma LeftCovers(r: Range, start: int, end: int, h: int)
    requires InBounds(r) && r.start <= start <= end <= r.end
    ensures Covers(Left(r, start, end), h) <==> r.start <= h <= r.end && !(start <= h <= end)
  {
    CoversOne(Range(r.start, start - 1), h);
    CoversOne(Range(end + 1, r.end), h);
    CoversJoined([Range(r.start, start - 1)], [Range(end + 1, r.end)], h);
    assert end < r.end ==> Behind(end) == end + 1;
    assert [Range(r.start, start - 1)] + [Range(end + 1, r.end)] == [Range(r.start, start - 1), Range(end + 1, r.end)];
    hide Covers;
    assert !Covers([], h);
  }

  /** The ranges around range `i`. */
  lemma Around(rs: seq<Range>, i: nat)
    requires Sorted(rs) && i < |rs|
    ensures rs[..i] + [rs[i]] + rs[i + 1..] == rs && InBounds(rs[i]) && Sorted(rs[..i]) && Sorted(rs[i + 1..])
    ensures forall j :: 0 <= j < i ==> rs[..i][j].end < rs[i].start
    ensures var b := rs[i + 1..]; forall j :: 0 <= j < |b| ==> rs[i].end < b[j].start
  {
  }

  lemma JoinSorted(a: seq<Range>, l: seq<Range>, b: seq<Range>, lo: int, hi: int)
    requires Sorted(a) && Sorted(l) && Sorted(b)
    requires (forall i :: 0 <= i < |a| ==> a[i].end < lo) && (forall i :: 0 <= i < |b| ==> hi < b[i].start)
    requires lo <= hi && forall i :: 0 <= i < |l| ==> lo <= l[i].start && l[i].end <= hi
    ensures Sorted(a + l + b)
  {
    var r := a + l + b;
    forall i | 0 <= i < |r|
      ensures r[i] == if i < |a| then a[i] else if i < |a| + |l| then l[i - |a|] else b[i - |a| - |l|]
    {
    }
  }

  lemma LeftInside(r: Range, start: int, end: int)
    requires InBounds(r) && r.start <= start <= end <= r.end
    ensures var l := Left(r, start, end);
      Sorted(l) && forall j :: 0 <= j < |l| ==> r.start <= l[j].start && l[j].end <= r.end
  {
  }

  /** A range that reaches as far as what is taken out of it leaves ranges in order. */
  lemma LeftIsSorted(rs: seq<Range>, start: int, end: int)
    requires Sorted(rs) && start <= end && Holder(rs, start) < |rs| && end <= rs[Holder(rs, start)].end
    ensures Sorted(Removed(rs, start, end))
  {
    var i := Holder(rs, start);
    Around(rs, i);
    LeftInside(rs[i], start, end);
    hide Sorted, Holder, Left;
    JoinSorted(rs[..i], Left(rs[i], start, end), rs[i + 1..], rs[i].start, rs[i].end);
  }

  lemma UnsortedInside(a: seq<Range>, l: seq<Range>, b: seq<Range>)
    requires l != [] && !InBounds(l[|l| - 1])
    ensures !Sorted(a + l + b)
  {
    assert (a + l + b)[|a| + |l| - 1] == l[|l| - 1];
  }

  lemma LeftOutOfBounds(r: Range, start: int, end: int)
    requires r.start <= start <= r.end < end <= MAX_HANDLE
    ensures Left(r, start, end) != [] && var l := Left(r, start, end); !InBounds(l[|l| - 1])
  {
  }

  /** A range that does not reach so far leaves one that ends before it starts, or starts at
      handle 0. */
  lemma LeftIsUnsorted(rs: seq<Range>, start: int, end: int)
    requires end <= MAX_HANDLE && Holder(rs, start) < |rs| && rs[Holder(rs, start)].end < end
    ensures !Sorted(Removed(rs, start, end))
  {
    hide Sorted, Left;
    var i := Holder(rs, start);
    LeftOutOfBounds(rs[i], start, end);
    UnsortedInside(rs[..i], Left(rs[i], start, end), rs[i + 1..]);
  }

  lemma OthersAreElsewhere(rs: seq<Range>, i: nat, start: int, end: int, h: int)
    requires Sorted(rs) && i < |rs| && rs[i].start <= start && end <= rs[i].end && start <= h <= end
    ensures !Covers(rs[..i], h) && !Covers(rs[i + 1..], h)
  {
  }

  lemma {:induction false} RemovedCovers(rs: seq<Range>, start: int, end: int, h: int)
    requires Sorted(rs) && start <= end && Holder(rs, start) < |rs| && end <= rs[Holder(rs, start)].end
    ensures Covers(Removed(rs, start, end), h) <==> Covers(rs, h) && !(start <= h <= end)
  {
    hide Covers, Sorted, Left, Holder;
    var i := Holder(rs, start);
    var a, r, b := rs[..i], rs[i], rs[i + 1..];
    Around(rs, i);
    if start <= h <= end {
      OthersAreElsewhere(rs, i, start, end, h);
    }
    CoversThree(a, Left(r, start, end), b, h);
    CoversThree(a, [r], b, h);
    CoversOne(r, h);
    LeftCovers(r, start, end, h);
  }

  /** The condition a caller can check: the range that `start` lies in reaches `end`, or, when
      there is none, no range starts before `end`. */
  predicate Fits(rs: seq<Range>, start: int, end: int) {
    var i := Holder(rs, start);
    if i < |rs| then end <= rs[i].end else forall j :: 0 <= j < |rs| ==> !(start <= rs[j].start <= end)
  }

  /** Taking handles out removes exactly these handles and leaves the list in order, exactly when
      the condition holds. */
  lemma RemovedIsDifferenceIff(rs: seq<Range>, start: int, end: int)
    requires Sorted(rs) && 1 <= start <= end <= MAX_HANDLE
    ensures IsDifference(rs, start, end) <==> Fits(rs, start, end)
  {
    var i := Holder(rs, start);
    if i < |rs| && end <= rs[i].end {
      LeftIsSorted(rs, start, end);
      forall h
        ensures Covers(Removed(rs, start, end), h) <==> Covers(rs, h) && !(start <= h <= end)
      {
        RemovedCovers(rs, start, end, h);
      }
    } else if i < |rs| {
      LeftIsUnsorted(rs, start, end);
    } else if j :| 0 <= j < |rs| && start <= rs[j].start <= end {
      assert InBounds(rs[j]);
      assert Covers(rs, rs[j].start);
    }
  }

  /** Where it fails: a service that reaches over the end of the range it starts in leaves
      handles behind and turns a range around. */
  lemma ReachingOverFails()
    ensures var rs := [Range(1, 5), Range(8, 20)];
      Sorted(rs) && Removed(rs, 3, 10) == [Range(1, 2), Range(11, 5), Range(8, 20)] && !IsDifference(rs, 3, 10)
  {
    var rs := [Range(1, 5), Range(8, 20)];
    assert Holder(rs, 3) == 0;
    assert Removed(rs, 3, 10) == [] + [Range(1, 2), Range(11, 5)] + rs[1..];
    assert Removed(rs, 3, 10)[1] == Range(11, 5);
  }

  class DiscoveryRanges {
    var ranges: seq<Range>

    constructor (start: int, end: int)
      ensures ranges == [Range(start, end)]
    {
      ranges := [Range(start, end)];
    }

    method RemoveDiscovRange(start: int, end: int)
      modifies this
      ensures ranges == Removed(old(ranges), start, end)
    {
      hide Holder;
      var i := FindRange(start);
      if i == |ranges| {
        return;
      }
      var r, rest := ranges[i], ranges[i + 1..];
      if r.start == start && r.end == end {
        ranges := ranges[..i] + rest;
        assert ranges == old(ranges)[..i] + [] + rest;
      } else if r.start == start {
        ranges := ranges[..i] + [r.(start := Behind(end))] + rest;
      } else if r.end == end {
        ranges := ranges[..i] + [r.(end := start - 1)] + rest;
      } else {
        var added := Range(Behind(end), r.end);
        ranges := ranges[..i] + [r.(end := start - 1), added] + rest;
      }
    }

    method FindRange(start: int) returns (i: nat)
      ensures i == Holder(ranges, start)
    {
      i := 0;
      while i < |ranges| && !(start >= ranges[i].start && start <= ranges[i].end)
        invariant i <= |ranges| && Holder(ranges, start) == i + Holder(ranges[i..], start)
      {
        assert ranges[i..][1..] == ranges[i + 1..];
        i := i + 1;
      }
    }
  }
}
