/**
 Sequence numbers modulo 64: where one lies relative to the latest packet of a window, what the
 receiver's search makes of it, and which packet it stands for.
 */
module SequenceNumbers {
  /** Largest window the protocol allows. */
  const MAX_WINDOW := 31

  datatype Class = Next | Gap | Old | Stray

  /** How far `b` is ahead of `a`, modulo 64. */
  function Distance(a: int, b: int): (d: int)
    ensures 0 <= d < 64
  {
    (b - a) % 64
  }

  function Plus(h: int, i: int): int { (h + i) % 64 }

  /** Where sequence number `rseq` lies relative to the latest packet. */
  function Classify(size: nat, high: int, rseq: int): Class {
    if Distance(high, rseq) == 1 then Next
    else if 2 <= Distance(high, rseq) <= size then Gap
    else if Distance(rseq, high) < size then Old
    else Stray
  }

  /** Low end of the window, modulo 64. */
  function Low(size: nat, high: int): int { (high - size + 1) % 64 }

  /** What the search loops of the receiver make of it. The search among the old packets
      counts up from the low end of the window without wrapping and stops at the first match
      or at the wrapped high end. */
  ghost function SearchResult(size: nat, high: int, rseq: int): Class {
    if rseq == Plus(high, 1) then Next
    else if exists i :: 2 <= i <= size && rseq == Plus(high, i) then Gap
    else if Wraps(size, high) then Old
    else if Low(size, high) <= rseq < Plus(high, 1) then Old
    else Stray
  }

  /** The window lies across the wrap from 63 to 0. */
  predicate Wraps(size: nat, high: int) { Low(size, high) > Plus(high, 1) }

  /** Different packets less than 64 apart have different sequence numbers. */
  lemma NearAreDistinct(p: int, q: int)
    requires -64 < p - q < 64 && p != q
    ensures p % 64 != q % 64
  {
  }

  lemma DistanceOfMod(a: int, b: int)
    ensures Distance(a, b) == Distance(a % 64, b) == Distance(a, b % 64)
  {
    ModMultiple(b - a, a / 64);
    ModMultiple(b - a, -(b / 64));
    assert b - a % 64 == b - a + 64 * (a / 64);
    assert b % 64 - a == b - a + 64 * -(b / 64);
  }

  lemma ModMultiple(x: int, q: int)
    ensures (x + 64 * q) % 64 == x % 64
  {
  }

  lemma AheadIs(h: int, r: int)
    requires 0 <= r < 64
    ensures (h + Distance(h, r)) % 64 == r
  {
    var q := (r - h) / 64;
    assert h + Distance(h, r) == r + 64 * -q;
    ModMultiple(r, -q);
  }

  lemma BehindIs(h: int, r: int)
    requires 0 <= r < 64
    ensures (h - Distance(r, h)) % 64 == r
  {
    var q := (h - r) / 64;
    assert h - Distance(r, h) == r + 64 * q;
    ModMultiple(r, q);
  }

  lemma DistanceOfNear(a: int, b: int)
    ensures 0 <= b - a < 64 ==> Distance(a, b) == b - a
    ensures -64 <= b - a < 0 ==> Distance(a, b) == b - a + 64
  {
  }

  lemma PlusIsDistance(h: int, i: int, r: int)
    requires 0 <= r < 64 && 0 <= i < 64
    ensures r == Plus(h, i) <==> Distance(h, r) == i
  {
  }

  /** The search agrees with the distance modulo 64 except that, while the window lies
      across the wrap, it takes every stray number for an old packet. */
  lemma SearchIsRightIff(size: nat, high: int, rseq: int)
    requires 1 <= size <= MAX_WINDOW && 0 <= rseq < 64
    ensures SearchResult(size, high, rseq) == Classify(size, high, rseq)
      <==> !(Classify(size, high, rseq) == Stray && Wraps(size, high))
    ensures Classify(size, high, rseq) == Stray && Wraps(size, high) ==> SearchResult(size, high, rseq) == Old
  {
    hide Plus, Distance;
    var d := Distance(high, rseq);
    forall i | 1 <= i <= size
      ensures rseq == Plus(high, i) <==> d == i
    {
      PlusIsDistance(high, i, rseq);
    }
    if 2 <= d <= size {
      assert rseq == Plus(high, d);
    } else if d != 1 && !Wraps(size, high) {
      OldWithoutWrap(size, high, rseq);
    }
  }

  /** Such numbers exist at every window size: with the latest packet at 63 the window lies across
      the wrap, and the search takes the distant number 32 for an old packet. */
  lemma StrayIsTakenForOld(size: nat)
    requires 1 <= size <= MAX_WINDOW
    ensures Classify(size, 63, 32) == Stray && SearchResult(size, 63, 32) == Old
  {
    SearchIsRightIff(size, 63, 32);
  }

  /** The search sees the latest number modulo 64 only; when the packet is not stray or the
      window does not wrap, that is enough. */
  lemma SearchAt(size: nat, high: int, rseq: int)
    requires 1 <= size <= MAX_WINDOW && 0 <= rseq < 64
    ensures SearchResult(size, high % 64, rseq) == SearchResult(size, high, rseq)
    ensures !(Classify(size, high, rseq) == Stray && Wraps(size, high)) ==>
      SearchResult(size, high % 64, rseq) == Classify(size, high, rseq)
  {
    SearchIsRightIff(size, high, rseq);
    forall i: int
      ensures Plus(high % 64, i) == Plus(high, i)
    {
      ModMultiple(high % 64 + i, high / 64);
    }
    ModMultiple(high % 64 - size + 1, high / 64);
  }

  lemma OldWithoutWrap(size: nat, high: int, rseq: int)
    requires 1 <= size <= MAX_WINDOW && 0 <= rseq < 64 && !Wraps(size, high)
    ensures Low(size, high) <= rseq < Plus(high, 1) <==> Distance(rseq, high) < size
  {
    hide Distance;
    var h, q := high % 64, high / 64;
    DistanceOfMod(rseq, high);
    DistanceOfNear(rseq, h);
    ModMultiple(h - size + 1, q);
    ModMultiple(h + 1, q);
    assert high == h + 64 * q;
    SmallMod(h - size + 1);
    SmallMod(h + 1);
  }

  lemma SmallMod(x: int)
    requires -64 <= x < 128
    ensures x % 64 == if x < 0 then x + 64 else if x < 64 then x else x - 64
  {
  }

  /** A packet within one window of the latest one, on either side, is told apart by its
      number modulo 64. */
  lemma ClassOfNear(size: nat, high: int, r: int)
    requires 1 <= size <= MAX_WINDOW && high - size < r <= high + size
    ensures Classify(size, high, r % 64) == if r == high + 1 then Next else if r > high then Gap else Old
  {
    hide Distance;
    DistanceOfMod(high, r);
    DistanceOfMod(r, high);
    DistanceOfNear(high, r);
    DistanceOfNear(r, high);
  }

  /** The packet that `rseq` stands for, when it is not stray. */
  function Unwrap(size: nat, high: int, rseq: int): int {
    if 1 <= Distance(high, rseq) <= size then high + Distance(high, rseq) else high - Distance(rseq, high)
  }

  lemma UnwrapIsRight(size: nat, high: int, r: int)
    requires 1 <= size <= MAX_WINDOW && high - size < r <= high + size
    ensures Unwrap(size, high, r % 64) == r
  {
    hide Distance;
    DistanceOfMod(high, r);
    DistanceOfMod(r, high);
    DistanceOfNear(high, r);
    DistanceOfNear(r, high);
  }
}
