/**
 The receive window in absolute packet numbers. On the line a packet carries its number
 modulo 64 and is identified by it as module SequenceNumbers says; here is what the window
 does with it. Class `Receiver` in module KermitReceiver does the same with slots and a finder
 array.
 */
module ReceiveWindow {
  import opened Bytes
  import opened KermitBytes
  import opened SequenceNumbers

  /** `table` holds the packets that wait to be decoded, `high` is the latest packet seen,
      `delivered` the data fields handed to the decoder, in order. */
  datatype Window = Window(size: nat, high: int, table: map<int, seq<byte>>, delivered: seq<seq<byte>>)

  datatype Reply = Ack(num: int) | Nak(num: int)

  ghost predicate Valid(w: Window) {
    && 1 <= w.size <= MAX_WINDOW
    && (forall p :: p in w.table ==> w.high - w.size < p <= w.high && w.table[p] != [] && NUL !in w.table[p])
    && (w.table != map[] ==> w.high in w.table)
  }

  // ------------------------------------------------------------------ what the window does

  /** The packets of `t` with numbers from `lo` up to but excluding `hi`, in order. */
  function Range(t: map<int, seq<byte>>, lo: int, hi: int): seq<seq<byte>>
    decreases hi - lo
  {
    if lo >= hi then []
    else (if lo in t then [t[lo]] else []) + Range(t, lo + 1, hi)
  }

  /** Packets `n` and later only. */
  function From(t: map<int, seq<byte>>, n: int): map<int, seq<byte>> {
    map p | p in t && p >= n :: t[p]
  }

  /** Data packet `r` arrives. A new one pushes out, in order, what no longer fits the
      window; an old one is stored only if it was missing. */
  function Arrive(w: Window, r: int, data: seq<byte>): Window {
    if r > w.high then
      var low := r - w.size + 1;
      w.(high := r, table := From(w.table, low)[r := data],
         delivered := w.delivered + Range(w.table, w.high - w.size + 1, low))
    else if r > w.high - w.size && r !in w.table then w.(table := w.table[r := data])
    else w
  }

  /** Requests for the packets between `high` and `r`. */
  function Skipped(high: int, r: int): (rs: seq<Reply>)
    requires high < r
    ensures |rs| == r - high - 1 && forall i :: 0 <= i < |rs| ==> rs[i] == Nak(high + 1 + i)
  {
    seq(r - high - 1, i requires 0 <= i < r - high - 1 => Nak(high + 1 + i))
  }

  /** What is sent back: an acknowledgement, and a request for every packet skipped. */
  function Replies(w: Window, r: int): seq<Reply> {
    if r > w.high then [Ack(r)] + (if w.table == map[] then [] else Skipped(w.high, r))
    else if r > w.high - w.size then [Ack(r)]
    else []
  }

  /** The end of the file: everything that waits is decoded, in order. */
  function FlushAll(w: Window): Window {
    w.(table := map[], delivered := w.delivered + Range(w.table, w.high - w.size + 1, w.high + 1))
  }

  /** The packet that `rseq` stands for when it is not stray. An empty window takes any number for
      the next packet. */
  function Placed(w: Window, rseq: int): int {
    if w.table == map[] then w.high + 1 + Distance(w.high + 1, rseq) else Unwrap(w.size, w.high, rseq)
  }

  lemma PlacedIsNear(w: Window, rseq: int)
    requires 1 <= w.size <= MAX_WINDOW && 0 <= rseq < 64 && (w.table == map[] || Classify(w.size, w.high, rseq) != Stray)
    ensures Placed(w, rseq) % 64 == rseq
    ensures if w.table == map[] then w.high < Placed(w, rseq) else w.high - w.size < Placed(w, rseq) <= w.high + w.size
  {
    AheadIs(w.high, rseq);
    AheadIs(w.high + 1, rseq);
    BehindIs(w.high, rseq);
    hide Distance;
  }

  lemma PlacedIsRight(w: Window, r: int)
    requires 1 <= w.size <= MAX_WINDOW && w.high - w.size < r <= w.high + w.size && (w.table == map[] ==> w.high < r)
    ensures Placed(w, r % 64) == r
  {
    hide Distance, Unwrap;
    UnwrapIsRight(w.size, w.high, r);
    DistanceOfMod(w.high + 1, r);
    DistanceOfNear(w.high + 1, r);
  }

  /** The window once packet `p` has been handed to the decoder. */
  function Delivered(w: Window, p: int): Window
    requires p in w.table
  {
    w.(table := w.table - {p}, delivered := w.delivered + [w.table[p]])
  }

  lemma DeliveredKeepsValid(w: Window, m: int)
    requires Valid(w) && m in w.table && forall p :: p in w.table ==> m <= p
    ensures Valid(Delivered(w, m))
  {
    var t := w.table - {m};
    if m == w.high {
      assert forall p :: p in t ==> p == m;
      assert t == map[];
    }
  }

  /** The window after making room for packet `r`. */
  function Aligned(w: Window, r: int): Window {
    w.(table := From(w.table, r - w.size + 1),
       delivered := w.delivered + Range(w.table, w.high - w.size + 1, r - w.size + 1))
  }

  /** Making room by one packet, the earliest, is the first part of making room. */
  lemma AlignOne(w: Window, r: int, m: int)
    requires Valid(w) && m in w.table && m <= r - w.size && forall p :: p in w.table ==> m <= p
    ensures Aligned(Delivered(w, m), r) == Aligned(w, r)
    ensures |Delivered(w, m).table| == |w.table| - 1
  {
    RangeFirst(w.table, w.high - w.size + 1, m, r - w.size + 1);
    var t := w.table - {m};
    assert From(t, r - w.size + 1) == From(w.table, r - w.size + 1);
    assert w.table == t[m := w.table[m]];
  }

  /** A window of packets that all fit stays as it is. */
  lemma AlignedEnd(w: Window, r: int)
    requires Valid(w) && forall p :: p in w.table ==> p > r - w.size
    ensures Aligned(w, r) == w
  {
    RangeOfNone(w.table, w.high - w.size + 1, r - w.size + 1);
    assert From(w.table, r - w.size + 1) == w.table;
    assert w.delivered + [] == w.delivered;
  }

  lemma FromKeeps(t: map<int, seq<byte>>, n: int)
    ensures forall p :: p in From(t, n) <==> p in t && p >= n
  {
  }

  lemma FlushOne(w: Window, m: int)
    requires Valid(w) && m in w.table && forall p :: p in w.table ==> m <= p
    ensures FlushAll(Delivered(w, m)) == FlushAll(w)
    ensures |Delivered(w, m).table| == |w.table| - 1
  {
    RangeFirst(w.table, w.high - w.size + 1, m, w.high + 1);
    assert w.table == (w.table - {m})[m := w.table[m]];
  }

  lemma FlushOfNone(w: Window)
    requires w.table == map[]
    ensures FlushAll(w) == w
  {
    RangeOfNone(w.table, w.high - w.size + 1, w.high + 1);
    assert w.delivered + [] == w.delivered;
  }

  /** Numbers in an interval are no more than its length. */
  lemma {:induction false} FitsInterval(ps: set<int>, lo: int, hi: int)
    requires lo <= hi && forall p :: p in ps ==> lo <= p < hi
    ensures |ps| <= hi - lo
    decreases hi - lo
  {
    if lo == hi {
      if ps != {} {
        var p :| p in ps;
        assert false;
      }
    } else {
      FitsInterval(ps - {lo}, lo + 1, hi);
    }
  }

  lemma ArriveKeepsValid(w: Window, r: int, data: seq<byte>)
    requires Valid(w) && data != [] && NUL !in data && (w.table == map[] ==> r > w.high)
    ensures Valid(Arrive(w, r, data))
  {
  }

  // ------------------------------------------------------------------ ranges

  lemma RangeUnfolds(t: map<int, seq<byte>>, lo: int, hi: int)
    ensures lo >= hi ==> Range(t, lo, hi) == []
    ensures lo < hi && lo !in t ==> Range(t, lo, hi) == Range(t, lo + 1, hi)
    ensures lo < hi && lo in t ==> Range(t, lo, hi) == [t[lo]] + Range(t, lo + 1, hi)
  {
  }

  lemma {:induction false} RangeOfNone(t: map<int, seq<byte>>, lo: int, hi: int)
    requires forall p :: lo <= p < hi ==> p !in t
    ensures Range(t, lo, hi) == []
    decreases hi - lo
  {
    if lo < hi {
      RangeOfNone(t, lo + 1, hi);
    }
  }

  lemma {:induction false} RangeSplits(t: map<int, seq<byte>>, lo: int, mid: int, hi: int)
    requires lo <= mid <= hi
    ensures Range(t, lo, hi) == Range(t, lo, mid) + Range(t, mid, hi)
    decreases mid - lo
  {
    if lo < mid {
      RangeSplits(t, lo + 1, mid, hi);
    } else {
      assert Range(t, lo, mid) == [];
    }
  }

  lemma {:induction false} RangeAgrees(t: map<int, seq<byte>>, u: map<int, seq<byte>>, lo: int, hi: int)
    requires forall p :: lo <= p < hi ==> (p in t <==> p in u) && (p in t ==> t[p] == u[p])
    ensures Range(t, lo, hi) == Range(u, lo, hi)
    decreases hi - lo
  {
    if lo < hi {
      RangeAgrees(t, u, lo + 1, hi);
    }
  }

  /** Taking out the oldest packet takes the first one off the list. */
  lemma RangeFirst(t: map<int, seq<byte>>, lo: int, m: int, hi: int)
    requires lo <= m < hi && m in t && forall p :: p in t ==> m <= p
    ensures Range(t, lo, hi) == [t[m]] + Range(t - {m}, lo, hi)
  {
    RangeStep(t, m, hi);
    hide Range;
    RangeSplits(t, lo, m, hi);
    RangeOfNone(t, lo, m);
    RangeSplits(t - {m}, lo, m + 1, hi);
    RangeOfNone(t - {m}, lo, m + 1);
    RangeAgrees(t, t - {m}, m + 1, hi);
    assert [] + ([t[m]] + Range(t, m + 1, hi)) == [t[m]] + Range(t, m + 1, hi);
    assert [] + Range(t - {m}, m + 1, hi) == Range(t - {m}, m + 1, hi);
  }

  lemma RangeStep(t: map<int, seq<byte>>, lo: int, hi: int)
    requires lo < hi && lo in t
    ensures Range(t, lo, hi) == [t[lo]] + Range(t, lo + 1, hi)
  {
  }
}
