/**
 The one way in which a closed file can be incomplete: with a window of more than one packet
 the end-of-file packet can overtake data that was lost.
 */
module KermitOvertaking {
  import opened Bytes
  import opened KermitBytes
  import opened KermitFrame
  import opened KermitParse
  import opened ReceiveWindow
  import opened SequenceNumbers
  import opened SendWindow
  import opened KermitLink
  import opened KermitWire
  import opened KermitDelivery
  import opened KermitRuns

  // ------------------------------------------------------------------ closing too early

  lemma OneLess(t: map<int, seq<byte>>, lo: int)
    requires lo in t
    ensures |t| == |t - {lo}| + 1
  {
    assert t.Keys == (t - {lo}).Keys + {lo};
    assert |t| == |t.Keys| && |t - {lo}| == |(t - {lo}).Keys|;
  }

  lemma NoneInside(t: map<int, seq<byte>>, lo: int)
    requires forall p :: p in t ==> lo <= p < lo
    ensures |t| == 0
  {
    assert forall p :: p !in t.Keys;
    assert t.Keys == {};
    assert |t| == |t.Keys|;
  }

  lemma {:induction false} RangeLength(t: map<int, seq<byte>>, lo: int, hi: int)
    requires lo <= hi && forall p :: p in t ==> lo <= p < hi
    ensures |Range(t, lo, hi)| == |t|
    decreases hi - lo
  {
    hide Range;
    RangeUnfolds(t, lo, hi);
    if lo == hi {
      NoneInside(t, lo);
    } else if lo in t {
      OneLess(t, lo);
      FirstOfRange(t, lo, hi);
      RangeLength(t - {lo}, lo + 1, hi);
    } else {
      RangeLength(t, lo + 1, hi);
    }
  }

  lemma FirstOfRange(t: map<int, seq<byte>>, lo: int, hi: int)
    requires lo < hi && lo in t && forall p :: p in t ==> lo <= p
    ensures |Range(t, lo, hi)| == 1 + |Range(t - {lo}, lo + 1, hi)|
  {
    hide Range;
    RangeFirst(t, lo, lo, hi);
    RangeUnfolds(t - {lo}, lo, hi);
  }

  /** When the end-of-file packet comes, closing the file completes it exactly when the
      packets decoded and the packets waiting are together as many as the file has. */
  lemma {:induction false} ClosingCompletesIff(u: Setup, es: seq<Event>)
    requires ValidSetup(u) && !After(u, es).rcv.closed
    ensures var w := After(u, es).rcv.win;
      FlushAll(w).delivered == u.packets <==> |w.delivered| + |w.table| == |u.packets|
  {
    hide SenderOk, LinesOk, Ordered, ReceiveWindow.Valid, Range, Kept, After;
    var n := EveryRunKeeps(u, es);
    var l := After(u, es);
    FlushMeasured(u, l.rcv, n.got);
  }

  lemma FlushMeasured(u: Setup, r: Receiving, got: set<int>)
    requires ValidSetup(u) && OpenOk(u, r, got)
    ensures FlushAll(r.win).delivered == u.packets <==> |r.win.delivered| + |r.win.table| == |u.packets|
  {
    hide OpenOk, Range, Kept, FlushAll;
    FlushLength(u, r, got);
    if |r.win.delivered| + |r.win.table| == |u.packets| {
      FlushIsKept(u, r, got);
      TableIsFull(u, r, got);
      KeptAll(u, got + {Last(u)});
    }
  }

  lemma FlushLength(u: Setup, r: Receiving, got: set<int>)
    requires OpenOk(u, r, got)
    ensures |FlushAll(r.win).delivered| == |r.win.delivered| + |r.win.table|
  {
    hide Range;
    var w := r.win;
    RangeLength(w.table, w.high - w.size + 1, w.high + 1);
  }

  /** As many waiting packets as are missing are the missing packets. */
  lemma TableIsFull(u: Setup, r: Receiving, got: set<int>)
    requires ValidSetup(u) && OpenOk(u, r, got) && |r.win.delivered| + |r.win.table| == |u.packets|
    ensures forall p :: Origin(u) <= p < Last(u) ==> p in got
  {
    hide ReceiveWindow.Valid;
    var c := Front(u, r.win);
    TableStartsAtFront(u, r, got);
    FullInterval(r.win.table.Keys, c, Last(u));
  }

  lemma FullInterval(ps: set<int>, lo: int, hi: int)
    requires lo <= hi && |ps| == hi - lo && forall q :: q in ps ==> lo <= q < hi
    ensures forall p :: lo <= p < hi ==> p in ps
  {
    forall p | lo <= p < hi && p !in ps
      ensures false
    {
      FitsInterval(ps + {p}, lo, hi);
    }
  }

  // ------------------------------------------------------------------ the end overtakes data

  /** The numbers of the first `k` packets. */
  function First(u: Setup, k: nat): (ps: set<int>)
    ensures forall p :: p in ps <==> Origin(u) <= p < Origin(u) + k
  {
    if k == 0 then {} else First(u, k - 1) + {Origin(u) + k - 1}
  }

  /** The first `k` packets have arrived and are acknowledged, the next `j` are on the line. */
  ghost predicate Ahead(u: Setup, l: Link, k: nat, j: nat)
    requires ValidSetup(u)
  {
    && k <= |u.packets| && Origin(u) + k + j <= Last(u) + 1
    && SenderOk(u, l.snd, First(u, k)) && l.snd.base == Origin(u) + k && |l.snd.win| == j
    && l.snd.phase == (if Origin(u) + k + j <= Last(u) then Data else Eof)
    && |l.toRcv| == j && (forall i :: 0 <= i < j ==> l.toRcv[i] == WireOf(u, Origin(u) + k + i))
    && l.toSnd == [] && OpenOk(u, l.rcv, First(u, k)) && !l.rcv.closed
  }

  lemma InitiallyAhead(u: Setup)
    requires ValidSetup(u)
    ensures Ahead(u, After(u, []), 0, 0)
  {
    InitiallyInv(u);
    assert First(u, 0) == {};
  }

  lemma ValidOfAhead(u: Setup, l: Link, k: nat, j: nat)
    requires ValidSetup(u) && Ahead(u, l, k, j)
    ensures SendWindow.Valid(l.snd) && l.snd.size == u.size && NextOf(l.snd) == Origin(u) + k + j
  {
    hide WireOf;
  }

  /** While the window has room, a call of the sender puts the next packet on the line. */
  lemma AheadByOne(u: Setup, l: Link, k: nat, j: nat)
    requires ValidSetup(u) && Ahead(u, l, k, j) && Origin(u) + k + j <= Last(u) && j < u.size
    ensures SendWindow.Valid(l.snd) && Ahead(u, Step(u, l, SenderTimeout), k, j + 1)
  {
    hide WireOf, OpenOk, SenderOk, Transmit;
    ValidOfAhead(u, l, k, j);
    SenderTransmits(u, l.snd, First(u, k));
    TransmitPhase(u, l.snd, First(u, k));
  }

  lemma TransmitPhase(u: Setup, s: Sending, acked: set<int>)
    requires ValidSetup(u) && SenderOk(u, s, acked) && s.phase == Data
    ensures Transmit(s).snd.phase == (if NextOf(s) < Last(u) then Data else Eof)
  {
    hide Frame, WireOf;
  }

  /** The earliest packet arrives and is acknowledged; the window, full before, moves on. */
  lemma AheadMovesOn(u: Setup, l: Link, k: nat, mem: seq<byte>)
    requires ValidSetup(u) && Ahead(u, l, k, u.size) && Origin(u) + k + u.size <= Last(u) && |mem| >= MEMORY && u.size >= 2
    ensures SendWindow.Valid(l.snd) && Enabled(u, l, ReceiverCall(mem))
    ensures var m := Step(u, l, ReceiverCall(mem));
      SendWindow.Valid(m.snd) && Enabled(u, m, SenderCall(mem)) && Ahead(u, Step(u, m, SenderCall(mem)), k + 1, u.size)
  {
    hide WireOf, OpenOk, SenderOk, Transmit, Hear, Receive, OnAck, ReplyWire;
    ValidOfAhead(u, l, k, u.size);
    var p := Origin(u) + k;
    FirstArrives(u, l, k, mem);
    var m := Step(u, l, ReceiverCall(mem));
    ReplyIsHeard(u, Ack(p), mem);
    RunOnAck(m.snd, p % 64);
    FirstIsAcked(u, l.snd, k);
  }

  lemma FirstArrives(u: Setup, l: Link, k: nat, mem: seq<byte>)
    requires ValidSetup(u) && Ahead(u, l, k, u.size) && k < |u.packets| && |mem| >= MEMORY && u.size >= 1
    ensures var h := Hear(l.rcv, Receive(RcvConfig(u), l.toRcv[0], mem));
      && OpenOk(u, h.rcv, First(u, k + 1)) && !h.rcv.closed
      && h.replies == [Ack(Origin(u) + k)]
  {
    hide WireOf, SenderOk, Hear, Receive, Arrive;
    var p := Origin(u) + k;
    assert l.toRcv[0] == WireOf(u, p);
    WireIsHeard(u, p, mem);
    TableIsBehind(u, l.rcv, First(u, k));
    assert k > 0 ==> p - 1 in First(u, k);
    assert l.rcv.win.high == p - 1;
    HearsData(u, l.rcv, First(u, k), p);
    assert First(u, k) + {p} == First(u, k + 1);
    assert Skipped(p - 1, p) == [];
    assert [Ack(p)] + [] == [Ack(p)];
  }

  lemma FirstIsAcked(u: Setup, s: Sending, k: nat)
    requires ValidSetup(u) && SenderOk(u, s, First(u, k)) && s.base == Origin(u) + k && |s.win| == u.size >= 2
    requires s.phase == Data && k < |u.packets|
    ensures var r := OnAck(s, (Origin(u) + k) % 64);
      && SenderOk(u, r.snd, First(u, k + 1)) && r.snd.base == s.base + 1 && |r.snd.win| == u.size
      && r.sent == [WireOf(u, NextOf(s))] && r.snd.phase == (if NextOf(s) < Last(u) then Data else Eof)
  {
    hide WireOf, Freed, Transmit, Find, OutOk;
    var p := Origin(u) + k;
    assert First(u, k) + {p} == First(u, k + 1);
    AckFindsItsPacket(s, p);
    SenderFrees(u, s, First(u, k), p);
    var t := Freed(s, s.win[0 := s.win[0].(acked := true)]);
    FreedFrame(s, s.win[0 := s.win[0].(acked := true)]);
    FreedByOne(u, t, First(u, k + 1), k);
    SenderTransmits(u, t, First(u, k + 1));
    TransmitPhase(u, t, First(u, k + 1));
  }

  /** The window starts at the first packet that is not acknowledged. */
  lemma FreedByOne(u: Setup, t: Sending, acked: set<int>, k: nat)
    requires ValidSetup(u) && SenderOk(u, t, acked) && acked == First(u, k + 1) && NextOf(t) > Origin(u) + k + 1
    requires Origin(u) + k <= t.base && forall q :: Origin(u) + k <= q < t.base ==> q in acked
    ensures t.base == Origin(u) + k + 1
  {
    hide WireOf;
    assert t.base > Origin(u) + k + 1 ==> Origin(u) + k + 1 in acked;
    assert t.win != [] ==> OutOk(u, t, acked, 0);
  }

  lemma {:induction false} FillWindow(u: Setup, k: nat, j: nat, es: seq<Event>) returns (es': seq<Event>)
    requires ValidSetup(u) && Ahead(u, After(u, es), k, j) && j <= u.size
    ensures var full := if Last(u) + 1 - Origin(u) - k < u.size then Last(u) + 1 - Origin(u) - k else u.size;
      Ahead(u, After(u, es'), k, full)
    decreases u.size - j
  {
    hide Ahead, Step;
    var l := After(u, es);
    AheadBounds(u, l, k, j);
    if j == u.size || Origin(u) + k + j == Last(u) + 1 {
      es' := es;
    } else {
      AheadByOne(u, l, k, j);
      AfterOneMore(u, es, SenderTimeout);
      es' := FillWindow(u, k, j + 1, es + [SenderTimeout]);
    }
  }

  lemma AheadBounds(u: Setup, l: Link, k: nat, j: nat)
    requires ValidSetup(u) && Ahead(u, l, k, j)
    ensures k <= |u.packets| && Origin(u) + k + j <= Last(u) + 1
  {
    hide WireOf, OpenOk, SenderOk;
  }

  /** Some run has the end-of-file packet on the line behind one data packet at least. */
  lemma {:induction false} ReachEnd(u: Setup, k: nat, es: seq<Event>) returns (k': nat, es': seq<Event>)
    requires ValidSetup(u) && u.size >= 2 && k < |u.packets|
    requires Ahead(u, After(u, es), k, u.size) || Ahead(u, After(u, es), k, Last(u) + 1 - Origin(u) - k)
    ensures k' < |u.packets| && Ahead(u, After(u, es'), k', |u.packets| + 1 - k')
    decreases |u.packets| - k
  {
    hide Ahead, Step, Enabled, SendWindow.Valid, After;
    if Ahead(u, After(u, es), k, |u.packets| + 1 - k) {
      k', es' := k, es;
    } else {
      var l := After(u, es);
      AheadBounds(u, l, k, u.size);
      var mem := seq(MEMORY, i => NUL);
      AheadMovesOn(u, l, k, mem);
      AfterOneMore(u, es, ReceiverCall(mem));
      AfterOneMore(u, es + [ReceiverCall(mem)], SenderCall(mem));
      k', es' := ReachEnd(u, k + 1, es + [ReceiverCall(mem)] + [SenderCall(mem)]);
    }
  }

  lemma FirstIsLost(u: Setup, l: Link)
    requires ValidSetup(u) && SendWindow.Valid(l.snd) && l.toRcv != []
    ensures Enabled(u, l, LoseData(0)) && Step(u, l, LoseData(0)) == l.(toRcv := l.toRcv[1..])
  {
    hide SendWindow.Valid;
    assert Without(l.toRcv, 0) == l.toRcv[1..];
  }

  /** Losing what is in front of the last frame on the line leaves the rest as it was. */
  lemma {:induction false} LoseAllButLast(u: Setup, es: seq<Event>) returns (es': seq<Event>)
    requires ValidSetup(u) && After(u, es).toRcv != [] && SendWindow.Valid(After(u, es).snd)
    ensures var l := After(u, es); After(u, es') == l.(toRcv := [l.toRcv[|l.toRcv| - 1]])
    decreases |After(u, es).toRcv|
  {
    hide SendWindow.Valid, After, Step, Enabled;
    var l := After(u, es);
    if |l.toRcv| == 1 {
      es' := es;
      assert l.toRcv == [l.toRcv[0]];
    } else {
      FirstIsLost(u, l);
      AfterOneMore(u, es, LoseData(0));
      es' := LoseAllButLast(u, es + [LoseData(0)]);
    }
  }

  /** With room for two packets, some run closes every file that is not empty too early. */
  lemma EndOvertakesData(u: Setup) returns (es: seq<Event>)
    requires ValidSetup(u) && u.size >= 2 && u.packets != []
    ensures After(u, es).rcv.closed && |After(u, es).rcv.win.delivered| < |u.packets|
  {
    hide Step, SenderOk, OpenOk, WireOf, Hear, Receive, After, ReplyWires, SendWindow.Valid;
    InitiallyAhead(u);
    es := FillWindow(u, 0, 0, []);
    var k: nat;
    k, es := ReachEnd(u, 0, es);
    var l := After(u, es);
    ValidOfAhead(u, l, k, |u.packets| + 1 - k);
    es := LoseAllButLast(u, es);
    var m, mem := After(u, es), seq(MEMORY, i => NUL);
    assert m.toRcv == [WireOf(u, Last(u))];
    WireIsHeard(u, Last(u), mem);
    HearsEnd(u, l.rcv, First(u, k));
    ClosedAt(u, Hear(l.rcv, Receive(RcvConfig(u), m.toRcv[0], mem)).rcv, k);
    AfterOneMore(u, es, ReceiverCall(mem));
    StepReceives(u, m, mem);
    es := es + [ReceiverCall(mem)];
  }

  lemma StepReceives(u: Setup, l: Link, mem: seq<byte>)
    requires ValidSetup(u) && SendWindow.Valid(l.snd) && Enabled(u, l, ReceiverCall(mem))
    ensures Step(u, l, ReceiverCall(mem)).rcv == Hear(l.rcv, Receive(RcvConfig(u), l.toRcv[0], mem)).rcv
  {
    hide SendWindow.Valid, Hear, Receive;
  }

  lemma ClosedAt(u: Setup, r: Receiving, k: nat)
    requires ValidSetup(u) && k < |u.packets| && r.closed && ReceiverOk(u, r, First(u, k) + {Last(u)})
    ensures |r.win.delivered| == k
  {
    hide Range, Kept;
    var got := First(u, k) + {Last(u)};
    KeptStart(u, got, Origin(u) + k);
    forall p | Origin(u) + k <= p < Last(u)
      ensures p !in Kept(u, got)
    {
      KeptIs(u, got, p);
    }
    RangeOfNone(Kept(u, got), Origin(u) + k, Last(u));
  }

  /** Every run that closes the file closes it complete, exactly when the window is one
      packet or the file is empty. */
  lemma ClosedIsCompleteIff(u: Setup)
    requires ValidSetup(u)
    ensures (forall es :: After(u, es).rcv.closed ==> After(u, es).rcv.win.delivered == u.packets)
      <==> u.size == 1 || u.packets == []
  {
    hide After;
    if u.size == 1 {
      forall es | After(u, es).rcv.closed
        ensures After(u, es).rcv.win.delivered == u.packets
      {
        ClosedIsCompleteAtOne(u, es);
      }
    } else if u.packets == [] {
      forall es | After(u, es).rcv.closed
        ensures After(u, es).rcv.win.delivered == u.packets
      {
        ClosedIsEmpty(u, es);
      }
    } else {
      var es := EndOvertakesData(u);
    }
  }

  lemma {:induction false} ClosedIsEmpty(u: Setup, es: seq<Event>)
    requires ValidSetup(u) && u.packets == [] && After(u, es).rcv.closed
    ensures After(u, es).rcv.win.delivered == []
  {
    hide Range, SenderOk, LinesOk, Kept, After;
    var n := EveryRunKeeps(u, es);
    KeptAll(u, n.got);
  }
}
