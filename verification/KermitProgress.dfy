/**
 The transfer can always still be completed, with a window of one packet: from every state in
 which the sender has not given up and may still repeat its packet.
 */
module KermitProgress {
  import opened Bytes
  import opened KermitBytes
  import opened KermitFrame
  import opened KermitParse
  import opened ReceiveWindow
  import opened SequenceNumbers
  import opened SendWindow
  import opened KermitLink
  import opened KermitWire
  import opened KermitDelivery
  import opened KermitRuns

  // ------------------------------------------------------------------ one frame, one reply

  /** The label of an undamaged frame is the packet it carries. */
  lemma LabelIsRight(u: Setup, p: int, q: int)
    requires ValidSetup(u) && Origin(u) <= p <= Last(u) && DataOk(u, WireOf(u, p), q) && -64 < p - q < 64
    ensures p == q
  {
    hide WireOf, Receive;
    WireIsHeard(u, p, seq(MEMORY, i => NUL));
    if p != q {
      NearAreDistinct(p, q);
    }
  }

  /** With a window of one, no data packet is on the line once the file is closed. */
  lemma DataComesBeforeEnd(u: Setup, base: int, next: int, n: Labels)
    requires u.size == 1 && Ordered(u, base, next, n) && n.down != [] && Last(u) in n.got
    ensures n.down[0] == Last(u)
  {
    assert (n.up + n.down)[|n.up|] == n.down[0];
  }

  /** With a window of one, the first frame on the line is that of the current packet or the one
      before. */
  lemma FirstIsRecent(u: Setup, base: int, next: int, n: Labels)
    requires u.size == 1 && Ordered(u, base, next, n) && n.down != []
    ensures base - 1 <= n.down[0] <= base
  {
    assert (n.up + n.down)[|n.up|] == n.down[0];
    assert base > Origin(u) ==> base - 1 in n.acked;
  }

  lemma OneReply(w: Window, p: int)
    requires w.size == 1 && w.high - 1 < p <= w.high + 1
    ensures Replies(w, p) == [Ack(p)]
  {
  }

  /** A receiver that has not stopped acknowledges the packet it hears and does not stop. */
  lemma Answers(u: Setup, l: Link, n: Labels, p: int, heard: Parsed)
    requires ValidSetup(u) && u.size == 1 && Inv(u, l, n) && n.down != [] && p == n.down[0] && l.rcv.phase != Stopped
    requires Origin(u) <= p <= Last(u)
    requires heard == PacketOf(u, p)
    ensures var h := Hear(l.rcv, heard);
      h.rcv.phase != Stopped && |h.replies| == 1 && h.replies[0].Ack? && h.replies[0].num % 64 == p % 64
  {
    hide SenderOk, LinesOk, Replies, Hear;
    if p == Last(u) {
      EndIsAnswered(u, l.rcv, n.got);
    } else {
      if l.rcv.closed {
        DataComesBeforeEnd(u, l.snd.base, NextOf(l.snd), n);
      }
      DataCounts(u, l, n, p);
      TableIsBehind(u, l.rcv, n.got);
      ArrivalIsNear(u, l.snd.base, NextOf(l.snd), n, l.rcv.win.high);
      OneReply(l.rcv.win, p);
    }
  }

  lemma EndIsAnswered(u: Setup, r: Receiving, got: set<int>)
    requires ValidSetup(u) && ReceiverOk(u, r, got) && r.phase != Stopped
    ensures var h := Hear(r, Good(TYPE_Z, Last(u) % 64, [])); h.rcv.phase != Stopped && h.replies == [Ack(Last(u) % 64)]
  {
    HearsEnd(u, r, got);
    hide Range, Kept, FlushAll;
  }

  /** With a window of one, the receiver never stops for a packet it does not want. */
  lemma {:induction false} NeverStops(u: Setup, es: seq<Event>)
    requires ValidSetup(u) && u.size == 1
    ensures After(u, es).rcv.phase != Stopped
  {
    hide Inv, Enabled, SendWindow.Valid, Hear, Receive;
    if es != [] {
      NeverStops(u, es[..|es| - 1]);
      var l, e := After(u, es[..|es| - 1]), es[|es| - 1];
      if SendWindow.Valid(l.snd) && Enabled(u, l, e) && e.ReceiverCall? {
        var n := EveryRunKeeps(u, es[..|es| - 1]);
        CallKeepsRunning(u, l, n, e.mem);
      }
    }
  }

  lemma CallKeepsRunning(u: Setup, l: Link, n: Labels, mem: seq<byte>)
    requires ValidSetup(u) && u.size == 1 && Inv(u, l, n) && Enabled(u, l, ReceiverCall(mem)) && l.rcv.phase != Stopped
    ensures l.toRcv != [] && Hear(l.rcv, Receive(RcvConfig(u), l.toRcv[0], mem)).rcv.phase != Stopped
  {
    hide SenderOk, ReceiverOk, Ordered, WireOf, Hear, Receive;
    var p, heard := n.down[0], Receive(RcvConfig(u), l.toRcv[0], mem);
    assert DataOk(u, l.toRcv[0], p);
    if heard.Good? {
      Answers(u, l, n, p, heard);
    } else {
      NothingIsHeard(l.rcv, heard);
    }
  }

  // ------------------------------------------------------------------ one round

  /** The frame of the sender's packet is alone on the lines. */
  ghost predicate Alone(u: Setup, l: Link)
    requires ValidSetup(u)
  {
    && (l.snd.phase == Data || l.snd.phase == Eof) && |l.snd.win| == 1
    && Origin(u) <= l.snd.base <= Last(u) && l.toRcv == [WireOf(u, l.snd.base)] && l.toSnd == []
  }

  lemma NoneLeft(o: Out)
    requires o.acked
    ensures DropAcked([o]) == []
  {
    assert [o][1..] == [];
  }

  lemma FreedAll(s: Sending, marked: seq<Out>)
    requires |marked| == 1 && DropAcked(marked) == []
    ensures Freed(s, marked) == s.(base := s.base + 1, win := [])
  {
  }

  lemma FreedOne(s: Sending)
    requires |s.win| == 1
    ensures Freed(s, s.win[0 := s.win[0].(acked := true)]) == s.(base := s.base + 1, win := [])
  {
    hide *;
    var last := s.win[0].(acked := true);
    NoneLeft(last);
    var marked := s.win[0 := last];
    assert marked == [last];
    FreedAll(s, marked);
  }

  /** The acknowledgement of the only packet: the next one goes out, or the transfer is done. */
  lemma AckMovesOn(u: Setup, s: Sending, p: int)
    requires SendWindow.Valid(s) && s.size == 1 && |s.win| == 1 && (s.phase == Data || s.phase == Eof) && p % 64 == s.base % 64
    ensures var r := OnAck(s, p % 64);
      if s.phase == Eof then r.snd.phase == Done && r.sent == []
      else
        && (r.snd.phase == Data || r.snd.phase == Eof) && |r.snd.win| == 1 && r.snd.base == s.base + 1
        && r.sent == [r.snd.win[0].wire]
  {
    hide Freed, Find, Frame;
    AckFindsItsPacket(s, s.base);
    FreedOne(s);
  }

  /** The packet arrives and its acknowledgement comes back. */
  lemma Round(u: Setup, es: seq<Event>) returns (es': seq<Event>)
    requires ValidSetup(u) && u.size == 1 && Alone(u, After(u, es))
    ensures es <= es'
    ensures var l, l' := After(u, es), After(u, es');
      l'.snd.phase == Done || (Alone(u, l') && l'.snd.base == l.snd.base + 1)
  {
    hide After, Inv, WireOf, Receive, Hear, ReplyWire, SendWindow.Valid, OnAck;
    var mem := seq(MEMORY, i => NUL);
    var l := After(u, es);
    var n := EveryRunKeeps(u, es);
    NeverStops(u, es);
    AckedAreSent(u, l, n);
    AfterOneMore(u, es, ReceiverCall(mem));
    var r := Arrives(u, l, n, mem);
    var es1 := es + [ReceiverCall(mem)];
    var l1 := After(u, es1);
    var n1 := EveryRunKeeps(u, es1);
    AckedAreSent(u, l1, n1);
    SenderReads(u, l1, mem);
    AfterOneMore(u, es1, SenderCall(mem));
    es' := es1 + [SenderCall(mem)];
    ReplyIsHeard(u, r, mem);
    AckMovesOn(u, l1.snd, r.num);
    var n2 := EveryRunKeeps(u, es');
    SenderHears(u, l1, r, mem);
    FirstInWindow(u, After(u, es'), n2);
  }

  /** The receiver's reply to the only frame. */
  lemma Arrives(u: Setup, l: Link, n: Labels, mem: seq<byte>) returns (r: Reply)
    requires ValidSetup(u) && u.size == 1 && Alone(u, l) && Inv(u, l, n) && l.rcv.phase != Stopped && |mem| >= MEMORY
    ensures SendWindow.Valid(l.snd) && Enabled(u, l, ReceiverCall(mem))
    ensures var l' := Step(u, l, ReceiverCall(mem));
      l'.snd == l.snd && l'.toRcv == [] && l'.toSnd == [ReplyWire(u, r)] && r.Ack? && r.num % 64 == l.snd.base % 64
  {
    hide SenderOk, ReceiverOk, Ordered, WireOf, Hear, Receive, ReplyWire;
    AckedAreSent(u, l, n);
    var p, q := l.snd.base, n.down[0];
    assert DataOk(u, l.toRcv[0], q);
    FirstIsRecent(u, p, NextOf(l.snd), n);
    LabelIsRight(u, p, q);
    WireIsHeard(u, p, mem);
    var h := Hear(l.rcv, Receive(RcvConfig(u), l.toRcv[0], mem));
    Answers(u, l, n, p, Receive(RcvConfig(u), l.toRcv[0], mem));
    r := h.replies[0];
    assert ReplyWires(u, h.replies) == [ReplyWire(u, r)];
  }

  lemma SenderReads(u: Setup, l: Link, mem: seq<byte>)
    requires ValidSetup(u) && l.toSnd != [] && |mem| >= MEMORY && |l.snd.win| >= l.snd.size
    requires l.snd.phase == Data || l.snd.phase == Eof
    ensures Enabled(u, l, SenderCall(mem))
  {
  }

  lemma SenderHears(u: Setup, l: Link, r: Reply, mem: seq<byte>)
    requires ValidSetup(u) && SendWindow.Valid(l.snd) && Enabled(u, l, SenderCall(mem)) && l.toSnd == [ReplyWire(u, r)] && r.Ack?
    requires Receive(SndConfig(u), ReplyWire(u, r), mem) == Good(TYPE_Y, r.num % 64, [])
    ensures var a := OnAck(l.snd, r.num % 64);
      Step(u, l, SenderCall(mem)) == l.(toSnd := [], snd := a.snd, toRcv := l.toRcv + a.sent)
  {
    hide Receive, ReplyWire, OnAck, SendWindow.Valid;
  }

  lemma FirstInWindow(u: Setup, l: Link, n: Labels)
    requires ValidSetup(u) && Inv(u, l, n)
    ensures l.snd.win != [] ==> Origin(u) <= l.snd.base <= Last(u) && l.snd.win[0].wire == WireOf(u, l.snd.base)
  {
    hide WireOf, ReceiverOk, Ordered, LinesOk;
    if l.snd.win != [] {
      assert OutOk(u, l.snd, n.acked, 0);
    }
  }

  lemma {:induction false} Rounds(u: Setup, es: seq<Event>) returns (es': seq<Event>)
    requires ValidSetup(u) && u.size == 1 && Alone(u, After(u, es))
    ensures es <= es' && After(u, es').snd.phase == Done
    decreases Last(u) - After(u, es).snd.base
  {
    hide After, WireOf;
    es' := Round(u, es);
    if After(u, es').snd.phase != Done {
      es' := Rounds(u, es');
    }
  }

  // ------------------------------------------------------------------ from anywhere

  lemma FrameIsLost(u: Setup, l: Link)
    requires ValidSetup(u) && SendWindow.Valid(l.snd)
    ensures l.toRcv != [] ==> Enabled(u, l, LoseData(0)) && Step(u, l, LoseData(0)) == l.(toRcv := l.toRcv[1..])
    ensures l.toSnd != [] ==> Enabled(u, l, LoseReply(0)) && Step(u, l, LoseReply(0)) == l.(toSnd := l.toSnd[1..])
  {
    hide SendWindow.Valid;
    assert l.toRcv != [] ==> Without(l.toRcv, 0) == l.toRcv[1..];
    assert l.toSnd != [] ==> Without(l.toSnd, 0) == l.toSnd[1..];
  }

  /** Everything on the lines may be lost. */
  lemma {:induction false} LinesClear(u: Setup, es: seq<Event>) returns (es': seq<Event>)
    requires ValidSetup(u)
    ensures es <= es' && After(u, es') == After(u, es).(toRcv := [], toSnd := [])
    decreases |After(u, es).toRcv| + |After(u, es).toSnd|
  {
    hide After, Step, Enabled, Inv, SendWindow.Valid;
    var l := After(u, es);
    var n := EveryRunKeeps(u, es);
    AckedAreSent(u, l, n);
    FrameIsLost(u, l);
    if l.toRcv != [] {
      AfterOneMore(u, es, LoseData(0));
      es' := LinesClear(u, es + [LoseData(0)]);
    } else if l.toSnd != [] {
      AfterOneMore(u, es, LoseReply(0));
      es' := LinesClear(u, es + [LoseReply(0)]);
    } else {
      es' := es;
    }
  }

  /** With the lines clear, the sender's time-out puts its packet on the line: a new one if none
      waits, else the one that waits, which it may still repeat. */
  lemma TimeoutSends(s: Sending)
    requires SendWindow.Valid(s) && s.size == 1 && (s.phase == Data || s.phase == Eof)
    requires s.win != [] ==> s.win[0].rtr < s.retry
    ensures var r := SendWindow.Run(s, Silence);
      && (r.snd.phase == Data || r.snd.phase == Eof) && |r.snd.win| == 1 && r.sent == [r.snd.win[0].wire]
  {
    hide Frame;
  }

  /** Progress: with a window of one packet, every run in which the sender has not given up, and
      has not yet repeated its packet as often as it may, goes on to a run in which the sender
      is done and the receiver has the whole file. */
  lemma SomeRunCompletes(u: Setup, es: seq<Event>) returns (es': seq<Event>)
    requires ValidSetup(u) && u.size == 1
    requires var s := After(u, es).snd; s.phase != Failed && (s.win != [] ==> s.win[0].rtr < s.retry)
    ensures es <= es'
    ensures var l := After(u, es'); l.snd.phase == Done && l.rcv.closed && l.rcv.win.delivered == u.packets
  {
    hide After, Inv, SendWindow.Valid, SendWindow.Run, WireOf;
    if After(u, es).snd.phase == Done {
      es' := es;
    } else {
      es' := LinesClear(u, es);
      var l := After(u, es');
      var n := EveryRunKeeps(u, es');
      AckedAreSent(u, l, n);
      TimeoutSends(l.snd);
      AfterOneMore(u, es', SenderTimeout);
      es' := es' + [SenderTimeout];
      n := EveryRunKeeps(u, es');
      FirstInWindow(u, After(u, es'), n);
      es' := Rounds(u, es');
    }
    DoneIsComplete(u, es');
  }
}
