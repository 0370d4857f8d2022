/**
 At every window size the transfer can still be completed as long as the file is open: from every
 state in which the sender has not given up and may still repeat its packets.
 */
module KermitCompletion {
  import opened Bytes
  import opened KermitBytes
  import opened KermitFrame
  import opened KermitParse
  import opened ReceiveWindow
  import opened SequenceNumbers
  import opened SendWindow
  import opened KermitLink
  import opened KermitWire
  import opened KermitDelivery
  import opened KermitRuns
  import opened KermitAnswers
  import opened KermitProgress

  /** Each packet of the window may be sent once more at least. */
  ghost predicate Repeatable(s: Sending) {
    s.retry >= 1 && forall i :: 0 <= i < |s.win| ==> s.win[i].rtr < s.retry
  }

  /** The file is open, and the sender at work and able to repeat. */
  ghost predicate Going(l: Link) {
    !l.rcv.closed && (l.snd.phase == Data || l.snd.phase == Eof) && Repeatable(l.snd)
  }

  lemma SentFirstKeepsRepeatable(s: Sending, r: Result)
    requires 1 <= s.bct <= 3 && Repeatable(s) && GoesOutFirst(s, r) && r.snd.retry == s.retry
    ensures Repeatable(r.snd)
  {
    forall i | 0 <= i < |r.snd.win|
      ensures r.snd.win[i].rtr < r.snd.retry
    {
      if i < |s.win| {
        assert r.snd.win[i] == r.snd.win[..|s.win|][i];
      }
    }
  }

  /** What a sender keeps through all its calls. */
  lemma SettingsStay(s: Sending, input: Input)
    requires SendWindow.Valid(s)
    ensures var t := SendWindow.Run(s, input).snd; t.retry == s.retry && t.size == s.size
  {
    hide Frame;
    if Reads(s) && input.Packet? && input.typ == TYPE_Y && Find(s.win, input.sq) >= 0 {
      var i := Find(s.win, input.sq);
      FreedFrame(s, s.win[i := s.win[i].(acked := true)]);
    }
  }

  /** A sender with room sends new packets, which the line may lose, until its window is full or the
      file is at its end. */
  lemma {:induction false} WindowFills(u: Setup, es: seq<Event>) returns (es': seq<Event>)
    requires ValidSetup(u) && Going(After(u, es))
    ensures es <= es' && Going(After(u, es')) && Listening(After(u, es').snd)
    ensures var l, l' := After(u, es), After(u, es'); l'.toRcv == l'.toSnd == [] && l'.snd.base == l.snd.base && l'.rcv == l.rcv
    decreases After(u, es).snd.size - |After(u, es).snd.win|, After(u, es).snd.phase == Data
  {
    hide After, Step, Inv, SendWindow.Valid, SendWindow.Run;
    var es1 := LinesClear(u, es);
    var l1 := After(u, es1);
    var n1 := EveryRunKeeps(u, es1);
    AckedAreSent(u, l1, n1);
    WindowIsBounded(l1.snd);
    if l1.snd.phase == Data && |l1.snd.win| < l1.snd.size {
      var r := SendWindow.Run(l1.snd, Silence);
      RoomIsFilled(l1.snd, Silence, r);
      SettingsStay(l1.snd, Silence);
      SentFirstKeepsRepeatable(l1.snd, r);
      var es2 := es1 + [SenderTimeout];
      AfterOneMore(u, es1, SenderTimeout);
      TimeoutStep(u, l1);
      es' := WindowFills(u, es2);
    } else {
      es' := es1;
      IsListening(l1.snd);
    }
  }

  lemma WindowIsBounded(s: Sending)
    requires SendWindow.Valid(s)
    ensures |s.win| <= s.size && 1 <= s.size
  {
  }

  lemma IsListening(s: Sending)
    requires SendWindow.Valid(s) && (s.phase == Eof || (s.phase == Data && |s.win| >= s.size))
    ensures Listening(s)
  {
  }

  lemma TimeoutStep(u: Setup, l: Link)
    requires ValidSetup(u) && SendWindow.Valid(l.snd)
    ensures Enabled(u, l, SenderTimeout)
    ensures var r := SendWindow.Run(l.snd, Silence); Step(u, l, SenderTimeout) == l.(snd := r.snd, toRcv := l.toRcv + r.sent)
  {
    hide SendWindow.Run, SendWindow.Valid;
  }

  /** The label of the first frame on the line is within one window of the sender's. */
  lemma FirstLabelIsNear(u: Setup, l: Link, n: Labels)
    requires ValidSetup(u) && Inv(u, l, n) && n.down != []
    ensures l.snd.base - 1 - u.size < n.down[0] < NextOf(l.snd) <= l.snd.base + u.size
  {
    hide SenderOk, ReceiverOk, LinesOk;
    assert (n.up + n.down)[|n.up|] == n.down[0];
    AckedAreSent(u, l, n);
    assert l.snd.base > Origin(u) ==> l.snd.base - 1 in n.acked;
    assert n.down[0] in n.down;
  }

  /** The earliest packet, alone on the line, is heard and acknowledged; only the end of the file
      closes it. */
  lemma EarliestIsHeard(u: Setup, l: Link, n: Labels, mem: seq<byte>) returns (h: Heard)
    requires ValidSetup(u) && Inv(u, l, n) && !l.rcv.closed && |mem| >= MEMORY
    requires Origin(u) <= l.snd.base <= Last(u) && l.toRcv == [WireOf(u, l.snd.base)]
    ensures h == Hear(l.rcv, Receive(RcvConfig(u), l.toRcv[0], mem))
    ensures h.replies != [] && ReplyWire(u, h.replies[0]) == ReplyWire(u, Ack(l.snd.base)) && (l.snd.base < Last(u) ==> !h.rcv.closed)
  {
    hide Inv, Receive, WireOf, Hear, Replies;
    var p := l.snd.base;
    WireIsHeard(u, p, mem);
    h := Hear(l.rcv, PacketOf(u, p));
    LabelOfEarliest(u, l, n);
    OpenPhase(u, l, n);
    if p < Last(u) {
      DataCounts(u, l, n, p);
      FirstReply(u, l, n, p);
    } else {
      KermitAnswers.EndIsAnswered(l.rcv, p % 64, h);
      assert h.replies[0] == Ack(p % 64);
    }
  }

  lemma LabelOfEarliest(u: Setup, l: Link, n: Labels)
    requires ValidSetup(u) && Inv(u, l, n) && Origin(u) <= l.snd.base <= Last(u) && l.toRcv == [WireOf(u, l.snd.base)]
    ensures n.down != [] && n.down[0] == l.snd.base
  {
    hide SenderOk, ReceiverOk, Ordered, WireOf;
    assert DataOk(u, l.toRcv[0], n.down[0]);
    FirstLabelIsNear(u, l, n);
    LabelIsRight(u, l.snd.base, n.down[0]);
  }

  lemma OpenPhase(u: Setup, l: Link, n: Labels)
    requires ValidSetup(u) && Inv(u, l, n) && !l.rcv.closed
    ensures l.rcv.phase == Attr || l.rcv.phase == RData
  {
    hide SenderOk, LinesOk, Ordered, Range, Kept;
  }

  lemma FirstReply(u: Setup, l: Link, n: Labels, p: int)
    requires ValidSetup(u) && Inv(u, l, n) && !l.rcv.closed && n.down != [] && p == n.down[0] && Origin(u) <= p < Last(u)
    ensures Replies(l.rcv.win, p) != [] && Replies(l.rcv.win, p)[0] == Ack(p)
  {
    hide SenderOk, LinesOk, Range, Kept;
    TableIsBehind(u, l.rcv, n.got);
    ArrivalIsNear(u, l.snd.base, NextOf(l.snd), n, l.rcv.win.high);
  }

  lemma EarliestIsFirst(u: Setup, l: Link, n: Labels)
    requires ValidSetup(u) && Inv(u, l, n) && Listening(l.snd)
    ensures l.snd.win != [] && Origin(u) <= l.snd.base <= Last(u)
    ensures l.snd.win[0].wire == WireOf(u, l.snd.base) && l.snd.win[0].sq == l.snd.base % 64
    ensures l.snd.base == Last(u) ==> l.snd.phase == Eof && |l.snd.win| == 1
  {
    hide WireOf, ReceiverOk, Ordered, LinesOk;
    assert OutOk(u, l.snd, n.acked, 0);
  }

  lemma SlidKeepsRepeatable(s: Sending, i: nat, d: nat, t: Sending)
    requires s.retry >= 1 && t.retry == s.retry && 1 <= d <= |s.win| && SlidBy(s, i, d, t)
    requires forall j :: 1 <= j < |s.win| ==> s.win[j].rtr < s.retry
    ensures Repeatable(t)
  {
  }

  /** One packet more is acknowledged: the earliest goes out again and is heard, and so is its
      acknowledgement. */
  lemma OnePacketMore(u: Setup, es: seq<Event>) returns (es': seq<Event>)
    requires ValidSetup(u) && Going(After(u, es)) && Listening(After(u, es).snd) && After(u, es).toRcv == After(u, es).toSnd == []
    ensures es <= es'
    ensures var l, l' := After(u, es), After(u, es'); l'.snd.phase == Done || (Going(l') && l.snd.base < l'.snd.base)
  {
    hide After, Inv, Step, Enabled, WireOf, Receive, Hear, ReplyWire, SendWindow.Run, Listening;
    var mem := seq(MEMORY, i => NUL);
    var l := After(u, es);
    var n := EveryRunKeeps(u, es);
    EarliestIsFirst(u, l, n);
    var p := l.snd.base;

    // the earliest packet goes out
    AckedAreSent(u, l, n);
    var r := SendWindow.Run(l.snd, Silence);
    SilenceIsAnswered(l.snd, r);
    TimeoutStep(u, l);
    AfterOneMore(u, es, SenderTimeout);
    var es1 := es + [SenderTimeout];
    var l1 := After(u, es1);
    assert l1.toRcv == [WireOf(u, p)] && l1.snd == r.snd;
    StillListening(l.snd, r);

    // the receiver hears it
    var n1 := EveryRunKeeps(u, es1);
    AckedAreSent(u, l1, n1);
    var h := EarliestIsHeard(u, l1, n1, mem);
    HearingStep(u, l1, mem, h);
    AfterOneMore(u, es1, ReceiverCall(mem));
    var es2 := es1 + [ReceiverCall(mem)];
    var l2 := After(u, es2);

    // the sender hears the acknowledgement
    es' := AckMovesWindow(u, es2, l.snd, mem);
  }

  lemma StillListening(s: Sending, r: Result)
    requires Listening(s) && s.win != [] && GoesOutAgain(s, 0, r)
    ensures Listening(r.snd)
  {
  }

  lemma HearingStep(u: Setup, l: Link, mem: seq<byte>, h: Heard)
    requires ValidSetup(u) && SendWindow.Valid(l.snd) && |mem| >= MEMORY && |l.toRcv| == 1 && l.toSnd == []
    requires h == Hear(l.rcv, Receive(RcvConfig(u), l.toRcv[0], mem)) && h.replies != []
    ensures Enabled(u, l, ReceiverCall(mem))
    ensures var l' := Step(u, l, ReceiverCall(mem));
      l'.snd == l.snd && l'.rcv == h.rcv && l'.toRcv == [] && l'.toSnd != [] && l'.toSnd[0] == ReplyWire(u, h.replies[0])
  {
    hide Hear, Receive, ReplyWire, SendWindow.Valid;
  }

  lemma AckMovesWindow(u: Setup, es: seq<Event>, s: Sending, mem: seq<byte>) returns (es': seq<Event>)
    requires ValidSetup(u) && |mem| >= MEMORY && Repeatable(s)
    requires var l := After(u, es);
      && Listening(l.snd) && l.toSnd != [] && l.toSnd[0] == ReplyWire(u, Ack(l.snd.base))
      && (l.snd.base < Last(u) ==> !l.rcv.closed)
      && s.win != [] && l.snd == s.(win := s.win[0 := s.win[0].(rtr := s.win[0].rtr + 1)])
    ensures es <= es'
    ensures var l' := After(u, es'); l'.snd.phase == Done || (Going(l') && s.base < l'.snd.base)
  {
    hide After, Inv, WireOf, Receive, Hear, ReplyWire, SendWindow.Run, Listening, SlidBy, GoesOutFirst;
    var l := After(u, es);
    var n := EveryRunKeeps(u, es);
    EarliestIsFirst(u, l, n);
    ReplyIsHeard(u, Ack(s.base), mem);
    AckedAreSent(u, l, n);
    var r := SendWindow.Run(l.snd, Input.Packet(TYPE_Y, s.base % 64));
    SenderStep(u, l, mem, s.base % 64);
    AfterOneMore(u, es, SenderCall(mem));
    es' := es + [SenderCall(mem)];
    var d, t := AckIsAnswered(l.snd, s.base % 64, 0, r);
    SettingsStay(l.snd, Input.Packet(TYPE_Y, s.base % 64));
    WindowMoves(l.snd, d, t, r);
  }

  lemma WindowMoves(s: Sending, d: nat, t: Sending, r: Result)
    requires Listening(s) && s.retry >= 1 && 1 <= d <= |s.win| && SlidBy(s, 0, d, t) && t == s.(base := t.base, win := t.win)
    requires forall j :: 1 <= j < |s.win| ==> s.win[j].rtr < s.retry
    requires if s.phase == Data && d > 0 then GoesOutFirst(t, r) && r.snd.retry == s.retry
      else r.snd == if s.phase == Eof && d == |s.win| then t.(phase := Done) else t
    ensures s.base < r.snd.base && Repeatable(r.snd)
    ensures r.snd.phase == Done <==> s.phase == Eof && d == |s.win|
    ensures r.snd.phase in {Data, Eof, Done}
  {
    SlidKeepsRepeatable(s, 0, d, t);
    if s.phase == Data {
      SentFirstKeepsRepeatable(t, r);
    }
  }

  lemma SenderStep(u: Setup, l: Link, mem: seq<byte>, sq: nat)
    requires ValidSetup(u) && Listening(l.snd) && |mem| >= MEMORY && l.toSnd != []
    requires Receive(SndConfig(u), l.toSnd[0], mem) == Good(TYPE_Y, sq, [])
    ensures Enabled(u, l, SenderCall(mem))
    ensures var r := SendWindow.Run(l.snd, Input.Packet(TYPE_Y, sq));
      Step(u, l, SenderCall(mem)) == l.(snd := r.snd, toSnd := l.toSnd[1..], toRcv := l.toRcv + r.sent)
  {
    hide SendWindow.Run, Receive, SendWindow.Valid;
  }

  /** Progress at every window size: as long as the file is open and the sender is at work and may send
      each packet of its window once more, some more steps lead to the end, with the whole file
      decoded. */
  lemma {:induction false} OpenFileCanComplete(u: Setup, es: seq<Event>) returns (es': seq<Event>)
    requires ValidSetup(u) && Going(After(u, es))
    ensures es <= es'
    ensures var l := After(u, es'); l.snd.phase == Done && l.rcv.closed && l.rcv.win.delivered == u.packets
    decreases Last(u) - After(u, es).snd.base
  {
    hide After, Going, Listening;
    var es1 := WindowFills(u, es);
    var n := EveryRunKeeps(u, es1);
    EarliestIsFirst(u, After(u, es1), n);
    es' := OnePacketMore(u, es1);
    if After(u, es').snd.phase != Done {
      es' := OpenFileCanComplete(u, es');
    }
    DoneIsComplete(u, es');
  }
}
