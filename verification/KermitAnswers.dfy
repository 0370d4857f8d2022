/**
 What the two sides owe each other, call by call: which packets go out for what the line delivers,
 at every window size. Stated over the windows alone, not over the functions that compute the
 answers.
 */
module KermitAnswers {
  import opened Bytes
  import opened KermitBytes
  import opened KermitFrame
  import opened KermitParse
  import opened ReceiveWindow
  import opened SequenceNumbers
  import opened SendWindow
  import opened KermitLink
  import opened KermitWire
  import opened KermitDelivery
  import opened KermitRuns

  // ------------------------------------------------------------------ the sender

  /** The sender is at work and will look at what the line delivers. */
  ghost predicate Listening(s: Sending) {
    SendWindow.Valid(s) && (s.phase == Data || s.phase == Eof) && (s.phase == Data ==> |s.win| == s.size)
  }

  /** Entry `i` is the one asked for by number `sq`: it has that number, or it is the earliest and
      no entry has. */
  ghost predicate IsAsked(s: Sending, sq: int, i: nat) {
    i < |s.win| && (s.win[i].sq == sq || (i == 0 && forall j :: 0 <= j < |s.win| ==> s.win[j].sq != sq))
  }

  /** Exactly one frame goes out, that of entry `i`, and is counted. */
  ghost predicate GoesOutAgain(s: Sending, i: nat, r: Result)
    requires i < |s.win|
  {
    && r.sent == [s.win[i].wire] && r.nums == [s.base + i]
    && r.snd == s.(win := s.win[i := s.win[i].(rtr := s.win[i].rtr + 1)])
  }

  lemma AtMostOneHasNumber(s: Sending, i: nat, j: nat)
    requires SendWindow.Valid(s) && i < |s.win| && j < |s.win| && s.win[i].sq == s.win[j].sq
    ensures i == j
  {
    if i != j {
      NearAreDistinct(s.base + i, s.base + j);
    }
  }

  /** A NAK, like any packet that is no answer of another kind, is answered with the packet it asks
      for, or the earliest one if that is not in the window, as long as it may be repeated;
      after that the file is given up. */
  lemma NakIsAnswered(s: Sending, typ: byte, sq: int, i: nat, r: Result)
    requires Listening(s) && IsAsked(s, sq, i) && typ !in {'Y' as int, 'E' as int, 'R' as int, 'G' as int}
    requires r == SendWindow.Run(s, Input.Packet(typ, sq))
    ensures s.win[i].rtr < s.retry ==> GoesOutAgain(s, i, r)
    ensures s.win[i].rtr >= s.retry ==> r.sent == [] && r.snd.phase == Failed
  {
    var f := Find(s.win, sq);
    if f >= 0 {
      assert s.win[f].sq == sq;
      AtMostOneHasNumber(s, f, i);
    }
  }

  /** So is silence, with the earliest packet. */
  lemma SilenceIsAnswered(s: Sending, r: Result)
    requires Listening(s) && s.win != [] && r == SendWindow.Run(s, Silence)
    ensures s.win[0].rtr < s.retry ==> GoesOutAgain(s, 0, r)
    ensures s.win[0].rtr >= s.retry ==> r.sent == [] && r.snd.phase == Failed
  {
  }

  /** And a damaged packet, but then the file is never given up. */
  lemma DamageIsAnswered(s: Sending, r: Result)
    requires Listening(s) && s.win != [] && r == SendWindow.Run(s, Damaged)
    ensures s.win[0].rtr < s.retry ==> GoesOutAgain(s, 0, r)
    ensures s.win[0].rtr >= s.retry ==> r.sent == [] && r.snd.phase == s.phase
  {
  }

  /** What the parser says decides which of these it is: a packet with a wrong length or block check counts as
      damaged, one that is too short or has a bad header as silence, one with an impossible number as
      nothing. */
  lemma ParsedIsAnswered(s: Sending, p: Parsed, r: Result)
    requires Listening(s) && s.win != [] && !p.Good? && r == SendWindow.Run(s, InputOf(p))
    ensures p == BadSequence ==> r.snd == s && r.sent == []
    ensures p != BadSequence && s.win[0].rtr < s.retry ==> GoesOutAgain(s, 0, r)
    ensures p != BadSequence && s.win[0].rtr >= s.retry ==>
      r.sent == [] && r.snd.phase == if p == BadLength || p == BadCheck then s.phase else Failed
  {
    SilenceIsAnswered(s, SendWindow.Run(s, Silence));
    DamageIsAnswered(s, SendWindow.Run(s, Damaged));
  }

  /** `o` is what the file has next for the line: its next data field, or its end. */
  ghost predicate ComesNext(s: Sending, o: Out)
    requires 1 <= s.bct <= 3
  {
    && o.sq == (s.base + |s.win|) % 64 && !o.acked && o.rtr == 0
    && (s.todo != [] ==> o.typ == 'D' as int && o.wire == Frame('D' as int, o.sq, s.todo[0], s.bct))
    && (s.todo == [] ==> o.typ == 'Z' as int && o.wire == Frame('Z' as int, o.sq, [], s.bct))
  }

  /** Exactly one frame goes out, for the first time, and joins the window; what is left to send is
      one data field less, and without any the sender goes on to the end of the file. */
  ghost predicate GoesOutFirst(s: Sending, r: Result)
    requires 1 <= s.bct <= 3
  {
    && |r.snd.win| == |s.win| + 1 && r.snd.win[..|s.win|] == s.win
    && ComesNext(s, r.snd.win[|s.win|]) && r.sent == [r.snd.win[|s.win|].wire]
    && r.snd.base == s.base
    && (if s.todo == [] then r.snd.phase == Eof && r.snd.todo == [] else r.snd.phase == Data && r.snd.todo == s.todo[1..])
  }

  lemma NextIsSent(s: Sending)
    requires SendWindow.Valid(s) && s.phase == Data && |s.win| < s.size
    ensures GoesOutFirst(s, Transmit(s))
  {
    hide Frame;
    NextNumber(s.base, |s.win|);
  }

  /** A window with room is filled, whatever the line delivers. */
  lemma RoomIsFilled(s: Sending, input: Input, r: Result)
    requires SendWindow.Valid(s) && s.phase == Data && |s.win| < s.size && r == SendWindow.Run(s, input)
    ensures GoesOutFirst(s, r)
  {
    NextIsSent(s);
  }

  /** The window from entry `d` on, with entry `i` acknowledged. */
  ghost predicate SlidBy(s: Sending, i: nat, d: nat, t: Sending)
    requires d <= |s.win|
  {
    && t.base == s.base + d && |t.win| == |s.win| - d
    && forall j :: 0 <= j < |t.win| ==> t.win[j] == s.win[d + j].(acked := s.win[d + j].acked || d + j == i)
  }

  lemma FirstLeftIsOpen(s: Sending, marked: seq<Out>)
    ensures Freed(s, marked).win != [] ==> !Freed(s, marked).win[0].acked
  {
  }

  lemma Slides(s: Sending, i: nat) returns (d: nat, t: Sending)
    requires i < |s.win|
    ensures t == Freed(s, s.win[i := s.win[i].(acked := true)])
    ensures d <= |s.win| && |t.win| == |s.win| - d && (forall j :: 0 <= j < d ==> s.win[j].acked || j == i)
    ensures d < |s.win| ==> !s.win[d].acked && d != i
    ensures SlidBy(s, i, d, t) && t == s.(base := t.base, win := t.win)
  {
    hide Freed;
    var marked := s.win[i := s.win[i].(acked := true)];
    t := Freed(s, marked);
    FreedIsSuffix(s, marked);
    FirstLeftIsOpen(s, marked);
    d := t.base - s.base;
    assert d < |s.win| ==> t.win[0] == marked[d];
    forall j | 0 <= j < d
      ensures s.win[j].acked || j == i
    {
      assert marked[j].acked;
    }
  }

  /** The acknowledgement of entry `i`, when `d` entries at the front have been acknowledged then and
      the next has not: these leave the window; the room made, if any, is filled at once; and
      when the end of the file was the last to go, the sender is done. */
  lemma AckIsAnswered(s: Sending, sq: int, i: nat, r: Result) returns (d: nat, t: Sending)
    requires Listening(s) && i < |s.win| && s.win[i].sq == sq && r == SendWindow.Run(s, Input.Packet(TYPE_Y, sq))
    ensures d <= |s.win| && (forall j :: 0 <= j < d ==> s.win[j].acked || j == i)
    ensures d < |s.win| ==> !s.win[d].acked && d != i
    ensures SlidBy(s, i, d, t) && t == s.(base := t.base, win := t.win)
    ensures if s.phase == Data && d > 0 then GoesOutFirst(t, r)
      else r.sent == [] && r.snd == if s.phase == Eof && d == |s.win| then t.(phase := Done) else t
  {
    hide Transmit, Freed, SlidBy;
    AtMostOneHasNumber(s, Find(s.win, sq), i);
    d, t := Slides(s, i);
    if s.phase == Data && d > 0 {
      FreedKeeps(s, i);
      NextIsSent(t);
    }
  }

  /** An acknowledgement that no entry waits for changes nothing, nor does a packet with an impossible
      number or a generic command; an error packet or a request for another file ends it. */
  lemma OthersAreAnswered(s: Sending, input: Input, r: Result)
    requires Listening(s) && r == SendWindow.Run(s, input)
    ensures input.Packet? && input.typ == 'Y' as int && (forall j :: 0 <= j < |s.win| ==> s.win[j].sq != input.sq) ==>
      r.snd == s && r.sent == []
    ensures input == Impossible || (input.Packet? && input.typ == 'G' as int) ==> r.snd == s && r.sent == []
    ensures input.Packet? && (input.typ == 'E' as int || input.typ == 'R' as int) ==> r.sent == [] && r.snd == s.(phase := Failed)
  {
    if input.Packet? && input.typ == TYPE_Y {
      var f := Find(s.win, input.sq);
    }
  }

  lemma OverIsOver(s: Sending, input: Input, r: Result)
    requires SendWindow.Valid(s) && (s.phase == Done || s.phase == Failed) && r == SendWindow.Run(s, input)
    ensures r.snd == s && r.sent == []
  {
  }

  // ------------------------------------------------------------------ the receiver

  /** Data packet `p` counts as new, early or old for the window. */
  ghost predicate IsNear(w: Window, p: int) {
    w.high - w.size < p <= w.high + w.size && (w.table == map[] ==> w.high < p)
  }

  /** While a file is open, every packet near the window is acknowledged, and one that comes early
      brings a request for each packet between it and the latest, in order, if there is a latest. */
  lemma DataIsAnswered(r: Receiving, p: int, data: seq<byte>, h: Heard)
    requires (r.phase == Attr || r.phase == RData) && 1 <= r.win.size <= MAX_WINDOW && IsNear(r.win, p)
    requires data != [] && NUL !in data && h == Hear(r, Good('D' as int, p % 64, data))
    ensures var gap := if p > r.win.high && r.win.table != map[] then p - r.win.high - 1 else 0;
      && |h.replies| == gap + 1 && h.replies[0] == Ack(p)
      && forall i :: 1 <= i <= gap ==> h.replies[i] == Nak(r.win.high + i)
    ensures h.rcv.phase == RData && h.rcv.closed == r.closed && p in h.rcv.win.table
    ensures h.rcv.win.table[p] == if p in r.win.table && p <= r.win.high then r.win.table[p] else data
  {
    hide Classify, Placed;
    PlacedIsRight(r.win, p);
    ClassOfNear(r.win.size, r.win.high, p);
  }

  /** A packet that lies neither within one window after the latest nor within the window is passed over,
      unless the search takes it for an old one. */
  lemma StrayIsPassedOver(r: Receiving, sq: nat, data: seq<byte>)
    requires r.phase == RData && 1 <= r.win.size <= MAX_WINDOW && sq < 64 && data != [] && NUL !in data && r.win.table != map[]
    requires (sq - r.win.high) % 64 > r.win.size && (r.win.high - sq) % 64 >= r.win.size && !Wraps(r.win.size, r.win.high)
    ensures Hear(r, Good('D' as int, sq, data)) == Heard(r, [])
  {
  }

  /** An empty window takes any number for the next one that has it, and acknowledges the packet. */
  lemma FirstTakesAnyNumber(r: Receiving, sq: nat, data: seq<byte>, h: Heard)
    requires (r.phase == Attr || r.phase == RData) && 1 <= r.win.size <= MAX_WINDOW && r.win.table == map[]
    requires sq < 64 && data != [] && NUL !in data && h == Hear(r, Good('D' as int, sq, data))
    ensures var p := h.rcv.win.high;
      r.win.high < p <= r.win.high + 64 && p % 64 == sq && h.rcv.win.table == map[p := data] && h.replies == [Ack(p)]
  {
    PlacedIsNear(r.win, sq);
    DistanceOfMod(r.win.high + 1, sq);
    RangeOfNone(r.win.table, r.win.high - r.win.size + 1, Placed(r.win, sq) - r.win.size + 1);
  }

  /** The end of a file is acknowledged whenever it comes; it closes the file once. */
  lemma EndIsAnswered(r: Receiving, sq: nat, h: Heard)
    requires r.phase != Stopped && r.phase != Confused && h == Hear(r, Good('Z' as int, sq, []))
    ensures h.replies == [Ack(sq)] && h.rcv.phase == File
    ensures r.phase == File ==> h.rcv == r
    ensures r.phase != File ==> h.rcv.closed && h.rcv.win.table == map[]
  {
  }

  /** What is no packet is passed over; the packets before the data are acknowledged once more as
      long as no data has come; anything else ends it. */
  lemma RestIsAnswered(r: Receiving, p: Parsed, h: Heard)
    requires r.phase != Stopped && r.phase != Confused && h == Hear(r, p)
    ensures !p.Good? ==> h.rcv == r && h.replies == []
    ensures p.Good? && (p.typ == 'A' as int || p.typ == 'F' as int) && r.phase == Attr ==> h.rcv == r && h.replies == [Ack(p.sq)]
    ensures p.Good? && p.typ != 'Z' as int && r.phase == File ==> h.rcv == r.(phase := Stopped) && h.replies == []
    ensures p.Good? && p.typ !in {'A' as int, 'F' as int, 'D' as int, 'Z' as int} ==> h.rcv == r.(phase := Stopped) && h.replies == []
  {
  }

  // ------------------------------------------------------------------ a lost packet, without waiting

  /** When a data packet comes early, a request for every packet between is on its way back. */
  lemma GapIsAskedFor(u: Setup, es: seq<Event>, mem: seq<byte>, p: int, q: int)
    requires ValidSetup(u) && |mem| >= MEMORY && Origin(u) <= p < Last(u)
    requires var l := After(u, es);
      && l.toRcv != [] && l.toRcv[0] == WireOf(u, p) && (l.rcv.phase == Attr || l.rcv.phase == RData)
      && l.rcv.win.table != map[] && l.rcv.win.high < q < p <= l.rcv.win.high + u.size
    ensures var l, l' := After(u, es), After(u, es + [ReceiverCall(mem)]);
      l.toSnd <= l'.toSnd && ReplyWire(u, Ack(p)) in l'.toSnd[|l.toSnd|..] && ReplyWire(u, Nak(q)) in l'.toSnd[|l.toSnd|..]
  {
    hide After, Inv, Receive, Hear, WireOf, ReplyWire, SendWindow.Valid;
    var l := After(u, es);
    var n := EveryRunKeeps(u, es);
    AckedAreSent(u, l, n);
    SizesAgree(u, l, n);
    AfterOneMore(u, es, ReceiverCall(mem));
    WireIsHeard(u, p, mem);
    var h := Hear(l.rcv, PacketOf(u, p));
    DataIsAnswered(l.rcv, p, u.packets[p - Origin(u)], h);
    var k := q - l.rcv.win.high;
    assert h.replies[0] == Ack(p) && h.replies[k] == Nak(q);
    var wires := ReplyWires(u, h.replies);
    assert wires[0] == ReplyWire(u, Ack(p)) && wires[k] == ReplyWire(u, Nak(q));
    assert (l.toSnd + wires)[|l.toSnd|..] == wires;
  }

  lemma SizesAgree(u: Setup, l: Link, n: Labels)
    requires ValidSetup(u) && Inv(u, l, n) && (l.rcv.phase == Attr || l.rcv.phase == RData)
    ensures l.rcv.win.size == u.size
  {
    hide SenderOk, LinesOk, Ordered, Range, Kept;
  }

  /** And when the request arrives, the bytes of the packet are on the line again. */
  lemma RequestIsObeyed(u: Setup, es: seq<Event>, mem: seq<byte>, q: int)
    requires ValidSetup(u) && |mem| >= MEMORY
    requires var l := After(u, es);
      && l.toSnd != [] && l.toSnd[0] == ReplyWire(u, Nak(q)) && Listening(l.snd)
      && l.snd.base <= q < NextOf(l.snd) && l.snd.win[q - l.snd.base].rtr < l.snd.retry
    ensures Origin(u) <= q <= Last(u)
    ensures var l, l' := After(u, es), After(u, es + [SenderCall(mem)]);
      l'.toRcv == l.toRcv + [WireOf(u, q)] && l'.toSnd == l.toSnd[1..] && l'.snd.phase == l.snd.phase
  {
    hide After, Inv, Receive, WireOf, ReplyWire, SendWindow.Run;
    var l := After(u, es);
    var n := EveryRunKeeps(u, es);
    EntryIsWire(u, l, n, q);
    AfterOneMore(u, es, SenderCall(mem));
    ReplyIsHeard(u, Nak(q), mem);
    NakIsAnswered(l.snd, TYPE_N, q % 64, q - l.snd.base, SendWindow.Run(l.snd, Input.Packet(TYPE_N, q % 64)));
  }

  lemma EntryIsWire(u: Setup, l: Link, n: Labels, q: int)
    requires ValidSetup(u) && Inv(u, l, n) && l.snd.base <= q < NextOf(l.snd)
    ensures Origin(u) <= q <= Last(u) && l.snd.win[q - l.snd.base].wire == WireOf(u, q) && l.snd.win[q - l.snd.base].sq == q % 64
  {
    hide WireOf, ReceiverOk, LinesOk, Ordered;
    assert OutOk(u, l.snd, n.acked, q - l.snd.base);
  }
}
