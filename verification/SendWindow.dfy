/**
 The sender's side of a file's data phase: a window of packets that wait for their
 acknowledgement, in the order they were sent. Class `Sender` in module KermitSender does
 the same with slots and a finder array.
 */
module SendWindow {
  import opened Bytes
  import opened KermitBytes
  import opened KermitFrame
  import opened ReceiveWindow
  import opened SequenceNumbers

  const TYPE_D: byte := 'D' as int
  const TYPE_Z: byte := 'Z' as int
  const TYPE_Y: byte := 'Y' as int
  const TYPE_N: byte := 'N' as int
  const TYPE_E: byte := 'E' as int
  const TYPE_G: byte := 'G' as int
  const TYPE_R: byte := 'R' as int

  /** A packet in the window: its sequence number, the bytes sent, whether it has been
      acknowledged, and how often it has been sent again. */
  datatype Out = Out(sq: int, typ: byte, wire: seq<byte>, acked: bool, rtr: nat)

  /** `Failed` once this file is given up: after an error packet, at the retry limit, or because
      the other side asks for another file. */
  datatype Phase = Data | Eof | Done | Failed

  /** `base` is the absolute number of the first packet of the window; it is not part of the
      program's state but makes the window's place among all packets explicit. */
  datatype Sending = Sending(size: nat, retry: nat, bct: nat, base: int, s_seq: int, phase: Phase,
                             win: seq<Out>, todo: seq<seq<byte>>)

  /** What one call leaves: the new state, the bytes put on the line, and the absolute numbers
      of the packets they carry, which like `base` are no part of the program's state. */
  datatype Result = Result(snd: Sending, sent: seq<seq<byte>>, nums: seq<int>)

  /** What the line delivered to one call: nothing in time (or a packet too short or with a
      bad header check), a packet whose length or block check is wrong, one with an
      impossible sequence number, or a good packet. */
  datatype Input = Silence | Damaged | Impossible | Packet(typ: byte, sq: int)

  ghost predicate Valid(s: Sending) {
    && 1 <= s.size <= MAX_WINDOW && 1 <= s.bct <= 3 && |s.win| <= s.size
    && s.s_seq == (s.base + |s.win| - 1) % 64
    && (forall i :: 0 <= i < |s.win| ==> s.win[i].sq == (s.base + i) % 64)
    && (s.win != [] ==> !s.win[0].acked)
    && (s.phase == Eof ==> s.todo == [] && s.win != [])
  }

  /** Position of sequence number `sq` in the window, or -1. */
  function Find(win: seq<Out>, sq: int): (i: int)
    ensures -1 <= i < |win|
    ensures i >= 0 ==> win[i].sq == sq
    ensures i == -1 ==> forall j :: 0 <= j < |win| ==> win[j].sq != sq
  {
    if win == [] then -1
    else if win[|win| - 1].sq == sq then |win| - 1
    else Find(win[..|win| - 1], sq)
  }

  /** Drops the acknowledged packets at the front. */
  function DropAcked(win: seq<Out>): (w: seq<Out>)
    ensures |w| <= |win| && w == win[|win| - |w|..]
    ensures w != [] ==> !w[0].acked
    ensures forall i :: 0 <= i < |win| - |w| ==> win[i].acked
  {
    if win != [] && win[0].acked then DropAcked(win[1..]) else win
  }

  /** The next packet of the file, or the end-of-file packet when there is none left. */
  function NextOut(s: Sending): Out
    requires 1 <= s.bct <= 3 && 0 <= s.s_seq
  {
    var sq := (s.s_seq + 1) % 64;
    if s.todo != [] then Out(sq, TYPE_D, Frame(TYPE_D, sq, s.todo[0], s.bct), false, 0)
    else Out(sq, TYPE_Z, Frame(TYPE_Z, sq, [], s.bct), false, 0)
  }

  function Transmit(s: Sending): Result
    requires 1 <= s.bct <= 3 && 0 <= s.s_seq
  {
    var o := NextOut(s);
    Result(s.(s_seq := o.sq, win := s.win + [o],
              phase := if s.todo != [] then Data else Eof,
              todo := if s.todo != [] then s.todo[1..] else []),
           [o.wire], [s.base + |s.win|])
  }

  /** Sends the packet at position `i` again, unless that has been done too often; then the
      transfer fails, except when `lenient`. */
  function Resend(s: Sending, i: nat, lenient: bool): Result
    requires i < |s.win|
  {
    var o := s.win[i];
    var again := s.(win := s.win[i := o.(rtr := o.rtr + 1)]);
    if o.rtr + 1 <= s.retry then Result(again, [o.wire], [s.base + i])
    else Result(if lenient then again else again.(phase := Failed), [], [])
  }

  /** The packet to send again: the one asked for, or the earliest if that is not in the
      window. */
  function Asked(s: Sending, sq: int): (i: nat)
    requires s.win != []
    ensures i < |s.win|
  {
    if Find(s.win, sq) >= 0 then Find(s.win, sq) else 0
  }

  /** Slides the window past the acknowledged packets at its front. */
  function Freed(s: Sending, marked: seq<Out>): Sending {
    var left := DropAcked(marked);
    s.(base := s.base + |marked| - |left|, win := left)
  }

  /** Marks a packet as acknowledged and goes on: the next packet if the window has room,
      or the end once the end-of-file packet has been acknowledged. */
  function OnAck(s: Sending, sq: int): Result
    requires 1 <= s.bct <= 3 && 0 <= s.s_seq
  {
    var i := Find(s.win, sq);
    if i < 0 then Result(s, [], [])
    else
      var t := Freed(s, s.win[i := s.win[i].(acked := true)]);
      if t.phase == Data then (if |t.win| < t.size then Transmit(t) else Result(t, [], []))
      else if t.win == [] then Result(t.(phase := Done), [], [])
      else Result(t, [], [])
  }

  /** While the window has room in the data phase, the line is not read. */
  predicate Reads(s: Sending) { !(s.phase == Data && |s.win| < s.size) }

  /** One call of the protocol engine while sending a file's data. */
  function Run(s: Sending, input: Input): (r: Result)
    requires Valid(s)
    ensures |r.sent| == |r.nums|
  {
    if s.phase == Done || s.phase == Failed then Result(s, [], [])
    else if !Reads(s) then Transmit(s)
    else match input
      case Silence => Resend(s, 0, false)
      case Damaged => Resend(s, 0, true)
      case Impossible => Result(s, [], [])
      case Packet(typ, sq) =>
        if typ == TYPE_Y then OnAck(s, sq)
        else if typ == TYPE_G then Result(s, [], [])
        else if typ == TYPE_R || typ == TYPE_E then Result(s.(phase := Failed), [], [])
        else Resend(s, Asked(s, sq), false)
  }

  // ------------------------------------------------------------------ what every call keeps

  lemma NextNumber(base: int, n: int)
    ensures ((base + n - 1) % 64 + 1) % 64 == (base + n) % 64
  {
  }

  lemma TransmitKeeps(s: Sending)
    requires Valid(s) && s.phase == Data && |s.win| < s.size
    ensures Valid(Transmit(s).snd) && Transmit(s).snd.win != []
  {
    hide Frame;
    NextNumber(s.base, |s.win|);
  }

  lemma FreedKeeps(s: Sending, i: nat)
    requires Valid(s) && (s.phase == Data || s.phase == Eof) && i < |s.win|
    ensures var t := Freed(s, s.win[i := s.win[i].(acked := true)]); Valid(t.(phase := Data)) && (t.win != [] ==> Valid(t))
  {
    hide DropAcked;
    var marked := s.win[i := s.win[i].(acked := true)];
    var t := Freed(s, marked);
    var d := |marked| - |t.win|;
    assert t.base + |t.win| == s.base + |s.win|;
    forall j | 0 <= j < |t.win|
      ensures t.win[j].sq == (t.base + j) % 64
    {
      assert t.win[j] == marked[d + j];
      assert marked[d + j].sq == s.win[d + j].sq;
      assert t.base + j == s.base + (d + j);
    }
  }

  /** Contiguity survives acknowledgement in any order. */
  lemma OnAckKeeps(s: Sending, sq: int)
    requires Valid(s) && (s.phase == Data || s.phase == Eof) && s.win != []
    ensures var r := OnAck(s, sq).snd; Valid(r) && (r.phase == Data || r.phase == Eof ==> r.win != [])
  {
    hide Freed, Transmit;
    var i := Find(s.win, sq);
    if i >= 0 {
      FreedKeeps(s, i);
      var t := Freed(s, s.win[i := s.win[i].(acked := true)]);
      FreedFrame(s, s.win[i := s.win[i].(acked := true)]);
      if t.phase == Data && |t.win| < t.size {
        TransmitKeeps(t);
      }
    }
  }

  lemma FreedFrame(s: Sending, marked: seq<Out>)
    ensures var t := Freed(s, marked); t == s.(base := t.base, win := t.win)
  {
  }

  lemma FreedStep(s: Sending)
    requires s.win != [] && s.win[0].acked
    ensures var t := s.(base := s.base + 1, win := s.win[1..]); Freed(t, t.win) == Freed(s, s.win)
  {
  }

  lemma FreedEnd(s: Sending)
    requires s.win == [] || !s.win[0].acked
    ensures Freed(s, s.win) == s
  {
  }

  lemma ResendKeeps(s: Sending, i: nat, lenient: bool)
    requires Valid(s) && i < |s.win|
    ensures Valid(Resend(s, i, lenient).snd) && |Resend(s, i, lenient).snd.win| == |s.win|
  {
  }

  /** Sender slot invariant: after every call that goes on, between one packet and a full
      window of packets wait, and their sequence numbers are contiguous and end at the last
      one sent. */
  lemma RunKeeps(s: Sending, input: Input)
    requires Valid(s)
    ensures var r := Run(s, input).snd;
      Valid(r) && (r.phase == Data || r.phase == Eof ==> 1 <= |r.win| <= r.size)
  {
    hide Transmit, OnAck, Resend;
    if s.phase == Data && |s.win| < s.size {
      TransmitKeeps(s);
    } else if s.phase == Data || s.phase == Eof {
      match input {
        case Silence => ResendKeeps(s, 0, false);
        case Damaged => ResendKeeps(s, 0, true);
        case Impossible =>
        case Packet(typ, sq) =>
          OnAckKeeps(s, sq);
          ResendKeeps(s, Asked(s, sq), false);
      }
    }
  }
}
