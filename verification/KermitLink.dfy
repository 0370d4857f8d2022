/**
 Sender and receiver joined by two lines that deliver frames in order but may lose any of them,
 or damage it into bytes that the parser refuses or reads as before, from the first data packet of
 a file to the acknowledged end-of-file packet.
 What travels is bytes: every frame is built by the packet builder, found by the line reader
 and taken apart by the parser.
 */
module KermitLink {
  import opened Bytes
  import opened KermitBytes
  import opened KermitFrame
  import opened KermitParse
  import opened ReceiveWindow
  import opened SequenceNumbers
  import opened SendWindow

  // ------------------------------------------------------------------ the receiving side

  /** `Confused` stands for packets the receive window has no rule for. */
  datatype RPhase = Attr | RData | File | Stopped | Confused

  /** `closed` once the end-of-file packet has been handled. */
  datatype Receiving = Receiving(win: Window, phase: RPhase, closed: bool)

  datatype Heard = Heard(rcv: Receiving, replies: seq<Reply>)

  /** One call of the protocol engine on the receiving side. */
  ghost function Hear(r: Receiving, p: Parsed): Heard {
    if !p.Good? || r.phase == Stopped || r.phase == Confused then Heard(r, [])
    else if p.typ == TYPE_D then
      if r.phase == File then Heard(r.(phase := Stopped), [])
      else if p.data == [] || NUL in p.data then Heard(r.(phase := Confused), [])
      else if r.win.table != map[] && Classify(r.win.size, r.win.high, p.sq) == Stray then
        (if Wraps(r.win.size, r.win.high) then Heard(r.(phase := Confused), []) else Heard(r, []))
      else
        var n := Placed(r.win, p.sq);
        Heard(r.(phase := RData, win := Arrive(r.win, n, p.data)), Replies(r.win, n))
    else if p.typ == TYPE_Z then
      Heard(if r.phase == File then r else r.(phase := File, closed := true, win := FlushAll(r.win)), [Ack(p.sq)])
    else if r.phase == Attr && (p.typ == 'A' as int || p.typ == 'F' as int) then Heard(r, [Ack(p.sq)])
    else Heard(r.(phase := Stopped), [])
  }

  // ------------------------------------------------------------------ the lines

  /** What is agreed before the data phase: window size, retry limit, block check, the sequence
      number of the packet before the first data packet, the longest packets that the receiver
      and the sender can take in, the file's data fields. */
  datatype Setup = Setup(size: nat, retry: nat, bct: nat, last: int, rcvMax: nat, sndMax: nat, packets: seq<seq<byte>>)

  ghost predicate ValidSetup(u: Setup) {
    && 1 <= u.size <= MAX_WINDOW && (u.bct == 1 || u.bct == 3) && 0 <= u.last < 64
    && 10 <= u.rcvMax <= P_PKTLEN && 10 <= u.sndMax <= P_PKTLEN
    && forall i :: 0 <= i < |u.packets| ==> u.packets[i] != [] && Clean(u.packets[i]) && |u.packets[i]| + u.bct + 6 <= u.rcvMax
  }

  datatype Link = Link(snd: Sending, rcv: Receiving, toRcv: seq<seq<byte>>, toSnd: seq<seq<byte>>)

  function Origin(u: Setup): int { u.last + 1 }

  ghost function Init(u: Setup): Link {
    Link(Sending(u.size, u.retry, u.bct, Origin(u), u.last, Data, [], u.packets),
         Receiving(Window(u.size, u.last, map[], []), Attr, false), [], [])
  }

  /** How a side reads: the parser's settings and the longest packet it takes in. */
  datatype Side = Side(config: Config, max: nat)

  function RcvConfig(u: Setup): Side { Side(Config(true, false, u.bct, false), u.rcvMax) }

  function SndConfig(u: Setup): Side { Side(Config(false, false, u.bct, false), u.sndMax) }

  /** What the parser makes of the bytes of one frame, `mem` being what the packet buffer
      held before. */
  function Receive(k: Side, wire: seq<byte>, mem: seq<byte>): Parsed
    requires 1 <= k.config.bct <= 3 && !k.config.force3 && |mem| >= MEMORY
  {
    match Scan(wire, 0, false, [], k.max)
    case Packet(c) => Parse(k.config, c + [NUL] + mem, |c|)
    case _ => TooShort
  }

  /** Bytes in which the parser never finds a good packet. */
  ghost predicate Junk(k: Side, wire: seq<byte>)
    requires 1 <= k.config.bct <= 3 && !k.config.force3
  {
    forall mem :: |mem| >= MEMORY ==> !Receive(k, wire, mem).Good?
  }

  /** What damage may make of the bytes `was` of a frame: bytes in which the parser, whatever the
      packet buffer held before, finds no good packet or still the same one. */
  ghost predicate MayBecome(k: Side, was: seq<byte>, wire: seq<byte>)
    requires 1 <= k.config.bct <= 3 && !k.config.force3
  {
    forall mem :: |mem| >= MEMORY && Receive(k, wire, mem).Good? ==> Receive(k, wire, mem) == Receive(k, was, mem)
  }

  function InputOf(p: Parsed): Input {
    match p
    case Good(typ, sq, _) => Input.Packet(typ, sq)
    case BadLength => Damaged
    case BadCheck => Damaged
    case BadSequence => Impossible
    case _ => Silence
  }

  function ReplyWire(u: Setup, r: Reply): seq<byte>
    requires 1 <= u.bct <= 3
  {
    match r
    case Ack(n) => Frame(TYPE_Y, n % 64, [], u.bct)
    case Nak(n) => Frame(TYPE_N, n % 64, [], u.bct)
  }

  function ReplyWires(u: Setup, rs: seq<Reply>): seq<seq<byte>>
    requires 1 <= u.bct <= 3
  {
    seq(|rs|, i requires 0 <= i < |rs| => ReplyWire(u, rs[i]))
  }

  datatype Event =
    | SenderTimeout
    | SenderCall(mem: seq<byte>)
    | ReceiverCall(mem: seq<byte>)
    | LoseData(i: nat)
    | LoseReply(i: nat)
    | DamageData(i: nat, wire: seq<byte>)
    | DamageReply(i: nat, wire: seq<byte>)

  ghost predicate Enabled(u: Setup, l: Link, e: Event)
    requires ValidSetup(u)
  {
    match e
    case SenderTimeout => true
    case SenderCall(mem) => l.toSnd != [] && |mem| >= MEMORY && Reads(l.snd) && l.snd.phase != Done && l.snd.phase != Failed
    case ReceiverCall(mem) => l.toRcv != [] && |mem| >= MEMORY
    case LoseData(i) => i < |l.toRcv|
    case LoseReply(i) => i < |l.toSnd|
    case DamageData(i, wire) => i < |l.toRcv| && MayBecome(RcvConfig(u), l.toRcv[i], wire)
    case DamageReply(i, wire) => i < |l.toSnd| && MayBecome(SndConfig(u), l.toSnd[i], wire)
  }

  ghost function AfterSender(l: Link, r: Result): Link {
    l.(snd := r.snd, toRcv := l.toRcv + r.sent)
  }

  ghost function Step(u: Setup, l: Link, e: Event): Link
    requires ValidSetup(u) && SendWindow.Valid(l.snd) && Enabled(u, l, e)
  {
    match e
    case SenderTimeout => AfterSender(l, SendWindow.Run(l.snd, Silence))
    case SenderCall(mem) =>
      AfterSender(l.(toSnd := l.toSnd[1..]), SendWindow.Run(l.snd, InputOf(Receive(SndConfig(u), l.toSnd[0], mem))))
    case ReceiverCall(mem) =>
      var h := Hear(l.rcv, Receive(RcvConfig(u), l.toRcv[0], mem));
      l.(toRcv := l.toRcv[1..], rcv := h.rcv, toSnd := l.toSnd + ReplyWires(u, h.replies))
    case LoseData(i) => l.(toRcv := Without(l.toRcv, i))
    case LoseReply(i) => l.(toSnd := Without(l.toSnd, i))
    case DamageData(i, wire) => l.(toRcv := l.toRcv[i := wire])
    case DamageReply(i, wire) => l.(toSnd := l.toSnd[i := wire])
  }
}
