/**
 Which packet a frame on the line carries, and that the other side reads it as that packet.
 */
module KermitWire {
  import opened Bytes
  import opened KermitBytes
  import opened KermitCheck
  import opened KermitFrame
  import opened KermitParse
  import opened SendWindow
  import opened ReceiveWindow
  import opened SequenceNumbers
  import opened KermitLink
  import KermitRefusals
  import KermitRoundTrip

  /** Number of the end-of-file packet. */
  function Last(u: Setup): int { Origin(u) + |u.packets| }

  /** The bytes of packet number `p`. */
  function WireOf(u: Setup, p: int): seq<byte>
    requires 1 <= u.bct <= 3 && Origin(u) <= p <= Last(u)
  {
    if p < Last(u) then Frame(TYPE_D, p % 64, u.packets[p - Origin(u)], u.bct) else Frame(TYPE_Z, p % 64, [], u.bct)
  }

  /** What the parser should make of it. */
  function PacketOf(u: Setup, p: int): Parsed
    requires Origin(u) <= p <= Last(u)
  {
    if p < Last(u) then Good(TYPE_D, p % 64, u.packets[p - Origin(u)]) else Good(TYPE_Z, p % 64, [])
  }

  function ReplyOf(r: Reply): Parsed { Good(if r.Ack? then TYPE_Y else TYPE_N, r.num % 64, []) }

  lemma WireIsHeard(u: Setup, p: int, mem: seq<byte>)
    requires ValidSetup(u) && Origin(u) <= p <= Last(u) && |mem| >= MEMORY
    ensures Receive(RcvConfig(u), WireOf(u, p), mem) == PacketOf(u, p)
  {
    hide Scan, Parse, Content;
    var data := if p < Last(u) then u.packets[p - Origin(u)] else [];
    var typ := if p < Last(u) then TYPE_D else TYPE_Z;
    FrameIsHeard(u, RcvConfig(u), typ, p % 64, data, mem);
  }

  lemma ReplyIsHeard(u: Setup, r: Reply, mem: seq<byte>)
    requires ValidSetup(u) && |mem| >= MEMORY
    ensures Receive(SndConfig(u), ReplyWire(u, r), mem) == ReplyOf(r)
  {
    hide Scan, Parse, Content;
    FrameIsHeard(u, SndConfig(u), if r.Ack? then TYPE_Y else TYPE_N, r.num % 64, [], mem);
  }

  lemma FrameIsHeard(u: Setup, k: Side, typ: byte, sq: nat, data: seq<byte>, mem: seq<byte>)
    requires ValidSetup(u) && (k == RcvConfig(u) || k == SndConfig(u)) && |mem| >= MEMORY && sq < 64
    requires Clean(data) && |data| + u.bct + 6 <= k.max
    requires typ == TYPE_D || typ == TYPE_Z || (k == SndConfig(u) && (typ == TYPE_Y || typ == TYPE_N))
    ensures Receive(k, Frame(typ, sq, data, u.bct), mem) == Good(typ, sq, data)
  {
    hide Scan, Parse, Content;
    var f := Frame(typ, sq, data, u.bct);
    KermitRoundTrip.FrameRoundTrip(k.config, typ, sq, data, u.bct, [], [], mem, k.max);
    assert [] + f + [] == f;
  }

  // ------------------------------------------------------------------ what damage the line may do

  /** The frame of data packet `p` with block check 3, its data field replaced on the way. */
  function DamagedWire(u: Setup, p: int, damaged: seq<byte>): seq<byte>
    requires u.bct == 3 && Origin(u) <= p < Last(u)
  {
    var data := u.packets[p - Origin(u)];
    [PACKET_START] + (Header(TYPE_D, p % 64, |data|, 3) + damaged + CheckBytes(3, Body(TYPE_D, p % 64, data, 3))) + [PACKET_END]
  }

  lemma DamagedIsRefused(u: Setup, p: int, damaged: seq<byte>, i: nat, mem: seq<byte>)
    requires ValidSetup(u) && u.bct == 3 && Origin(u) <= p < Last(u) && |mem| >= MEMORY
    requires KermitRoundTrip.Burst(u.packets[p - Origin(u)], damaged, i) && Clean(damaged)
    ensures !Receive(RcvConfig(u), DamagedWire(u, p, damaged), mem).Good?
  {
    hide Scan, Parse, Header, CheckBytes;
    var data := u.packets[p - Origin(u)];
    var d := Body(TYPE_D, p % 64, damaged, 3) + CheckBytes(3, Body(TYPE_D, p % 64, data, 3));
    assert d == Header(TYPE_D, p % 64, |data|, 3) + damaged + CheckBytes(3, Body(TYPE_D, p % 64, data, 3));
    KermitRoundTrip.BodyIsClean(TYPE_D, p % 64, damaged, 3);
    KermitRoundTrip.CheckIsClean(3, Body(TYPE_D, p % 64, data, 3));
    KermitRoundTrip.CleanAppend(Body(TYPE_D, p % 64, damaged, 3), CheckBytes(3, Body(TYPE_D, p % 64, data, 3)));
    ReaderFindsFrame([], d, [], u.rcvMax);
    assert [] + ([PACKET_START] + d + [PACKET_END]) + [] == DamagedWire(u, p, damaged);
    KermitRoundTrip.BurstInDataIsRejected(RcvConfig(u).config, TYPE_D, p % 64, data, damaged, i, mem);
  }

  /** Real damage: when one or two neighbouring bytes of a data field become others, none of
      them a delimiter, the 16-bit check refuses the frame whatever the receiver's buffer
      holds; so the line may do this to any data packet under way. */
  lemma BurstIsDamage(u: Setup, l: Link, k: nat, p: int, damaged: seq<byte>, i: nat)
    requires ValidSetup(u) && u.bct == 3 && Origin(u) <= p < Last(u)
    requires k < |l.toRcv| && l.toRcv[k] == WireOf(u, p)
    requires KermitRoundTrip.Burst(u.packets[p - Origin(u)], damaged, i) && Clean(damaged)
    ensures Junk(RcvConfig(u), DamagedWire(u, p, damaged))
    ensures Enabled(u, l, DamageData(k, DamagedWire(u, p, damaged)))
  {
    hide Scan, Parse, Header, CheckBytes, Receive;
    forall mem: seq<byte> | |mem| >= MEMORY
      ensures !Receive(RcvConfig(u), DamagedWire(u, p, damaged), mem).Good?
    {
      DamagedIsRefused(u, p, damaged, i, mem);
    }
  }

  /** What the reader stores of packet `p`. */
  function ContentOf(u: Setup, p: int): seq<byte>
    requires 1 <= u.bct <= 3 && Origin(u) <= p <= Last(u)
  {
    if p < Last(u) then Content(TYPE_D, p % 64, u.packets[p - Origin(u)], u.bct) else Content(TYPE_Z, p % 64, [], u.bct)
  }

  lemma ContentIsHeard(u: Setup, p: int, m: seq<byte>, n: nat)
    requires ValidSetup(u) && Origin(u) <= p <= Last(u) && |m| >= MEMORY && ContentOf(u, p) <= m && n >= |ContentOf(u, p)|
    ensures Parse(RcvConfig(u).config, m, n) == PacketOf(u, p)
    ensures Undelimited(ContentOf(u, p)) && WireOf(u, p) == [PACKET_START] + ContentOf(u, p) + [PACKET_END]
  {
    hide Parse, Content, Body, CheckBytes, CheckOk;
    var data := if p < Last(u) then u.packets[p - Origin(u)] else [];
    var typ := if p < Last(u) then TYPE_D else TYPE_Z;
    KermitRoundTrip.ContentIsUndelimited(typ, p % 64, data, u.bct);
    KermitRoundTrip.CheckIsRecognised(u.bct, Body(typ, p % 64, data, u.bct));
    KermitRoundTrip.ParseOfPrefix(RcvConfig(u).config, typ, p % 64, data, u.bct, m, n);
  }

  /** The bytes on the line when the packet end between two frames is lost. */
  function Merged(u: Setup, p: int, q: int): seq<byte>
    requires 1 <= u.bct <= 3 && Origin(u) <= p <= Last(u) && Origin(u) <= q <= Last(u)
  {
    [PACKET_START] + ContentOf(u, p) + WireOf(u, q)
  }

  /** The reader takes the two frames for one, and the parser finds the first packet in it, or
      nothing when the two are too long together: whatever the order of events, a lost packet end
      does no more than losing the second frame, and perhaps the first one too. */
  lemma MergingIsDamage(u: Setup, l: Link, k: nat, p: int, q: int)
    requires ValidSetup(u) && Origin(u) <= p <= Last(u) && Origin(u) <= q <= Last(u)
    requires k < |l.toRcv| && l.toRcv[k] == WireOf(u, p)
    ensures MayBecome(RcvConfig(u), WireOf(u, p), Merged(u, p, q))
    ensures Enabled(u, l, DamageData(k, Merged(u, p, q)))
  {
    hide Scan, Parse, Receive, ContentOf, WireOf;
    forall mem: seq<byte> | |mem| >= MEMORY && Receive(RcvConfig(u), Merged(u, p, q), mem).Good?
      ensures Receive(RcvConfig(u), Merged(u, p, q), mem) == Receive(RcvConfig(u), WireOf(u, p), mem)
    {
      MergedIsHeard(u, p, q, mem);
      WireIsHeard(u, p, mem);
    }
  }

  lemma MergedIsHeard(u: Setup, p: int, q: int, mem: seq<byte>)
    requires ValidSetup(u) && Origin(u) <= p <= Last(u) && Origin(u) <= q <= Last(u) && |mem| >= MEMORY
    ensures Receive(RcvConfig(u), Merged(u, p, q), mem) ==
      if |ContentOf(u, p)| + |ContentOf(u, q)| <= u.rcvMax + 1 then PacketOf(u, p) else TooShort
  {
    hide Scan, Parse, ContentOf, WireOf;
    var c, d := ContentOf(u, p), ContentOf(u, q);
    ContentIsHeard(u, p, c + d + [NUL] + mem, |c + d|);
    ContentIsHeard(u, q, d + [NUL] + mem, |d|);
    var noise := [PACKET_START] + c;
    assert noise[1..] == c;
    assert PACKET_START !in c && PACKET_END !in c;
    NoStarts(c);
    assert StoredOf(noise) == c && noise[0] != CMD[0];
    FrameBehindNoise(noise, d, [], u.rcvMax);
    assert noise + ([PACKET_START] + d + [PACKET_END]) + [] == Merged(u, p, q);
  }

  /** Under block check 1 the flip of one bit of any byte of a packet under way, but for its length, is
      damage that the line may do: nothing is heard of the frame. */
  lemma FlipIsDamage(u: Setup, l: Link, k: nat, p: int, j: nat, b: byte)
    requires ValidSetup(u) && u.bct == 1 && Origin(u) <= p <= Last(u)
    requires k < |l.toRcv| && l.toRcv[k] == WireOf(u, p)
    requires 1 <= j < |ContentOf(u, p)| && KermitRefusals.BitApart(ContentOf(u, p)[j], b) && !Reserved(b)
    ensures var d := [PACKET_START] + ContentOf(u, p)[j := b] + [PACKET_END];
      Junk(RcvConfig(u), d) && Enabled(u, l, DamageData(k, d))
  {
    hide Scan, Parse, Header, CheckBytes;
    var data := if p < Last(u) then u.packets[p - Origin(u)] else [];
    var typ := if p < Last(u) then TYPE_D else TYPE_Z;
    var c := ContentOf(u, p)[j := b];
    KermitRoundTrip.ContentIsUndelimited(typ, p % 64, data, 1);
    ReaderFindsFrame([], c, [], u.rcvMax);
    var d := [PACKET_START] + c + [PACKET_END];
    assert [] + d + [] == d;
    forall mem: seq<byte> | |mem| >= MEMORY
      ensures !Receive(RcvConfig(u), d, mem).Good?
    {
      KermitRefusals.OneBitIsRefused(RcvConfig(u).config, typ, p % 64, data, j, b, mem);
    }
  }
}
