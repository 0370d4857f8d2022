/** The sender's routines that read a file and build packet data fields in place. */
module KermitPacketiser {
  import opened Bytes
  import opened KermitBytes
  import opened KermitCodec
  import opened KermitPackets

  const IBUFLEN := 512

  /** The part of the protocol control block that reading and encoding a file use, with the
      input file itself. */
  class Packetiser {
    // the open input file
    const file: seq<byte>
    var ifile: nat
    // its buffer
    const zinbuf: array<byte>
    var zinptr: nat
    var zincnt: int
    // negotiated parameters
    const rptflg: bool
    const rptq: byte
    const s_maxlen: nat
    const bct: nat
    // the data field being built
    const xdata: array<byte>
    var size: nat
    var osize: nat
    // encoder state: first-time and end-of-file flag, run length, lookahead byte, leftovers
    var s_first: int
    var s_rpt: nat
    var cgetpkt: int
    const s_remain: array<byte>
    ghost var left: nat  // number of leftover bytes

    constructor (contents: seq<byte>, repeats: bool, prefix: byte, maxPacket: nat, check: nat)
      requires 1 <= check <= 3 && 10 <= maxPacket <= P_PKTLEN
      requires Sound(Codec(repeats, prefix))
      ensures Valid() && fresh(zinbuf) && fresh(xdata) && fresh(s_remain)
      ensures file == contents && K() == Codec(repeats, prefix) && s_maxlen == maxPacket && bct == check
      ensures s_first == 1 && Unread() == contents
      ensures Steps() == FileSteps(K(), contents) && Remain() == []
    {
      file, ifile := contents, 0;
      zinbuf := new byte[IBUFLEN + 8];
      zinptr, zincnt := 0, 0;
      rptflg, rptq, s_maxlen, bct := repeats, prefix, maxPacket, check;
      xdata := new byte[P_PKTLEN + 2];
      s_remain := new byte[6] (_ => NUL);
      size, osize, s_first, s_rpt, cgetpkt := 0, 0, 1, 0, 0;
      left := 0;
      new;
      assert Unread() == contents;
    }

    /** Longest data field aimed at; there may be no room for any. */
    function MaxLen(): int { s_maxlen - bct - 9 }

    function K(): Codec { Codec(rptflg, rptq) }

    ghost predicate Shape()
      reads this
    {
      && zinbuf.Length == IBUFLEN + 8 && xdata.Length == P_PKTLEN + 2 && s_remain.Length == 6
      && zinbuf != xdata && zinbuf != s_remain && xdata != s_remain
      && 1 <= bct <= 3 && 10 <= s_maxlen <= P_PKTLEN && Sound(K())
      && ifile <= |file| && 0 <= zincnt && zinptr + zincnt <= IBUFLEN
    }

    /** Leftovers end with a NUL inside their six bytes. */
    ghost predicate RemainEnds(n: nat)
      reads this, s_remain
    {
      && n <= 4 && s_remain.Length == 6 && s_remain[n] == NUL
      && forall i :: 0 <= i < n ==> s_remain[i] != NUL
    }

    ghost predicate Valid()
      reads this, s_remain
    {
      && Shape()
      && RemainEnds(left)
      && (s_first == 1 || s_first == 0 || s_first == -1)
      && (s_first == 0 ==> 0 <= cgetpkt < 256 && s_rpt < MAX_RUN && (s_rpt > 0 ==> rptflg))
      && (s_first != 0 ==> s_rpt == 0)
    }

    /** The bytes of the file not yet taken from the buffer or the file. */
    ghost function Unread(): seq<byte>
      reads this, zinbuf
      requires Shape()
    {
      zinbuf[zinptr..zinptr + zincnt] + file[ifile..]
    }

    /** Encoded bytes carried over to the next packet. */
    ghost function Remain(): seq<byte>
      reads this, s_remain
      requires Valid()
    {
      if s_first == 1 then [] else s_remain[..left]
    }

    /** The encoding steps still to come. */
    ghost function Steps(): seq<Step>
      reads this, s_remain, zinbuf
      requires Valid()
    {
      if s_first == 1 then FileSteps(K(), Unread())
      else if s_first == 0 then Runs(K(), cgetpkt, s_rpt + 1, Unread())
      else []
    }

    /** Reads the next stretch of the file into the empty buffer. */
    method Refill() returns (n: nat)
      requires Shape() && zincnt == 0
      modifies this`ifile, this`zinptr, this`zincnt, zinbuf
      ensures Shape() && zincnt == n && Unread() == old(Unread())
      ensures n == 0 ==> old(Unread()) == []
    {
      n := if |file| - ifile < IBUFLEN then |file| - ifile else IBUFLEN;
      zincnt := n;
      if n != 0 {
        forall i | 0 <= i < n {
          zinbuf[i] := file[ifile + i];
        }
        zinbuf[n] := NUL;
        zinptr, ifile := 0, ifile + n;
        assert zinbuf[..n] == file[old(ifile)..ifile];
        assert file[old(ifile)..] == file[old(ifile)..ifile] + file[ifile..];
      } else {
        assert Unread() == [];
      }
    }

    /** Takes one byte from a buffer that holds some. */
    method Take() returns (c: byte)
      requires Shape() && 0 < zincnt
      modifies this`zinptr, this`zincnt
      ensures Shape() && old(Unread()) == [c] + Unread()
    {
      zincnt := zincnt - 1;
      c := zinbuf[zinptr];
      zinptr := zinptr + 1;
    }

    /** Next byte of the file, or -1 at its end; refills the buffer when it is empty. */
    method ReadFile() returns (c: int)
      requires Shape()
      modifies this`ifile, this`zinptr, this`zincnt, zinbuf
      ensures Shape()
      ensures -1 <= c < 256 && old(Unread()) == (if c == -1 then [] else [c]) + Unread()
      ensures c == -1 ==> Unread() == []
    {
      if zincnt < 1 {
        var n := Refill();
        if n == 0 {
          return -1;
        }
      }
      c := Take();
    }

    /** Next byte of the file, or -1. */
    method ZGetC() returns (c: int)
      requires Shape()
      modifies this`ifile, this`zinptr, this`zincnt, zinbuf
      ensures Shape()
      ensures -1 <= c < 256 && old(Unread()) == (if c == -1 then [] else [c]) + Unread()
      ensures c == -1 ==> Unread() == []
    {
      if zincnt - 1 >= 0 {
        c := Take();
      } else {
        c := ReadFile();
      }
    }

    /** Appends one byte to the data field. */
    method Put(b: byte)
      requires xdata.Length == P_PKTLEN + 2 && size < P_PKTLEN + 1
      modifies this`size, xdata
      ensures size == old(size) + 1 && xdata[..size] == old(xdata[..size]) + [b]
    {
      xdata[size] := b;
      size := size + 1;
    }

    /** Emits byte `a`, quoted if need be, and terminates the field. */
    method Emit(a: byte)
      requires xdata.Length == P_PKTLEN + 2 && size + 2 < P_PKTLEN + 2
      modifies this`size, xdata
      ensures size == old(size) + |Quote(K(), a)|
      ensures xdata[..size] == old(xdata[..size]) + Quote(K(), a) && xdata[size] == NUL
    {
      var c := a;
      if a == NUL || a == PACKET_START || a == PACKET_END {
        Put(PREFIX_CTRL);
        c := Ctl(a);
      } else if a == PREFIX_CTRL {
        Put(PREFIX_CTRL);
      } else if rptflg && a == rptq {
        Put(PREFIX_CTRL);
      }
      Put(c);
      xdata[size] := NUL;
      if size >= P_PKTLEN + 2 {
        assert false;
      }
    }

    /** Emits a repeat prefix and count. */
    method PutRun(count: nat)
      requires xdata.Length == P_PKTLEN + 2 && size + 2 < P_PKTLEN + 2
      modifies this`size, xdata
      ensures size == old(size) + 2 && xdata[..size] == old(xdata[..size]) + [rptq, ToRepeat(count)]
    {
      Put(rptq);
      Put(ToRepeat(count));
    }

    /** Is `a` only counted, because the same byte follows and the run is not at its cap? */
    predicate Counts(a: byte, next: int)
      reads this
    {
      rptflg && a == next && s_rpt + 1 < MAX_RUN
    }

    /** A run of two: encodes the byte twice, and lets a full packet end in between. */
    method EncodePair(a: byte)
      requires Shape() && s_rpt == 1 && rptflg && size <= s_maxlen - 6
      modifies this`size, this`osize, this`s_rpt, xdata
      ensures s_rpt == 0 && size == old(size) + 2 * |Quote(K(), a)| && osize == old(size) + |Quote(K(), a)|
      ensures xdata[..size] == old(xdata[..size]) + Quote(K(), a) + Quote(K(), a) && xdata[size] == NUL
      decreases s_rpt, 0
    {
      hide Quote;
      ghost var before := xdata[..size];
      s_rpt := 0;
      Encode(a, -1);
      assert before + [] + Quote(K(), a) == before + Quote(K(), a);
      if size <= s_maxlen - 4 {
        osize := size;
      }
      s_rpt := 0;
      ghost var middle := xdata[..size];
      Encode(a, -1);
      assert middle + [] + Quote(K(), a) == middle + Quote(K(), a);
    }

    /** Encodes byte `a`, knowing the byte that follows it. */
    method Encode(a: byte, next: int)
      requires Shape() && s_rpt < MAX_RUN && (s_rpt > 0 ==> rptflg)
      requires size <= s_maxlen - (if s_rpt == 0 then 4 else 6)
      modifies this`size, this`osize, this`s_rpt, xdata
      ensures old(Counts(a, next)) ==>
        s_rpt == old(s_rpt) + 1 && size == old(size) && osize == old(osize) && xdata[..] == old(xdata[..])
      ensures !old(Counts(a, next)) ==>
        var s := Close(K(), a, old(s_rpt) + 1);
        && s_rpt == 0
        && size == old(size) + |s.head| + |s.tail|
        && xdata[..size] == old(xdata[..size]) + s.head + s.tail && xdata[size] == NUL
        && osize == (if s.head == [] then old(osize) else old(size) + |s.head|)
      decreases s_rpt, 1
    {
      hide Quote;
      ghost var before := xdata[..size];
      assert before + [] == before;
      if rptflg {
        if a == next {
          s_rpt := s_rpt + 1;
          if s_rpt < MAX_RUN {
            return;
          } else if s_rpt == MAX_RUN {
            PutRun(s_rpt);
            s_rpt := 0;
          }
        } else if s_rpt == 1 {
          EncodePair(a);
          return;
        } else if s_rpt > 1 {
          s_rpt := s_rpt + 1;
          PutRun(s_rpt);
          s_rpt := 0;
        }
      }
      ghost var prefix := xdata[..size];
      Emit(a);
      assert prefix != before ==> xdata[..size] == before + ([rptq, prefix[|before| + 1]] + Quote(K(), a));
    }

    /** Copies the leftovers to the start of the data field. */
    method CopyLeftovers()
      requires Shape() && RemainEnds(left)
      modifies this`size, this`left, xdata, s_remain
      ensures size == old(left) && xdata[..size] == old(s_remain[..left]) && xdata[size] == NUL && left == 0 && RemainEnds(0)
    {
      size := 0;
      xdata[0] := s_remain[0];
      while xdata[size] != NUL
        modifies this`size, xdata
        invariant size <= left && xdata[..size] == s_remain[..size] && xdata[size] == s_remain[size]
        decreases left - size
      {
        size := size + 1;
        xdata[size] := s_remain[size];
      }
      s_remain[0] := NUL;
      left := 0;
    }

    /** Keeps what lies beyond `osize` for the next packet and cuts it off this one. */
    method SaveLeftovers()
      requires Shape() && osize <= size <= osize + 4 && size < P_PKTLEN + 2 && xdata[size] == NUL
      requires forall i :: 0 <= i < size - osize ==> xdata[..size][osize..][i] != NUL
      modifies this`left, this`size, s_remain, xdata
      ensures RemainEnds(left) && s_remain[..left] == old(xdata[..size])[osize..]
      ensures size == osize && xdata[..size] == old(xdata[..size])[..osize]
    {
      assert forall i :: osize <= i < size ==> xdata[i] == xdata[..size][osize..][i - osize];
      var i := 0;
      s_remain[0] := xdata[osize];
      while s_remain[i] != NUL
        modifies s_remain
        invariant 0 <= i <= size - osize
        invariant forall j :: 0 <= j <= i ==> s_remain[j] == xdata[osize + j]
        decreases size - osize - i
      {
        i := i + 1;
        s_remain[i] := xdata[osize + i];
      }
      ghost var whole := xdata[..size];
      left := i;
      size := osize;
      xdata[size] := NUL;
      assert xdata[..size] == whole[..osize];
    }

    /** One turn of the packet loop: reads the byte that follows `c` and encodes `c`. Either
        a run is still being counted, or the next step has been emitted. */
    method Turn(c: byte) returns (next: int)
      requires Shape() && s_first == 0 && s_rpt < MAX_RUN && (s_rpt > 0 ==> rptflg) && size <= s_maxlen - 6
      modifies this`ifile, this`zinptr, this`zincnt, this`s_first, this`osize, this`size, this`s_rpt, this`cgetpkt, zinbuf, xdata
      ensures Shape() && s_first == (if next == -1 then -1 else 0) && cgetpkt == next && -1 <= next < 256
      ensures old(Unread()) == (if next == -1 then [] else [next]) + Unread() && (next == -1 ==> Unread() == [])
      ensures old(Counts(c, next)) ==>
        s_rpt == old(s_rpt) + 1 && size == osize == old(size) && xdata[..size] == old(xdata[..size]) && xdata[size] == old(xdata[size])
      ensures !old(Counts(c, next)) ==>
        var s := Close(K(), c, old(s_rpt) + 1);
        && s_rpt == 0
        && size == old(size) + |s.head| + |s.tail| && xdata[..size] == old(xdata[..size]) + s.head + s.tail
        && osize == old(size) + |s.head| && xdata[size] == NUL
    {
      hide Close, Quote, Sound;
      next := ZGetC();
      if next < 0 {
        s_first := -1;
      }
      osize := size;
      ghost var before := xdata[..];
      Encode(c, next);
      assert xdata[..] == before ==> xdata[..size] == before[..size];
      cgetpkt := next;
    }

    /** The encoding steps that follow lookahead byte `c`. */
    ghost function After(c: int): seq<Step>
      reads this, zinbuf
      requires Shape() && -1 <= c < 256 && s_rpt < MAX_RUN
    {
      if c == -1 then [] else Runs(K(), c, s_rpt + 1, Unread())
    }

    /** The encoder is between two turns of the packet loop: with room left, or at the start of a
        packet. */
    ghost predicate Filling(c: int)
      reads this, xdata, s_remain
    {
      && Shape() && -1 <= c < 256 && s_first == (if c == -1 then -1 else 0) && cgetpkt == c
      && s_rpt < MAX_RUN && (s_rpt > 0 ==> rptflg && c != -1) && left == 0 && RemainEnds(0)
      && (size < MaxLen() || (c != -1 && size <= 4 && xdata[size] == NUL))
    }

    /** The encoder has just emitted `head` and `tail`, or nothing; `next` is the lookahead. */
    ghost predicate Emitted(next: int, acc: seq<byte>, head: seq<byte>, tail: seq<byte>)
      reads this, xdata, s_remain
    {
      && Shape() && -1 <= next < 256 && s_first == (if next == -1 then -1 else 0) && cgetpkt == next
      && s_rpt < MAX_RUN && (s_rpt > 0 ==> rptflg && next != -1) && left == 0 && RemainEnds(0)
      && (|acc| < MaxLen() || |acc| <= 4) && |head| + |tail| <= 4 && (forall i :: 0 <= i < |tail| ==> tail[i] != NUL)
      && size == |acc| + |head| + |tail| && osize == |acc| + |head| && xdata[..size] == acc + head + tail
      && (tail != [] || size >= MaxLen() ==> xdata[size] == NUL) && (tail != [] ==> s_rpt == 0)
    }

    /** Cuts the packet when it is full. */
    method CutIfFull(next: int, ghost acc: seq<byte>, ghost head: seq<byte>, ghost tail: seq<byte>) returns (full: bool)
      requires Emitted(next, acc, head, tail) && (tail == [] ==> head == [])
      modifies this`left, this`size, s_remain, xdata
      ensures var f := AfterStep(MaxLen(), acc, head, tail, old(After(next)));
        if full then Valid() && size <= P_PKTLEN && xdata[..size] == f.data && Remain() == f.rest && Steps() == f.steps
        else Filling(next) && f == Fill(MaxLen(), xdata[..size], After(next))
      ensures Unread() == old(Unread())
    {
      hide Runs, Fill, FileSteps, Sound;
      full := size >= MaxLen();
      if size > MaxLen() {
        SplitsBack(acc, head, tail);
        SaveLeftovers();
      }
    }

    /** One turn emits the next step. */
    method TurnEmits(c: byte) returns (next: int)
      requires Filling(c)
      modifies this`ifile, this`zinptr, this`zincnt, this`s_first, this`osize, this`size, this`s_rpt, this`cgetpkt, zinbuf, xdata
      ensures var s := old(Emits(K(), c, s_rpt + 1, Unread())); Emitted(next, old(xdata[..size]), s.head, s.tail)
      ensures old(Fill(MaxLen(), xdata[..size], After(c))) ==
        var s := old(Emits(K(), c, s_rpt + 1, Unread())); AfterStep(MaxLen(), old(xdata[..size]), s.head, s.tail, After(next))
      ensures |old(Unread())| == |Unread()| + (if next == -1 then 0 else 1)
    {
      hide Runs, Fill, Close, FileSteps, Sound, Quote, AfterStep, Emits;
      ghost var acc, n, unread := xdata[..size], s_rpt + 1, Unread();
      TurnMeaning(K(), MaxLen(), acc, c, n, unread);
      EmitsIs(K(), c, n, unread);
      next := Turn(c);
      assert next != -1 ==> unread[0] == next && unread[1..] == Unread();
      assert acc + [] + [] == acc;
    }

    /** One turn, and what it means for the packet that is to become `f`. */
    method TurnAndCut(c: byte, ghost f: Filled) returns (next: int, full: bool)
      requires Filling(c) && f == Fill(MaxLen(), xdata[..size], After(c))
      modifies this, zinbuf, xdata, s_remain
      ensures full ==> Valid() && size <= P_PKTLEN && xdata[..size] == f.data && Remain() == f.rest && Steps() == f.steps
      ensures !full ==> Filling(next) && f == Fill(MaxLen(), xdata[..size], After(next))
      ensures !full ==> |old(Unread())| == |Unread()| + (if next == -1 then 0 else 1)
    {
      hide Runs, Fill, Close, FileSteps, Sound, Quote, AfterStep;
      ghost var acc, s := xdata[..size], Emits(K(), c, s_rpt + 1, Unread());
      TurnMeaning(K(), MaxLen(), acc, c, s_rpt + 1, Unread());
      next := TurnEmits(c);
      full := CutIfFull(next, acc, s.head, s.tail);
    }

    /** The packet loop: encodes until the field is full or the file ends. */
    method FillFrom(first: byte, ghost f: Filled) returns (r: int)
      requires Filling(first) && f == Fill(MaxLen(), xdata[..size], After(first))
      modifies this, zinbuf, xdata, s_remain
      ensures Valid()
      ensures r == size && size <= P_PKTLEN
      ensures xdata[..size] == f.data && Remain() == f.rest && Steps() == f.steps
    {
      hide Runs, Fill, FileSteps;
      var c: int := first;
      while s_first > -1
        invariant Filling(c) && f == Fill(MaxLen(), xdata[..size], After(c))
        decreases s_first, |Unread()|
      {
        var full;
        c, full := TurnAndCut(c, f);
        if full {
          return size;
        }
      }
      if size > MaxLen() {
        assert false;
      }
      FillDone(MaxLen(), xdata[..size]);
      return size;
    }

    /** Starts a file: reads its first byte, if it has one. */
    method FirstByte() returns (c: int)
      requires Valid() && s_first == 1
      modifies this, zinbuf, s_remain
      ensures Valid() && left == 0 && cgetpkt == c && Remain() == [] && -1 <= c < 256
      ensures s_first == (if c < 0 then -1 else 0) && (c < 0 ==> size == 0)
      ensures Steps() == old(Steps())
    {
      hide Runs, FileSteps, Sound;
      ghost var unread := Unread();
      StepsOfFirst(K(), unread);
      s_first := 0;
      NoLeftovers();
      c := ZGetC();
      assert c >= 0 ==> unread[0] == c && unread[1..] == Unread();
      cgetpkt := c;
      if c < 0 {
        s_first, size := -1, 0;
      }
    }

    /** Discards old leftovers. */
    method NoLeftovers()
      requires Shape()
      modifies this`left, s_remain
      ensures left == 0 && RemainEnds(0)
    {
      s_remain[0], left := NUL, 0;
    }

    /** Fills the data field with as much of the file as fits. Returns its length, 0 at the
        end of the file. */
    method GetPkt() returns (r: int)
      requires Valid()
      modifies this, zinbuf, xdata, s_remain
      ensures Valid()
      ensures r == size && size <= P_PKTLEN
      ensures var f := Fill(MaxLen(), old(Remain()), old(Steps()));
        xdata[..size] == f.data && Remain() == f.rest && Steps() == f.steps
    {
      hide Runs, Fill, FileSteps, Sound;
      ghost var f := Fill(MaxLen(), Remain(), Steps());
      var c := cgetpkt;
      if s_first == 1 {
        c := FirstByte();
        if c < 0 {
          FillDone(MaxLen(), []);
          return 0;
        }
      } else if s_first == -1 && s_remain[0] == NUL {
        size := 0;
        FillDone(MaxLen(), []);
        return 0;
      }
      CopyLeftovers();
      if s_first == -1 {
        FillDone(MaxLen(), xdata[..size]);
        return size;
      }
      r := FillFrom(c, f);
    }
  }

  lemma StepsOfFirst(k: Codec, unread: seq<byte>)
    ensures FileSteps(k, unread) == if unread == [] then [] else Runs(k, unread[0], 1, unread[1..])
  {
  }

  /** What has been sent so far and what is still to come make up the file's packets. */
  ghost predicate Sent(k: Codec, maxlen: int, file: seq<byte>, packets: seq<seq<byte>>, acc: seq<byte>, steps: seq<Step>) {
    Packets(k, maxlen, file) == packets + Pack(maxlen, acc, steps)
  }

  lemma SentAtFirst(k: Codec, maxlen: int, file: seq<byte>)
    ensures Sent(k, maxlen, file, [], [], FileSteps(k, file))
  {
    var ps := Packets(k, maxlen, file);
    assert [] + ps == ps;
  }

  lemma SentOneMore(k: Codec, maxlen: int, file: seq<byte>, packets: seq<seq<byte>>, acc: seq<byte>, steps: seq<Step>)
    requires Sent(k, maxlen, file, packets, acc, steps)
    ensures var f := Fill(maxlen, acc, steps);
      && (f.data != [] ==> Sent(k, maxlen, file, packets + [f.data], f.rest, f.steps))
      && (f.data != [] ==> |f.steps| < |steps| || (f.steps == steps && |f.rest| < |acc|))
      && (f.data == [] ==> packets == Packets(k, maxlen, file))
  {
    var f := Fill(maxlen, acc, steps);
    FillConsumes(maxlen, acc, steps);
    if f.data != [] {
      var more := Pack(maxlen, f.rest, f.steps);
      assert packets + ([f.data] + more) == packets + [f.data] + more;
    } else {
      assert packets + [] == packets;
    }
  }

  /** Successive calls on a file, until one delivers nothing, deliver exactly its packets. With room
      for the longest step each call's data field is decodable by itself, and decoded one after
      the other they give back the file. */
  method PacketiseFile(p: Packetiser) returns (packets: seq<seq<byte>>)
    requires p.Valid() && p.s_first == 1
    modifies p, p.zinbuf, p.xdata, p.s_remain
    ensures packets == Packets(p.K(), p.MaxLen(), old(p.Unread()))
    ensures Most(p.K()) <= p.MaxLen() ==>
      && DecodeAll(p.K(), packets) == old(p.Unread())
      && forall i :: 0 <= i < |packets| ==> PacketFits(p.K(), p.MaxLen(), packets[i])
  {
    hide Packets, Fill, FileSteps, Sent, DecodeAll, PacketFits;
    ghost var file := p.Unread();
    if Most(p.K()) <= p.MaxLen() {
      PacketsAreFaithful(p.K(), p.MaxLen(), file);
    }
    SentAtFirst(p.K(), p.MaxLen(), file);
    packets := [];
    var len := 1;
    while len > 0
      invariant p.Valid()
      invariant len > 0 ==> Sent(p.K(), p.MaxLen(), file, packets, p.Remain(), p.Steps())
      invariant len <= 0 ==> packets == Packets(p.K(), p.MaxLen(), file)
      decreases len > 0, |p.Steps()|, |p.Remain()|
    {
      SentOneMore(p.K(), p.MaxLen(), file, packets, p.Remain(), p.Steps());
      len := p.GetPkt();
      if len > 0 {
        packets := packets + [p.xdata[..p.size]];
      }
    }
  }
}
