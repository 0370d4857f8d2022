/** The receiver's decoding of a data field into the output file's buffer. */
module KermitDecoder {
  import opened Bytes
  import opened KermitBytes
  import opened KermitCodec
  import opened KermitPackets

  lemma MemoryUnfolds(k: Codec, m: seq<byte>)
    ensures m == [] ==> DecodeMemory(k, m).None?
    ensures m != [] && m[0] == NUL ==> DecodeMemory(k, m) == Some([])
    ensures m != [] && m[0] != NUL && DecodeMemory(k, m).Some? ==>
      var it := ReadItem(k, m);
      && it.Item? && DecodeMemory(k, m[it.size..]).Some?
      && DecodeMemory(k, m).value == Copies(it.ch, it.count) + DecodeMemory(k, m[it.size..]).value
  {
  }

  /** The output file and its buffer. A full buffer is written out at once. */
  class OutputFile {
    const obuf: array<byte>
    var obufpos: nat
    var written: seq<byte>

    constructor (buflen: nat)
      requires 0 < buflen
      ensures Valid() && fresh(obuf) && Contents() == []
    {
      obuf := new byte[buflen];
      obufpos, written := 0, [];
    }

    ghost predicate Valid()
      reads this
    {
      obufpos < obuf.Length
    }

    /** Everything deposited so far, in the file or still in the buffer. */
    ghost function Contents(): seq<byte>
      reads this, obuf
      requires Valid()
    {
      written + obuf[..obufpos]
    }

    method Deposit(a: byte)
      requires Valid()
      modifies this, obuf
      ensures Valid() && Contents() == old(Contents()) + [a]
    {
      ghost var before := Contents();
      obuf[obufpos] := a;
      obufpos := obufpos + 1;
      assert written + obuf[..obufpos] == before + [a];
      if obufpos == obuf.Length {
        written := written + obuf[..];
        obufpos := 0;
        assert obuf[..] == obuf[..obuf.Length];
        assert Contents() == written;
      }
    }

    /** Deposits `rpt` copies of one byte. */
    method DepositRun(a: byte, rpt: nat)
      requires Valid()
      modifies this, obuf
      ensures Valid() && Contents() == old(Contents()) + Copies(a, rpt)
    {
      var left := rpt;
      ghost var before, done := Contents(), 0;
      assert Copies(a, 0) == [] && before + [] == before;
      while left > 0
        invariant 0 <= left <= rpt && done == rpt - left && Valid() && Contents() == before + Copies(a, done)
      {
        Deposit(a);
        left := left - 1;
        assert Copies(a, done) + [a] == Copies(a, done + 1);
        assert before + Copies(a, done) + [a] == before + (Copies(a, done) + [a]);
        done := done + 1;
      }
    }

    /** Writes out what is left in the buffer. */
    method Flush()
      requires Valid()
      modifies this
      ensures Valid() && obufpos == 0 && written == old(Contents()) && Contents() == old(Contents())
    {
      if obufpos > 0 {
        written := written + obuf[..obufpos];
        obufpos := 0;
      }
      assert obuf[..0] == [] && written + [] == written;
    }

    /** Decodes the NUL-terminated data field at `inbuf[start..]`. The bytes after the
        terminator are whatever the buffer held before. */
    method Decode(k: Codec, inbuf: array<byte>, start: nat)
      requires Valid() && start <= inbuf.Length && inbuf != obuf
      requires DecodeMemory(k, inbuf[start..]).Some?
      modifies this, obuf
      ensures Valid()
      ensures Contents() == old(Contents()) + DecodeMemory(k, inbuf[start..]).value
    {
      hide ReadItem, Copies, DecodeMemory;
      MemoryUnfolds(k, inbuf[start..]);
      ghost var all, before := DecodeMemory(k, inbuf[start..]).value, Contents();
      ghost var done: seq<byte> := [];
      assert [] + all == all && before + [] == before;
      var p := start;
      while inbuf[p] != NUL
        invariant start <= p < inbuf.Length && Valid() && unchanged(inbuf)
        invariant DecodeMemory(k, inbuf[p..]).Some? && all == done + DecodeMemory(k, inbuf[p..]).value
        invariant Contents() == before + done
        decreases inbuf.Length - p
      {
        ghost var m, last := inbuf[p..], p;
        MemoryUnfolds(k, m);
        var a, rpt;
        p, a, rpt := ReadFrom(k, inbuf, p);
        assert m[p - last..] == inbuf[p..];
        MemoryUnfolds(k, inbuf[p..]);
        DepositRun(a, rpt);
        assert done + (Copies(a, rpt) + DecodeMemory(k, inbuf[p..]).value) == done + Copies(a, rpt) + DecodeMemory(k, inbuf[p..]).value;
        assert before + done + Copies(a, rpt) == before + (done + Copies(a, rpt));
        done := done + Copies(a, rpt);
      }
      MemoryUnfolds(k, inbuf[p..]);
      assert done + [] == done;
    }
  }

  /** Reads one item of a data field: repeat prefix and count, control prefix, character. */
  method ReadFrom(k: Codec, inbuf: array<byte>, start: nat) returns (p: nat, a: byte, rpt: nat)
    requires start < inbuf.Length && ReadItem(k, inbuf[start..]).Item?
    ensures start < p <= inbuf.Length && ReadItem(k, inbuf[start..]) == Item(rpt, a, p - start)
  {
    p := start;
    a := inbuf[p];
    p := p + 1;
    rpt := 0;
    if k.repeats && a == k.rptq {
      rpt := UnRepeat(inbuf[p]);
      a := inbuf[p + 1];
      p := p + 2;
    }
    if a == PREFIX_CTRL {
      a := inbuf[p];
      p := p + 1;
      var low := a % 128;
      if low == Ctl(PACKET_END) || low == Ctl(PACKET_START) || low == Ctl(NUL) {
        a := Ctl(a);
      }
    }
    if rpt == 0 {
      rpt := 1;
    }
  }

  /** A packet's data field, left in a buffer with a terminator, is decoded to the bytes it
      stands for. */
  method DecodePacket(k: Codec, inbuf: array<byte>, ghost data: seq<byte>, out: OutputFile)
    requires out.Valid() && inbuf != out.obuf
    requires Whole(k, data) && NUL !in data && data + [NUL] <= inbuf[..]
    modifies out, out.obuf
    ensures out.Valid() && out.Contents() == old(out.Contents()) + Out(k, data)
  {
    ghost var stale := inbuf[|data| + 1..];
    assert inbuf[0..] == data + [NUL] + stale;
    DecodeIgnoresStaleBytes(k, data, stale);
    out.Decode(k, inbuf, 0);
  }
}
