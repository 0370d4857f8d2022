/**
 The byte queue between the protocol engine and the radio, and the loop that drains it in
 chunks the radio can carry.
 */
module MldpFifo {
  import opened Bytes

  const MAX_DATA_LEN := 20

  /** Both queues hold this many bytes, and call themselves full at this many. */
  const BUFF_SIZE := 4096

  // ------------------------------------------------------------------ the queue

  /** A buffer that always starts at its first cell. One cell more than the queue can hold is
      kept, because taking a byte out copies the cell behind the last one. */
  class Fifo {
    const buff: array<byte>
    const size: nat
    var writePos: nat

    ghost predicate Valid()
      reads this, buff
    {
      buff.Length == size + 1 && writePos <= size
    }

    ghost function Contents(): (s: seq<byte>)
      requires Valid()
      reads this, buff
      ensures |s| == writePos
    {
      buff[..writePos]
    }

    constructor (n: nat)
      requires n >= 1
      ensures Valid() && Contents() == [] && size == n && fresh(buff)
    {
      buff := new byte[n + 1](i => 0);
      size, writePos := n, 0;
    }

    /** Puts one byte in, unless the queue is full. */
    method Put(b: byte) returns (ok: bool)
      requires Valid()
      modifies this`writePos, buff
      ensures Valid() && ok == (|old(Contents())| < size)
      ensures Contents() == if ok then old(Contents()) + [b] else old(Contents())
    {
      ok := writePos <= size - 1;
      if ok {
        buff[writePos] := b;
        writePos := writePos + 1;
      }
    }

    /** Moves everything one cell to the front. */
    method Shift()
      requires Valid() && writePos > 0
      modifies this`writePos, buff
      ensures Valid() && Contents() == old(Contents())[1..]
    {
      var len, readPos := writePos, 0;
      while readPos < len
        invariant 0 <= readPos <= len && writePos == len
        invariant forall i :: 0 <= i < readPos ==> buff[i] == old(buff[i + 1])
        invariant forall i :: readPos <= i < buff.Length ==> buff[i] == old(buff[i])
      {
        buff[readPos] := buff[readPos + 1];
        readPos := readPos + 1;
      }
      writePos := writePos - 1;
    }

    /** Takes one byte out. */
    method Get() returns (b: Option<byte>)
      requires Valid()
      modifies this`writePos, buff
      ensures Valid()
      ensures var s := old(Contents());
        if s == [] then b == None && Contents() == s else b == Some(s[0]) && Contents() == s[1..]
    {
      if writePos == 0 {
        return None;
      }
      b := Some(buff[0]);
      Shift();
    }

    /** Takes up to `n` bytes out, into the front of `out`. */
    method Read(out: array<byte>, n: nat) returns (count: nat)
      requires Valid() && n <= out.Length && out != buff
      modifies this`writePos, buff, out
      ensures Valid() && count == (if n < |old(Contents())| then n else |old(Contents())|)
      ensures out[..count] == old(Contents())[..count] && Contents() == old(Contents())[count..]
    {
      count := if n < writePos then n else writePos;
      ghost var s := Contents();
      var i := 0;
      while i < count
        invariant 0 <= i <= count && Valid() && Contents() == s[i..] && out[..i] == s[..i]
      {
        var b := Get();
        out[i] := b.value;
        i := i + 1;
      }
    }

    /** Puts in as many bytes as there is room for. */
    method Write(data: seq<byte>) returns (ok: bool, count: nat)
      requires Valid()
      modifies this`writePos, buff
      ensures Valid() && ok == (|old(Contents())| != BUFF_SIZE)
      ensures var room := size - |old(Contents())|;
        count == if ok then (if |data| < room then |data| else room) else room
      ensures Contents() == if ok then old(Contents()) + data[..count] else old(Contents())
    {
      var room := size - writePos;
      count := room;
      if writePos == BUFF_SIZE {
        return false, count;
      }
      ok := true;
      count := if |data| < room then |data| else room;
      ghost var s := Contents();
      var i := 0;
      while i < count
        invariant 0 <= i <= count && Valid() && Contents() == s + data[..i]
      {
        var put := Put(data[i]);
        i := i + 1;
      }
    }

    method Flush()
      requires Valid()
      modifies this`writePos
      ensures Valid() && Contents() == []
    {
      writePos := 0;
    }
  }

  // ------------------------------------------------------------------ sending

  /** Whether the `k`-th write to the radio succeeds. */
  type Radio = nat -> bool

  /** What a drain does with `data` when `k` writes have been made and the current chunk has
      failed `fails` times: the chunks sent, the bytes left in the queue, and the number of writes
      made in the end. A chunk is given up with its fourth failure. */
  datatype Drain = Drain(sent: seq<seq<byte>>, left: seq<byte>, complete: bool, writes: nat)

  function ChunkOf(data: seq<byte>): (c: seq<byte>)
    ensures c <= data && |c| <= MAX_DATA_LEN && (data != [] ==> |c| > 0)
  {
    if |data| < MAX_DATA_LEN then data else data[..MAX_DATA_LEN]
  }

  lemma ChunkIs(data: seq<byte>)
    ensures ChunkOf(data) == data[..if |data| < MAX_DATA_LEN then |data| else MAX_DATA_LEN]
  {
  }

  function DrainFrom(data: seq<byte>, radio: Radio, k: nat, fails: nat): Drain
    requires fails <= 3
    decreases |data|, 3 - fails
  {
    if data == [] then Drain([], [], true, k)
    else
      var c := ChunkOf(data);
      if radio(k) then
        var d := DrainFrom(data[|c|..], radio, k + 1, 0);
        d.(sent := [c] + d.sent)
      else if fails == 3 then Drain([], data[|c|..], false, k + 1)
      else DrainFrom(data, radio, k + 1, fails + 1)
  }

  /** Four writes in a row fail from the `k`-th on. */
  predicate FourFail(radio: Radio, k: nat) { !radio(k) && !radio(k + 1) && !radio(k + 2) && !radio(k + 3) }

  /** Did four writes in a row fail, from the `first` on and among those made? */
  ghost predicate FailedInARow(radio: Radio, first: int, writes: nat) {
    exists m: nat :: first <= m && m + 4 <= writes && FourFail(radio, m)
  }

  /** The chunks sent fit the radio and join to a prefix of the data, without loss or repetition.
      All of it is sent exactly when no four writes in a row failed, from the `first` on;
      otherwise exactly one chunk is lost and the rest stays in the queue. */
  ghost predicate GoodDrain(d: Drain, data: seq<byte>, radio: Radio, first: int) {
    && (forall i :: 0 <= i < |d.sent| ==> 1 <= |d.sent[i]| <= MAX_DATA_LEN)
    && Flatten(d.sent) <= data
    && (d.complete <==> !FailedInARow(radio, first, d.writes))
    && (d.complete ==> Flatten(d.sent) == data && d.left == [])
    && (!d.complete ==>
          |Flatten(d.sent)| < |data| && Flatten(d.sent) + ChunkOf(data[|Flatten(d.sent)|..]) + d.left == data)
  }

  lemma OneMoreChunk(d: Drain, c: seq<byte>, rest: seq<byte>, radio: Radio, first: int, k: nat)
    requires GoodDrain(d, rest, radio, k + 1) && 1 <= |c| <= MAX_DATA_LEN && k - 3 <= first <= k && radio(k)
    ensures GoodDrain(Drain([c] + d.sent, d.left, d.complete, d.writes), c + rest, radio, first)
  {
    hide ChunkOf;
    var s := Flatten(d.sent);
    assert ([c] + d.sent)[1..] == d.sent;
    assert (c + rest)[|c + s|..] == rest[|s|..];
    assert !d.complete ==> c + s + ChunkOf(rest[|s|..]) + d.left == c + (s + ChunkOf(rest[|s|..]) + d.left);
    assert forall m: nat :: first <= m <= k ==> !FourFail(radio, m);
  }

  lemma GivenUp(data: seq<byte>, radio: Radio, k: nat)
    requires data != [] && k >= 3 && FourFail(radio, k - 3)
    ensures GoodDrain(Drain([], data[|ChunkOf(data)|..], false, k + 1), data, radio, k - 3)
  {
    assert data[0..] == data && [] + ChunkOf(data) + data[|ChunkOf(data)|..] == data;
  }

  lemma NothingDrained(radio: Radio, k: nat, fails: nat)
    requires fails <= 3
    ensures GoodDrain(Drain([], [], true, k), [], radio, k - fails)
  {
  }

  /** Every drain is good. */
  lemma {:induction false} DrainIsPrefix(data: seq<byte>, radio: Radio, k: nat, fails: nat)
    requires fails <= 3 && fails <= k && forall i :: k - fails <= i < k ==> !radio(i)
    ensures GoodDrain(DrainFrom(data, radio, k, fails), data, radio, k - fails)
    decreases |data|, 3 - fails
  {
    hide DrainFrom, GoodDrain, ChunkOf;
    if data == [] {
      DrainOfNone(radio, k, fails);
      NothingDrained(radio, k, fails);
    } else {
      DrainUnfolds(data, radio, k, fails);
      var c := ChunkOf(data);
      var rest := data[|c|..];
      assert c + rest == data;
      if radio(k) {
        DrainIsPrefix(rest, radio, k + 1, 0);
        OneMoreChunk(DrainFrom(rest, radio, k + 1, 0), c, rest, radio, k - fails, k);
      } else if fails == 3 {
        GivenUp(data, radio, k);
      } else {
        DrainIsPrefix(data, radio, k + 1, fails + 1);
      }
    }
  }

  lemma DrainOfNone(radio: Radio, k: nat, fails: nat)
    requires fails <= 3
    ensures DrainFrom([], radio, k, fails) == Drain([], [], true, k)
  {
  }

  lemma DrainUnfolds(data: seq<byte>, radio: Radio, k: nat, fails: nat)
    requires data != [] && fails <= 3
    ensures var c, d := ChunkOf(data), DrainFrom(data, radio, k, fails);
      if radio(k) then var r := DrainFrom(data[|c|..], radio, k + 1, 0); d == Drain([c] + r.sent, r.left, r.complete, r.writes)
      else if fails == 3 then d == Drain([], data[|c|..], false, k + 1)
      else d == DrainFrom(data, radio, k + 1, fails + 1)
  {
  }

  /** Everything is sent exactly when no four of the writes made failed in a row. */
  lemma DrainsAllIff(data: seq<byte>, radio: Radio)
    ensures var d := DrainFrom(data, radio, 0, 0);
      && (Flatten(d.sent) == data <==> !FailedInARow(radio, 0, d.writes))
      && (Flatten(d.sent) == data ==> d.left == [])
  {
    DrainIsPrefix(data, radio, 0, 0);
  }

  /** No chunk but the last is short: a drain that sends everything uses as few as there can be. */
  lemma {:induction false} ChunksAreFull(data: seq<byte>, radio: Radio, k: nat, fails: nat)
    requires fails <= 3
    ensures var d := DrainFrom(data, radio, k, fails);
      && (forall i :: 0 <= i < |d.sent| - 1 ==> |d.sent[i]| == 20)
      && (|d.sent| > 0 && !d.complete ==> |d.sent[|d.sent| - 1]| == 20)
      && (d.complete ==> |d.sent| == (|data| + 19) / 20)
    decreases |data|, 3 - fails
  {
    if data != [] {
      DrainUnfolds(data, radio, k, fails);
      hide DrainFrom;
      var c := ChunkOf(data);
      if radio(k) {
        ChunksAreFull(data[|c|..], radio, k + 1, 0);
        if |data| <= 20 {
          DrainOfNone(radio, k + 1, 0);
          assert data[|c|..] == [];
        }
      } else if fails < 3 {
        ChunksAreFull(data, radio, k + 1, fails + 1);
      }
    }
  }

  /** The transmit loop. */
  method TxFifoSendBytes(tx: Fifo, dataArray: array<byte>, radio: Radio) returns (ok: bool, sent: seq<seq<byte>>)
    requires tx.Valid() && dataArray.Length == MAX_DATA_LEN && dataArray != tx.buff
    modifies tx`writePos, tx.buff, dataArray
    ensures tx.Valid() && ok
    ensures var d := DrainFrom(old(tx.Contents()), radio, 0, 0); sent == d.sent && tx.Contents() == d.left
  {
    hide DrainFrom, ChunkOf;
    var readable: nat := tx.writePos;
    sent, ok := [], true;
    ghost var data := tx.Contents();
    ghost var whole := DrainFrom(data, radio, 0, 0);
    DrainOfNone(radio, 0, 0);
    if readable == 0 {
      return;
    }
    var calls: nat, repeatOnError: nat := 0, 0;
    while readable != 0
      invariant tx.Valid() && readable == |data| && repeatOnError <= 3
      invariant repeatOnError == 0 ==> tx.Contents() == data
      invariant repeatOnError > 0 ==> data != [] && dataArray[..|ChunkOf(data)|] == ChunkOf(data)
      invariant repeatOnError > 0 ==> tx.Contents() == data[|ChunkOf(data)|..]
      invariant whole.sent == sent + DrainFrom(data, radio, calls, repeatOnError).sent
      invariant whole.left == DrainFrom(data, radio, calls, repeatOnError).left
      decreases readable, 3 - repeatOnError
    {
      var length := if readable < MAX_DATA_LEN then readable else MAX_DATA_LEN;
      var lengthToSend := length;
      if repeatOnError == 0 {
        length := tx.Read(dataArray, length);
        if length != lengthToSend {
          assert false;
        }
      }
      ChunkIs(data);
      assert dataArray[..length] == ChunkOf(data) && tx.Contents() == data[length..];
      DrainUnfolds(data, radio, calls, repeatOnError);
      calls := calls + 1;
      if !radio(calls - 1) {
        if repeatOnError >= 3 {
          assert sent + [] == sent;
          return;
        }
        repeatOnError := repeatOnError + 1;
      } else {
        ghost var rest := DrainFrom(data[length..], radio, calls, 0).sent;
        assert sent + ([ChunkOf(data)] + rest) == sent + [ChunkOf(data)] + rest;
        sent := sent + [dataArray[..length]];
        repeatOnError := 0;
        readable := readable - length;
        data := data[length..];
      }
    }
    DrainOfNone(radio, calls, repeatOnError);
    assert sent + [] == sent;
  }
}
