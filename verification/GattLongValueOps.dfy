/**
 Long values as the program handles them: the stored value that grows in place, the server's
 prepare queue, and the client's operation objects, each proved against module GattLongValue.
 */
module GattLongValueOps {
  import opened Bytes
  import opened Gatt
  import opened GattLongValue

  // ------------------------------------------------------------------ the stored value

  class StoredValue {
    var value: array<byte>
    var valueLen: nat

    ghost predicate Valid()
      reads this
    {
      valueLen <= value.Length
    }

    ghost function Contents(): seq<byte>
      reads this, value
      requires Valid()
    {
      value[..valueLen]
    }

    /** What memory holds from the buffer's start on, `stale` behind it. */
    ghost function Seen(stale: seq<byte>): seq<byte>
      reads this, value
    {
      value[..] + if |stale| > value.Length then stale[value.Length..] else []
    }

    constructor ()
      ensures Valid() && Contents() == [] && fresh(value)
    {
      value, valueLen := new byte[0], 0;
    }

    /** Writes `data` at `offset`, growing the value when it does not fit. Its length is a 16-bit
        number. */
    method Write(offset: nat, data: seq<byte>, stale: seq<byte>)
      requires Valid()
      modifies this, value
      ensures Valid() && (value == old(value) || fresh(value))
      ensures Contents() == Written(old(Contents()), offset, data, old(Seen(stale)))
    {
      if data == [] {
        return;
      }
      ghost var was, seen := Contents(), Seen(stale);
      var n := offset + |data|;
      if valueLen == 0 || offset >= valueLen || |data| > valueLen - offset {
        var buf := Realloc(value, n, stale);
        if valueLen == 0 {
          ZeroFill(buf, offset);
        }
        value, valueLen := buf, n % 0x10000;
        assert value[..offset] == Grown(was, offset, seen);
        assert n > |was|;
        Memcpy(value, offset, data);
        assert value[..] == Grown(was, offset, seen) + data;
        return;
      }
      Memcpy(value, offset, data);
      assert value[..valueLen] == was[..offset] + data + was[n..];
    }
  }

  method Memcpy(a: array<byte>, offset: nat, data: seq<byte>)
    requires offset + |data| <= a.Length
    modifies a
    ensures a[..] == old(a[..offset]) + data + old(a[offset + |data|..])
  {
    var i := 0;
    while i < |data|
      invariant 0 <= i <= |data|
      invariant a[..offset] == old(a[..offset]) && a[offset..offset + i] == data[..i]
      invariant a[offset + i..] == old(a[offset + i..])
    {
      a[offset + i] := data[i];
      i := i + 1;
    }
  }

  /** Memory of another size with the same contents as far as they reach. */
  method Realloc(a: array<byte>, n: nat, stale: seq<byte>) returns (b: array<byte>)
    ensures fresh(b) && b.Length == n
    ensures forall i :: 0 <= i < n ==> b[i] == if i < a.Length then a[i] else StaleByte(stale, i)
  {
    b := new byte[n](i => StaleByte(stale, i));
    var i := 0;
    while i < a.Length && i < n
      invariant 0 <= i <= a.Length && i <= n
      invariant forall j :: 0 <= j < n ==> b[j] == if j < i then a[j] else StaleByte(stale, j)
    {
      b[i] := a[i];
      i := i + 1;
    }
  }

  method ZeroFill(a: array<byte>, n: nat)
    requires n <= a.Length
    modifies a
    ensures a[..] == seq(n, i => 0) + old(a[n..])
  {
    var i := 0;
    while i < n
      invariant 0 <= i <= n
      invariant forall j :: 0 <= j < i ==> a[j] == 0
      invariant a[i..] == old(a[i..])
    {
      a[i] := 0;
      i := i + 1;
    }
  }

  // ------------------------------------------------------------------ the server's queue

  class PrepareQueue {
    var db: map<int, seq<byte>>
    var queue: seq<Prep>
    const limit: nat
    const reliable: set<int>
    const noWrite: map<int, int>
    const noRead: map<int, int>
    const stale: seq<byte>

    constructor (s: Server)
      ensures Value() == s
    {
      db, queue, limit, reliable, noWrite, noRead, stale := s.db, s.queue, s.limit, s.reliable, s.noWrite, s.noRead, s.stale;
    }

    function Value(): Server
      reads this
    {
      Server(db, queue, limit, reliable, noWrite, noRead, stale)
    }

    /** Appends a piece to a value; the length is a 16-bit number. */
    static method AppendPrepData(value: seq<byte>, data: seq<byte>) returns (v: seq<byte>)
      ensures v == Joined(value, data)
    {
      if |data| == 0 {
        return value;
      }
      var len := (|value| + |data|) % 0x10000;
      v := (value + data)[..len];
    }

    /** Joins a piece to the last entry of the queue, or makes a new entry. */
    method StorePrepData(handle: int, offset: nat, data: seq<byte>)
      modifies this`queue
      ensures queue == Stored(old(queue), handle, offset, data, handle in reliable)
    {
      if queue != [] {
        var n := |queue| - 1;
        var tail := queue[n];
        if tail.handle == handle && offset == |tail.value| + tail.offset {
          var joined := AppendPrepData(tail.value, data);
          queue := queue[n := tail.(value := joined)];
          return;
        }
      }
      var value := AppendPrepData([], data);
      queue := queue + [Prep(handle, offset, value, handle in reliable)];
    }

    method PrepWriteCb(pdu: seq<byte>) returns (reply: Reply)
      modifies this`queue
      ensures var a := OnPrepareWrite(old(Value()), pdu); Value() == a.server && reply == a.reply
    {
      if |pdu| < 4 {
        return ErrorRsp(0, INVALID_PDU);
      }
      if |queue| >= limit {
        return ErrorRsp(0, PREPARE_QUEUE_FULL);
      }
      var handle, offset := GetLe16(pdu, 0), GetLe16(pdu, 2);
      if handle !in db {
        return ErrorRsp(handle, INVALID_HANDLE);
      }
      if handle in noWrite {
        return ErrorRsp(handle, noWrite[handle]);
      }
      StorePrepData(handle, offset, pdu[4..]);
      return Rsp(pdu);
    }

    method FindUnreliable() returns (i: nat)
      ensures i == FirstUnreliable(queue)
    {
      i := 0;
      while i < |queue| && queue[i].reliable
        invariant i <= |queue| && FirstUnreliable(queue) == i + FirstUnreliable(queue[i..])
      {
        assert queue[i..][1..] == queue[i + 1..];
        i := i + 1;
      }
    }

    /** Writes the entries of the queue one after the other, from the head. */
    method ExecPrepWrites() returns (reply: Reply)
      modifies this`db, this`queue
      ensures var a := Execute(old(Value()), 0); Value() == a.server && reply == a.reply
    {
      hide Written;
      var ehandle := 0;
      ghost var before := Value();
      while queue != []
        invariant Execute(Value(), ehandle) == Execute(before, 0)
        decreases |queue|
      {
        var next := queue[0];
        if next.handle !in db {
          queue := [];
          return ErrorRsp(ehandle, UNLIKELY);
        }
        db := db[next.handle := Written(db[next.handle], next.offset, next.value, stale)];
        queue := queue[1..];
        ehandle := next.handle;
      }
      return Rsp([]);
    }

    method ExecWriteCb(pdu: seq<byte>) returns (reply: Reply)
      modifies this`db, this`queue
      ensures var a := OnExecuteWrite(old(Value()), pdu); Value() == a.server && reply == a.reply
    {
      if |pdu| != 1 {
        queue := [];
        return ErrorRsp(0, INVALID_PDU);
      }
      if pdu[0] == 0 {
        queue := [];
        return Rsp([]);
      }
      if pdu[0] != 1 {
        queue := [];
        return ErrorRsp(0, INVALID_PDU);
      }
      if |queue| > 1 {
        var i := FindUnreliable();
        if i < |queue| {
          reply := ErrorRsp(queue[i].handle, REQUEST_NOT_SUPPORTED);
          queue := [];
          return;
        }
      }
      reply := ExecPrepWrites();
    }
  }

  // ------------------------------------------------------------------ the client's operations

  class LongWriteOp {
    const handle: int
    const offset: nat
    const value: seq<byte>
    const reliable: bool
    var index: nat
    var curLength: nat

    function Value(): Writing
      reads this
    {
      Writing(handle, offset, value, index, curLength, reliable)
    }

    constructor (h: int, o: nat, v: seq<byte>, mtu: nat, rel: bool)
      requires mtu >= MIN_MTU && 0 <= h <= MAX_HANDLE && o + |v| <= 0xffff
      ensures Value() == Writing(h, o, v, 0, Min(|v|, mtu - 5), rel) && ValidWriting(Value())
    {
      handle, offset, value, reliable := h, o, v, rel;
      index, curLength := 0, Min(|v|, mtu - 5);
    }

    /** The response to a piece: sends the next one, or ends with the Execute request. */
    method PrepareWriteCb(mtu: nat, reply: Reply) returns (piece: Option<seq<byte>>, write: bool, ecode: int, reliableError: bool)
      requires ValidWriting(Value()) && mtu >= MIN_MTU
      modifies this`index, this`curLength
      ensures ValidWriting(Value())
      ensures match old(OnPrepared(Value(), mtu, reply))
        case Next(w) => Value() == w && piece == Some(Piece(w))
        case Finish(f, e, r) => Value() == old(Value()) && piece == None && write == f && ecode == e && reliableError == r
    {
      piece, write, ecode, reliableError := None, true, 0, false;
      if reply.ErrorRsp? {
        return None, false, reply.ecode, false;
      }
      var pdu := reply.pdu;
      if reliable {
        if |pdu| != curLength + 4 {
          return None, false, 0, true;
        }
        PieceParts(Value(), pdu);
        if GetLe16(pdu, 0) != handle || GetLe16(pdu, 2) != offset + index {
          return None, false, 0, true;
        }
        if pdu[4..] != value[index..index + curLength] {
          return None, false, 0, true;
        }
      }
      var nextIndex := index + curLength;
      if nextIndex == |value| {
        return;
      }
      if curLength >= mtu - 5 {
        index := nextIndex;
        curLength := Min(|value| - index, mtu - 5);
        piece := Some(Le16(handle) + Le16(offset + index) + value[index..index + curLength]);
      }
    }
  }

  /** A response repeats a piece exactly when handle, offset and data are repeated. */
  lemma PieceParts(w: Writing, pdu: seq<byte>)
    requires ValidWriting(w) && |pdu| == w.cur + 4
    ensures pdu == Piece(w) <==>
      GetLe16(pdu, 0) == w.handle && GetLe16(pdu, 2) == w.offset + w.index && pdu[4..] == w.value[w.index..w.index + w.cur]
  {
    PieceIsRead(w);
    if GetLe16(pdu, 0) == w.handle && GetLe16(pdu, 2) == w.offset + w.index {
      assert pdu == Le16(w.handle) + Le16(w.offset + w.index) + pdu[4..];
    }
  }

  class LongReadOp {
    const handle: int
    var offset: nat
    var iov: seq<byte>

    function Value(): Reading
      reads this
    {
      Reading(handle, offset, iov)
    }

    constructor (h: int, o: nat)
      ensures Value() == Reading(h, o, [])
    {
      handle, offset, iov := h, o, [];
    }

    /** Appends a chunk, cut off where the value would become too long. Lengths and offsets are
        16-bit numbers; `behind` is the memory behind the chunk. */
    method AppendChunk(data: seq<byte>, behind: seq<byte>)
      modifies this
      ensures var n := KeptLength(old(offset), |data|);
        iov == old(iov) + Memory(data, behind, n) && offset == (old(offset) + n) % 0x10000
    {
      var len := |data|;
      if offset + len > MAX_VALUE_LEN {
        len := (MAX_VALUE_LEN - offset) % 0x10000;
      }
      iov := iov + Memory(data, behind, len);
      offset := (offset + len) % 0x10000;
    }

    /** The response to a read: asks for more, or ends with what the callback is told. */
    method ReadLongCb(mtu: nat, reply: Reply, behind: seq<byte>) returns (more: Option<seq<byte>>, success: bool, ecode: int)
      requires mtu >= 1
      modifies this
      ensures match old(OnReadRsp(Value(), mtu, reply, behind))
        case More(r) => Value() == r && more == Some(Le16(handle) + Le16(offset))
        case Got(ok, e, data) => iov == data && more == None && success == ok && ecode == e
    {
      more, success, ecode := None, true, 0;
      if reply.ErrorRsp? {
        return None, false, reply.ecode;
      }
      var pdu := reply.pdu;
      if |pdu| == 0 {
        return;
      }
      AppendChunk(pdu, behind);
      if offset >= MAX_VALUE_LEN {
        return;
      }
      if |pdu| >= mtu - 1 {
        more := Some(Le16(handle) + Le16(offset));
      }
    }
  }
}
