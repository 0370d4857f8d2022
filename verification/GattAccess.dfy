/**
 What the server of stored values refuses, and that no sequence of requests gets around it.
 */
module GattAccess {
  import opened Bytes
  import opened Gatt
  import opened GattLongValue

  // ------------------------------------------------------------------ any sequence of requests

  datatype Request = Prepare(pdu: seq<byte>) | Execute(pdu: seq<byte>)

  function Serve(s: Server, r: Request): Server {
    match r
    case Prepare(pdu) => OnPrepareWrite(s, pdu).server
    case Execute(pdu) => OnExecuteWrite(s, pdu).server
  }

  function ServeAll(s: Server, rs: seq<Request>): Server {
    if rs == [] then s else Serve(ServeAll(s, rs[..|rs| - 1]), rs[|rs| - 1])
  }

  /** Only attributes that exist and may be written stand in the queue. */
  ghost predicate QueueOk(s: Server) {
    forall i :: 0 <= i < |s.queue| ==> s.queue[i].handle in s.db && s.queue[i].handle !in s.noWrite
  }

  /** `t` has the attributes and rights of `s`, and the values that may not be written. */
  ghost predicate Keeps(s: Server, t: Server) {
    && t.db.Keys == s.db.Keys && t.noWrite == s.noWrite && t.noRead == s.noRead && t.reliable == s.reliable && t.limit == s.limit
    && forall h :: h in s.db && h in s.noWrite ==> t.db[h] == s.db[h]
  }

  lemma {:induction false} ExecuteKeeps(s: Server, done: int)
    requires QueueOk(s)
    ensures var a := GattLongValue.Execute(s, done); Keeps(s, a.server) && a.server.queue == [] && a.reply == Rsp([])
    decreases |s.queue|
  {
    hide Written;
    if s.queue != [] {
      var p := s.queue[0];
      var t := s.(db := s.db[p.handle := Written(s.db[p.handle], p.offset, p.value, s.stale)], queue := s.queue[1..]);
      assert t.db.Keys == s.db.Keys;
      assert forall i :: 0 <= i < |t.queue| ==> t.queue[i] == s.queue[i + 1];
      ExecuteKeeps(t, p.handle);
    }
  }

  lemma ServeKeeps(s: Server, r: Request)
    requires QueueOk(s)
    ensures QueueOk(Serve(s, r)) && Keeps(s, Serve(s, r))
  {
    hide Written, Joined;
    match r {
      case Prepare(pdu) =>
      case Execute(pdu) => ExecuteKeeps(s, 0);
    }
  }

  /** Read-only stays read-only: whatever prepared writes and executions a client sends, in whatever
      order, the value of an attribute that may not be written stays as it is, and no write to it
      ever waits in the queue. */
  lemma {:induction false} ReadOnlyStays(s: Server, rs: seq<Request>)
    requires s.queue == []
    ensures var t := ServeAll(s, rs);
      && Keeps(s, t) && QueueOk(t)
      && forall h :: h in s.db && h in s.noWrite ==> t.db[h] == s.db[h] && forall i :: 0 <= i < |t.queue| ==> t.queue[i].handle != h
  {
    if rs != [] {
      ReadOnlyStays(s, rs[..|rs| - 1]);
      ServeKeeps(ServeAll(s, rs[..|rs| - 1]), rs[|rs| - 1]);
    }
  }

  // ------------------------------------------------------------------ one request

  /** Why a prepared write of a well-formed request is refused, if it is. */
  lemma PrepareIsRefusedIff(s: Server, handle: int, offset: nat, data: seq<byte>)
    requires 0 <= handle <= 0xffff && offset <= 0xffff
    ensures var a := OnPrepareWrite(s, Le16(handle) + Le16(offset) + data);
      && (a.reply.Rsp? <==> |s.queue| < s.limit && handle in s.db && handle !in s.noWrite)
      && (a.reply.Rsp? ==> a.reply.pdu == Le16(handle) + Le16(offset) + data)
      && (a.reply.ErrorRsp? ==> a.server == s)
      && (|s.queue| >= s.limit ==> a.reply == ErrorRsp(0, 9))
      && (|s.queue| < s.limit && handle !in s.db ==> a.reply == ErrorRsp(handle, 1))
      && (|s.queue| < s.limit && handle in s.db && handle in s.noWrite ==> a.reply == ErrorRsp(handle, s.noWrite[handle]))
  {
    hide Le16;
    var pdu := Le16(handle) + Le16(offset) + data;
    Le16At([], handle, Le16(offset) + data);
    Le16At(Le16(handle), offset, data);
    assert [] + Le16(handle) + (Le16(offset) + data) == pdu;
  }

  /** Where a piece goes: to the end of the last entry when it is for the same attribute and begins where that
      ends; else it is an entry of its own, at its own offset. No other entry is touched. */
  lemma StoredIsExact(queue: seq<Prep>, handle: int, offset: nat, data: seq<byte>, reliable: bool)
    requires |data| <= 0xffff
    ensures var n, q := |queue|, Stored(queue, handle, offset, data, reliable);
      if n > 0 && queue[n - 1].handle == handle && offset == queue[n - 1].offset + |queue[n - 1].value| then
        && |q| == n && q[..n - 1] == queue[..n - 1]
        && q[n - 1] == queue[n - 1].(value := q[n - 1].value)
        && (|queue[n - 1].value| + |data| <= 0xffff ==> q[n - 1].value == queue[n - 1].value + data)
      else q == queue + [Prep(handle, offset, data, reliable)]
  {
    if |queue| > 0 && |queue[|queue| - 1].value| <= 0xffff {
      JoinedIsWholeIff(queue[|queue| - 1].value, data);
    }
    JoinedIsWholeIff([], data);
    assert [] + data == data;
  }

  /** Requests that are too short, or ask to execute in an unknown way, are refused; the latter empty
      the queue. */
  lemma MalformedIsRefused(s: Server, mtu: nat, pdu: seq<byte>)
    ensures |pdu| < 4 ==> OnPrepareWrite(s, pdu) == Answer(s, ErrorRsp(0, 4))
    ensures |pdu| != 1 || pdu[0] > 1 ==> OnExecuteWrite(s, pdu) == Answer(s.(queue := []), ErrorRsp(0, 4))
    ensures pdu == [0] ==> OnExecuteWrite(s, pdu) == Answer(s.(queue := []), Rsp([]))
    ensures |pdu| != 2 ==> OnRead(s, mtu, pdu, false) == ErrorRsp(0, 4)
    ensures |pdu| != 4 ==> OnRead(s, mtu, pdu, true) == ErrorRsp(0, 4)
  {
  }

  ghost predicate IsFirstUnreliable(queue: seq<Prep>, i: nat) {
    i < |queue| && !queue[i].reliable && forall j :: 0 <= j < i ==> queue[j].reliable
  }

  /** Execution is refused, and nothing is written, exactly when two or more writes wait and one of
      them goes to an attribute without reliable writes; the first of these is named. */
  lemma ExecutionIsRefusedIff(s: Server)
    requires QueueOk(s)
    ensures var a := OnExecuteWrite(s, [1]);
      && (a.reply.ErrorRsp? <==> |s.queue| > 1 && exists i :: 0 <= i < |s.queue| && !s.queue[i].reliable)
      && (a.reply.ErrorRsp? ==> a.server == s.(queue := []) && a.reply.ecode == 6)
      && (a.reply.ErrorRsp? ==> exists i: nat :: IsFirstUnreliable(s.queue, i) && a.reply.handle == s.queue[i].handle)
  {
    hide Written;
    ExecuteKeeps(s, 0);
    var i := FirstUnreliable(s.queue);
    assert i < |s.queue| ==> IsFirstUnreliable(s.queue, i);
  }

  /** The queue's writes, done in order on one value. */
  function WrittenBy(v: seq<byte>, queue: seq<Prep>, handle: int, stale: seq<byte>): seq<byte>
    decreases |queue|
  {
    if queue == [] then v
    else WrittenBy(if queue[0].handle == handle then Written(v, queue[0].offset, queue[0].value, stale) else v, queue[1..], handle, stale)
  }

  /** Otherwise every value becomes what the writes to it make of it, in their order. */
  lemma {:induction false} ExecutionWritesAll(s: Server, done: int, handle: int)
    requires QueueOk(s) && handle in s.db
    ensures var t := GattLongValue.Execute(s, done).server;
      handle in t.db && t.db[handle] == WrittenBy(s.db[handle], s.queue, handle, s.stale)
    decreases |s.queue|
  {
    hide Written;
    if s.queue != [] {
      var p := s.queue[0];
      var t := s.(db := s.db[p.handle := Written(s.db[p.handle], p.offset, p.value, s.stale)], queue := s.queue[1..]);
      assert forall i :: 0 <= i < |t.queue| ==> t.queue[i] == s.queue[i + 1];
      ExecutionWritesAll(t, p.handle, handle);
    }
  }

  // ------------------------------------------------------------------ the client

  /** A long write that the server refuses ends with the reason and changes nothing. */
  lemma LongWriteIsRefused(s: Server, mtu: nat, handle: int, offset: nat, value: seq<byte>, reliable: bool)
    requires 0 <= handle <= MAX_HANDLE && mtu >= MIN_MTU && s.queue == [] && value != [] && |value| + offset <= 0xffff
    requires s.limit == 0 || handle !in s.db || handle in s.noWrite
    ensures LongWrite(s, mtu, handle, offset, value, reliable) ==
      Some(Outcome(s, false, if s.limit == 0 then 9 else if handle !in s.db then 1 else s.noWrite[handle], false))
  {
    hide Le16, OnPrepareWrite, OnExecuteWrite;
    var w := Writing(handle, offset, value, 0, Min(|value|, mtu - 5), reliable);
    PrepareIsRefusedIff(s, handle, offset, value[..w.cur]);
    assert Piece(w) == Le16(handle) + Le16(offset) + value[..w.cur];
    MalformedIsRefused(s, mtu, [0]);
    assert s.(queue := []) == s;
  }

  /** What the client makes of an echo: a reliable write notices every difference and gives up; any
      other write goes on. */
  lemma EchoIsCheckedIff(w: Writing, mtu: nat, pdu: seq<byte>)
    requires w.index + w.cur <= |w.value| && mtu >= MIN_MTU
    ensures OnPrepared(w, mtu, Rsp(pdu)) == Finish(false, 0, true) <==> w.reliable && pdu != Piece(w)
    ensures OnPrepared(w, mtu, Rsp(pdu)).Finish? && !OnPrepared(w, mtu, Rsp(pdu)).write ==> w.reliable && pdu != Piece(w)
  {
  }

  /** What the caller of a long write is told once the queue has been executed or emptied: the server's
      error, or success exactly when it was to be written and the server has nothing to add. */
  lemma OutcomeIsReported(s: Server, write: bool, ecode: int, reliableError: bool, reply: Reply)
    ensures var o := OnExecuted(Finish(write, ecode, reliableError), Answer(s, reply));
      && o.server == s && o.reliableError == reliableError
      && (o.success <==> write && reply == Rsp([]))
      && o.ecode == if reply.ErrorRsp? then reply.ecode else ecode
  {
  }

  /** A read that the server refuses ends with the reason. */
  lemma LongReadIsRefused(s: Server, mtu: nat, handle: int, offset: nat, behind: seq<byte>)
    requires 0 <= handle <= MAX_HANDLE && mtu >= MIN_MTU && offset <= 0xffff && (handle !in s.db || handle in s.noRead)
    ensures LongRead(s, mtu, Reading(handle, offset, []), behind) ==
      Got(false, if handle !in s.db then 1 else s.noRead[handle], [])
  {
    hide ReadPdu;
    ReadPduIsRead(Reading(handle, offset, []));
  }
}
