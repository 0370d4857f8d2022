/**
 Long writes and long reads: the client cuts a value into prepared writes that fit the MTU,
 the server puts the pieces together again and executes them, and a chain of reads brings the
 value back.
 */
module GattLongValue {
  import opened Bytes
  import opened Gatt

  // ------------------------------------------------------------------ a stored value

  /** Byte `i` of memory that has been allocated but not written. */
  function StaleByte(stale: seq<byte>, i: nat): byte { if i < |stale| then stale[i] else 0 }

  /** What a value of `len` bytes looks like after growing to `n` bytes: a value that was empty
      is filled with zeros, any other shows what the allocator left there. */
  function Grown(was: seq<byte>, n: nat, stale: seq<byte>): (v: seq<byte>)
    ensures |v| == n
  {
    seq(n, i requires 0 <= i < n => if i < |was| then was[i] else if was == [] then 0 else StaleByte(stale, i))
  }

  /** One write into a stored value. The length of a value is a 16-bit number. */
  function Written(was: seq<byte>, offset: nat, data: seq<byte>, stale: seq<byte>): seq<byte> {
    if data == [] then was
    else if offset + |data| > |was| then
      var v := Grown(was, offset, stale) + data;
      v[..|v| % 0x10000]
    else was[..offset] + data + was[offset + |data|..]
  }

  /** What a write is for: the value ends where it should, holds the data, keeps everything else,
      and a gap before the data reads as zeros when there was no value. */
  ghost predicate IsWritten(was: seq<byte>, offset: nat, data: seq<byte>, v: seq<byte>) {
    && |v| == (if |was| > offset + |data| then |was| else offset + |data|)
    && v[offset..offset + |data|] == data
    && (forall i :: 0 <= i < |was| && !(offset <= i < offset + |data|) ==> v[i] == was[i])
    && (was == [] ==> forall i :: 0 <= i < offset ==> v[i] == 0)
  }

  /** That is what it does exactly when the value fits 16 bits or need not grow. */
  lemma WrittenAtIff(was: seq<byte>, offset: nat, data: seq<byte>, stale: seq<byte>)
    requires data != []
    ensures IsWritten(was, offset, data, Written(was, offset, data, stale)) <==> offset + |data| <= 0xffff || offset + |data| <= |was|
  {
    var n, v := offset + |data|, Written(was, offset, data, stale);
    if n > |was| {
      var grown := Grown(was, offset, stale);
      if n <= 0xffff {
        assert n % 0x10000 == n;
        assert v == grown + data;
        assert v[offset..n] == data;
      }
    } else {
      assert v == was[..offset] + data + was[n..];
      assert v[offset..n] == data;
    }
  }

  /** One byte written behind the last offset there is: the value is empty afterwards. */
  lemma WriteWrapsAround(stale: seq<byte>)
    ensures Written([], 0xffff, [7], stale) == [] && !IsWritten([], 0xffff, [7], Written([], 0xffff, [7], stale))
  {
    WrittenAtIff([], 0xffff, [7], stale);
  }

  lemma GapShows(was: seq<byte>, offset: nat, data: seq<byte>, s: seq<byte>, b: byte)
    requires was != [] && data != [] && |was| < offset && |was| < (offset + |data|) % 0x10000
    requires |s| == offset && forall i :: 0 <= i < offset ==> s[i] == b
    ensures |Written(was, offset, data, s)| > |was| && Written(was, offset, data, s)[|was|] == b
  {
  }

  /** The result does not depend on what the allocator left exactly when the write leaves no
      gap behind a value that was not empty, or the length wraps around to within that value. */
  lemma WriteIsDeterministicIff(was: seq<byte>, offset: nat, data: seq<byte>)
    requires data != []
    ensures (forall s, t :: Written(was, offset, data, s) == Written(was, offset, data, t)) <==>
      was == [] || offset <= |was| || (offset + |data|) % 0x10000 <= |was|
  {
    var n := (offset + |data|) % 0x10000;
    if was != [] && offset > |was| && n > |was| {
      GapShows(was, offset, data, seq(offset, i => 0), 0);
      GapShows(was, offset, data, seq(offset, i => 1), 1);
    } else {
      forall s, t
        ensures Written(was, offset, data, s) == Written(was, offset, data, t)
      {
        if was == [] || offset <= |was| {
          assert Grown(was, offset, s) == Grown(was, offset, t);
        } else {
          assert (Grown(was, offset, s) + data)[..n] == was[..n] == (Grown(was, offset, t) + data)[..n];
        }
      }
    }
  }

  // ------------------------------------------------------------------ the server

  /** A prepared write that waits for execution. */
  datatype Prep = Prep(handle: int, offset: nat, value: seq<byte>, reliable: bool)

  /** `db` holds the stored values by handle, `reliable` the value handles of characteristics
      that support reliable writes, `noWrite` and `noRead` the error codes of handles whose
      permissions forbid the access. `stale` is what the allocator leaves in new memory. */
  datatype Server = Server(db: map<int, seq<byte>>, queue: seq<Prep>, limit: nat, reliable: set<int>,
                           noWrite: map<int, int>, noRead: map<int, int>, stale: seq<byte>)

  datatype Answer = Answer(server: Server, reply: Reply)

  /** A value with `data` behind it. Its length is a 16-bit number. */
  function Joined(value: seq<byte>, data: seq<byte>): seq<byte> {
    if data == [] then value else (value + data)[..(|value| + |data|) % 0x10000]
  }

  /** Joining loses nothing exactly when the whole fits 16 bits. */
  lemma JoinedIsWholeIff(value: seq<byte>, data: seq<byte>)
    requires |value| <= 0xffff
    ensures Joined(value, data) == value + data <==> |value| + |data| <= 0xffff
  {
    if data == [] {
      assert value + data == value;
    }
  }

  /** A piece that makes the whole 65537 bytes long leaves its first byte. */
  lemma JoiningWrapsAround(value: seq<byte>)
    requires |value| == 0xffff
    ensures Joined(value, [7, 8]) == [value[0]]
  {
    assert (value + [7, 8])[..1] == [value[0]];
  }

  /** A piece that continues the last one is joined to it. */
  function Stored(queue: seq<Prep>, handle: int, offset: nat, data: seq<byte>, reliable: bool): seq<Prep> {
    var n := |queue|;
    if n > 0 && queue[n - 1].handle == handle && offset == |queue[n - 1].value| + queue[n - 1].offset then
      queue[n - 1 := queue[n - 1].(value := Joined(queue[n - 1].value, data))]
    else queue + [Prep(handle, offset, Joined([], data), reliable)]
  }

  /** Prepare Write Request. */
  function OnPrepareWrite(s: Server, pdu: seq<byte>): Answer {
    if |pdu| < 4 then Answer(s, ErrorRsp(0, INVALID_PDU))
    else if |s.queue| >= s.limit then Answer(s, ErrorRsp(0, PREPARE_QUEUE_FULL))
    else
      var handle, offset := GetLe16(pdu, 0), GetLe16(pdu, 2);
      if handle !in s.db then Answer(s, ErrorRsp(handle, INVALID_HANDLE))
      else if handle in s.noWrite then Answer(s, ErrorRsp(handle, s.noWrite[handle]))
      else Answer(s.(queue := Stored(s.queue, handle, offset, pdu[4..], handle in s.reliable)), Rsp(pdu))
  }

  /** Executes the queue from its head; `done` is the handle written last. */
  function Execute(s: Server, done: int): Answer
    decreases |s.queue|
  {
    if s.queue == [] then Answer(s, Rsp([]))
    else
      var p := s.queue[0];
      if p.handle !in s.db then Answer(s.(queue := []), ErrorRsp(done, UNLIKELY))
      else Execute(s.(db := s.db[p.handle := Written(s.db[p.handle], p.offset, p.value, s.stale)], queue := s.queue[1..]), p.handle)
  }

  /** Position of the first entry that is not reliable, or the length of the queue. */
  function FirstUnreliable(queue: seq<Prep>): (i: nat)
    ensures i <= |queue| && (i < |queue| ==> !queue[i].reliable) && forall j :: 0 <= j < i ==> queue[j].reliable
  {
    if queue == [] || !queue[0].reliable then 0 else FirstUnreliable(queue[1..]) + 1
  }

  /** Execute Write Request: commits or drops the whole queue. */
  function OnExecuteWrite(s: Server, pdu: seq<byte>): Answer {
    var none := s.(queue := []);
    if |pdu| != 1 then Answer(none, ErrorRsp(0, INVALID_PDU))
    else if pdu[0] == 0 then Answer(none, Rsp([]))
    else if pdu[0] != 1 then Answer(none, ErrorRsp(0, INVALID_PDU))
    else
      var i := FirstUnreliable(s.queue);
      if |s.queue| > 1 && i < |s.queue| then Answer(none, ErrorRsp(s.queue[i].handle, REQUEST_NOT_SUPPORTED))
      else Execute(s, 0)
  }

  /** Read Request, or Read Blob Request when `blob`. */
  function OnRead(s: Server, mtu: nat, pdu: seq<byte>, blob: bool): Reply {
    if |pdu| != (if blob then 4 else 2) then ErrorRsp(0, INVALID_PDU)
    else
      var handle, offset := GetLe16(pdu, 0), if blob then GetLe16(pdu, 2) else 0;
      if handle !in s.db then ErrorRsp(handle, INVALID_HANDLE)
      else if handle in s.noRead then ErrorRsp(handle, s.noRead[handle])
      else if offset > |s.db[handle]| then ErrorRsp(handle, INVALID_OFFSET)
      else
        var rest := s.db[handle][offset..];
        if |rest| > mtu - 1 >= 0 then Rsp(rest[..mtu - 1]) else Rsp(rest)
  }

  // ------------------------------------------------------------------ the client's long write

  /** `index` bytes have been prepared, the next `cur` are under way. */
  datatype Writing = Writing(handle: int, offset: nat, value: seq<byte>, index: nat, cur: nat, reliable: bool)

  ghost predicate ValidWriting(w: Writing) {
    0 <= w.handle <= MAX_HANDLE && w.index + w.cur <= |w.value| && w.offset + |w.value| <= 0xffff
  }

  function Piece(w: Writing): seq<byte>
    requires w.index + w.cur <= |w.value|
  {
    Le16(w.handle) + Le16(w.offset + w.index) + w.value[w.index..w.index + w.cur]
  }

  /** What a response to a prepared write leads to: the next piece, or the Execute request. */
  datatype WriteStep = Next(w: Writing) | Finish(write: bool, ecode: int, reliableError: bool)

  function OnPrepared(w: Writing, mtu: nat, reply: Reply): WriteStep
    requires w.index + w.cur <= |w.value| && mtu >= 5
  {
    match reply
    case ErrorRsp(_, ecode) => Finish(false, ecode, false)
    case Rsp(pdu) =>
      if w.reliable && pdu != Piece(w) then Finish(false, 0, true)
      else
        var next := w.index + w.cur;
        if next == |w.value| then Finish(true, 0, false)
        else if w.cur >= mtu - 5 then Next(w.(index := next, cur := Min(|w.value| - next, mtu - 5)))
        else Finish(true, 0, false)
  }

  /** What the caller is told in the end, and the server as it is left. */
  datatype Outcome = Outcome(server: Server, success: bool, ecode: int, reliableError: bool)

  function OnExecuted(f: WriteStep, a: Answer): Outcome
    requires f.Finish?
  {
    match a.reply
    case ErrorRsp(_, ecode) => Outcome(a.server, false, ecode, f.reliableError)
    case Rsp(pdu) => Outcome(a.server, f.write && pdu == [], f.ecode, f.reliableError)
  }

  /** The rest of a long write against this server. */
  function RunWriting(s: Server, mtu: nat, w: Writing): Outcome
    requires w.index + w.cur <= |w.value| && mtu >= MIN_MTU
    decreases |w.value| - w.index
  {
    var a := OnPrepareWrite(s, Piece(w));
    var step := OnPrepared(w, mtu, a.reply);
    if step.Next? then RunWriting(a.server, mtu, step.w)
    else OnExecuted(step, OnExecuteWrite(a.server, [if step.write then 1 else 0]))
  }

  /** A long write from the beginning. The procedure is not started for an empty value or one
      that reaches beyond 16 bits. */
  function LongWrite(s: Server, mtu: nat, handle: int, offset: nat, value: seq<byte>, reliable: bool): Option<Outcome>
    requires mtu >= MIN_MTU
  {
    if value == [] || |value| + offset > 0xffff then None
    else Some(RunWriting(s, mtu, Writing(handle, offset, value, 0, Min(|value|, mtu - 5), reliable)))
  }

  // ------------------------------------------------------------------ the client's long read

  datatype Reading = Reading(handle: int, offset: nat, data: seq<byte>)

  datatype ReadStep = More(r: Reading) | Got(success: bool, ecode: int, data: seq<byte>)

  function ReadPdu(r: Reading): seq<byte> {
    if r.offset == 0 then Le16(r.handle) else Le16(r.handle) + Le16(r.offset)
  }

  /** How many bytes of a chunk of `n` are kept: all, or as many as the 16-bit difference from the
      limit says, which is far too many once the offset is beyond the limit. */
  function KeptLength(offset: nat, n: nat): nat {
    if offset + n > MAX_VALUE_LEN then (MAX_VALUE_LEN - offset) % 0x10000 else n
  }

  function MemoryByte(pdu: seq<byte>, behind: seq<byte>, i: nat): byte {
    if i < |pdu| then pdu[i] else StaleByte(behind, i - |pdu|)
  }

  /** The first `n` bytes of memory that begins with `pdu` and goes on with `behind`. */
  function Memory(pdu: seq<byte>, behind: seq<byte>, n: nat): (m: seq<byte>)
    ensures |m| == n
  {
    seq(n, i requires 0 <= i < n => MemoryByte(pdu, behind, i))
  }

  /** `behind` is the memory behind the response. */
  function OnReadRsp(r: Reading, mtu: nat, reply: Reply, behind: seq<byte>): ReadStep
    requires mtu >= 1
  {
    match reply
    case ErrorRsp(_, ecode) => Got(false, ecode, r.data)
    case Rsp(pdu) =>
      if pdu == [] then Got(true, 0, r.data)
      else
        var len := KeptLength(r.offset, |pdu|);
        var r' := r.(offset := (r.offset + len) % 0x10000, data := r.data + Memory(pdu, behind, len));
        if r'.offset >= MAX_VALUE_LEN then Got(true, 0, r'.data)
        else if |pdu| >= mtu - 1 then More(r')
        else Got(true, 0, r'.data)
  }

  /** Below the limit a chunk is cut where the value would become too long; beyond it, the offset
      comes back to the limit. */
  lemma ChunkMoves(offset: nat, n: nat)
    requires offset <= 0xffff && n >= 1
    ensures var len := KeptLength(offset, n);
      && (offset <= MAX_VALUE_LEN ==> len == Min(n, MAX_VALUE_LEN - offset) && (offset + len) % 0x10000 == offset + len)
      && (offset > MAX_VALUE_LEN ==> len == 0x10000 + MAX_VALUE_LEN - offset && (offset + len) % 0x10000 == MAX_VALUE_LEN)
  {
  }

  function LongRead(s: Server, mtu: nat, r: Reading, behind: seq<byte>): (g: ReadStep)
    requires r.offset <= 0xffff && mtu >= MIN_MTU
    ensures g.Got?
    decreases 0xffff - r.offset
  {
    var reply := OnRead(s, mtu, ReadPdu(r), r.offset != 0);
    var step := OnReadRsp(r, mtu, reply, behind);
    if reply.Rsp? && reply.pdu != [] then
      ChunkMoves(r.offset, |reply.pdu|);
      if step.More? then LongRead(s, mtu, step.r, behind) else step
    else step
  }

  // ------------------------------------------------------------------ writing

  /** The queue in the middle of a long write. */
  function Prepared(w: Writing, reliable: bool): seq<Prep>
    requires w.index <= |w.value|
  {
    if w.index == 0 then [] else [Prep(w.handle, w.offset, w.value[..w.index], reliable)]
  }

  lemma PieceIsRead(w: Writing)
    requires ValidWriting(w)
    ensures |Piece(w)| == 4 + w.cur && GetLe16(Piece(w), 0) == w.handle && GetLe16(Piece(w), 2) == w.offset + w.index
    ensures Piece(w)[4..] == w.value[w.index..w.index + w.cur]
  {
    var data := w.value[w.index..w.index + w.cur];
    Le16At([], w.handle, Le16(w.offset + w.index) + data);
    assert [] + Le16(w.handle) + (Le16(w.offset + w.index) + data) == Piece(w);
    Le16At(Le16(w.handle), w.offset + w.index, data);
  }

  lemma StartAndNext(v: seq<byte>, i: nat, n: nat)
    requires i + n <= |v|
    ensures v[..i] + v[i..i + n] == v[..i + n]
  {
  }

  lemma PieceIsStored(w: Writing, reliable: bool)
    requires ValidWriting(w) && w.cur > 0
    ensures Stored(Prepared(w, reliable), w.handle, w.offset + w.index, w.value[w.index..w.index + w.cur], reliable) ==
      Prepared(w.(index := w.index + w.cur), reliable)
  {
    var data := w.value[w.index..w.index + w.cur];
    JoinedIsWholeIff(w.value[..w.index], data);
    JoinedIsWholeIff([], data);
    assert [] + data == data;
    StartAndNext(w.value, w.index, w.cur);
  }

  /** The server that a long write meets: it knows the attribute and lets it be written. */
  ghost predicate Writable(s: Server, handle: int) { handle in s.db && handle !in s.noWrite }

  /** Executing one prepared write is one direct write. */
  lemma ExecuteOne(s: Server, p: Prep)
    requires s.queue == [p] && p.handle in s.db
    ensures OnExecuteWrite(s, [1]) ==
      Answer(s.(db := s.db[p.handle := Written(s.db[p.handle], p.offset, p.value, s.stale)], queue := []), Rsp([]))
  {
    hide Written;
    var s' := s.(db := s.db[p.handle := Written(s.db[p.handle], p.offset, p.value, s.stale)], queue := []);
    assert s.queue[1..] == [];
    assert Execute(s', p.handle) == Answer(s', Rsp([]));
    assert Execute(s, 0) == Execute(s', p.handle);
  }

  lemma ExecuteNone(s: Server)
    ensures OnExecuteWrite(s, [0]) == Answer(s.(queue := []), Rsp([]))
  {
  }

  lemma {:induction false} WritingGoesOn(s: Server, mtu: nat, w: Writing)
    requires ValidWriting(w) && Writable(s, w.handle) && mtu >= MIN_MTU
    requires w.index < |w.value| && w.cur == Min(|w.value| - w.index, mtu - 5)
    requires s.queue == Prepared(w, w.handle in s.reliable)
    ensures RunWriting(s, mtu, w) ==
      if s.limit >= 2 || (s.limit == 1 && w.index == 0 && w.cur == |w.value|) then
        Outcome(s.(db := s.db[w.handle := Written(s.db[w.handle], w.offset, w.value, s.stale)], queue := []), true, 0, false)
      else Outcome(s.(queue := []), false, PREPARE_QUEUE_FULL, false)
    decreases |w.value| - w.index
  {
    hide Written, Stored, Piece, OnExecuteWrite;
    PieceIsRead(w);
    ExecuteNone(s);
    var rel := w.handle in s.reliable;
    PieceIsStored(w, rel);
    var a := OnPrepareWrite(s, Piece(w));
    if |s.queue| < s.limit {
      var w1 := w.(index := w.index + w.cur);
      assert a == Answer(s.(queue := Prepared(w1, rel)), Rsp(Piece(w)));
      if w1.index == |w.value| {
        assert w.value[..w1.index] == w.value;
        ExecuteOne(a.server, Prep(w.handle, w.offset, w.value, rel));
        assert OnPrepared(w, mtu, a.reply) == Finish(true, 0, false);
      } else {
        var w2 := w1.(cur := Min(|w.value| - w1.index, mtu - 5));
        assert Prepared(w2, rel) == Prepared(w1, rel);
        WritingGoesOn(a.server, mtu, w2);
      }
    }
  }

  /** Long write: for every value, offset, MTU and server whose prepare queue is empty, the
      pieces come together as one direct write exactly when the queue has room for two
      entries, or for one and the value fits one piece; otherwise the write is cancelled and
      the server is left as it was. */
  lemma LongWriteIsOneWrite(s: Server, mtu: nat, handle: int, offset: nat, value: seq<byte>, reliable: bool)
    requires Writable(s, handle) && 0 <= handle <= MAX_HANDLE && mtu >= MIN_MTU && s.queue == []
    requires value != [] && |value| + offset <= 0xffff
    ensures LongWrite(s, mtu, handle, offset, value, reliable) == Some(
      if s.limit >= 2 || (s.limit == 1 && |value| <= mtu - 5) then
        Outcome(s.(db := s.db[handle := Written(s.db[handle], offset, value, s.stale)]), true, 0, false)
      else Outcome(s, false, PREPARE_QUEUE_FULL, false))
  {
    hide Written, RunWriting;
    assert s.(queue := []) == s;
    WritingGoesOn(s, mtu, Writing(handle, offset, value, 0, Min(|value|, mtu - 5), reliable));
  }

  /** A queue with room for one entry: a value of nineteen bytes at the smallest MTU makes two
      pieces, and the second is refused although it would join the first. */
  lemma OneEntryIsTooFew(s: Server, value: seq<byte>)
    requires s.db == map[3 := []] && s.noWrite == map[] && s.queue == [] && s.limit == 1 && |value| == 19
    ensures LongWrite(s, MIN_MTU, 3, 0, value, false) == Some(Outcome(s, false, PREPARE_QUEUE_FULL, false))
  {
    LongWriteIsOneWrite(s, MIN_MTU, 3, 0, value, false);
  }

  // ------------------------------------------------------------------ reading

  lemma ReadPduIsRead(r: Reading)
    requires 0 <= r.handle <= MAX_HANDLE && r.offset <= 0xffff
    ensures var pdu := ReadPdu(r);
      && |pdu| == (if r.offset != 0 then 4 else 2) && GetLe16(pdu, 0) == r.handle
      && (r.offset != 0 ==> GetLe16(pdu, 2) == r.offset)
  {
    Le16At([], r.handle, []);
    Le16At([], r.handle, Le16(r.offset));
    Le16At(Le16(r.handle), r.offset, []);
    assert [] + Le16(r.handle) + [] == Le16(r.handle);
    assert [] + Le16(r.handle) + Le16(r.offset) == Le16(r.handle) + Le16(r.offset) + [];
  }

  /** What a long read from `offset` is to return: the value from there, up to 512 bytes of it. */
  function Readable(v: seq<byte>, offset: nat): seq<byte>
    requires offset <= |v|
  {
    if offset >= MAX_VALUE_LEN then [] else v[offset..Min(|v|, MAX_VALUE_LEN)]
  }

  lemma SliceStarts(v: seq<byte>, at: nat, m: nat, n: nat)
    requires n <= m && at + m <= |v|
    ensures v[at..at + m][..n] == v[at..at + n]
  {
  }

  lemma ReadableStarts(v: seq<byte>, offset: nat, n: nat)
    requires offset <= |v| && offset + n <= Min(|v|, MAX_VALUE_LEN)
    ensures |Readable(v, offset)| == Min(|v|, MAX_VALUE_LEN) - offset && Readable(v, offset)[..n] == v[offset..offset + n]
  {
  }

  /** What a chunk adds to the data and what is left to read make up what was to be read. */
  lemma NextChunk(v: seq<byte>, data: seq<byte>, offset: nat, n: nat, len: nat)
    requires len <= n && offset + n <= |v| && offset + len <= MAX_VALUE_LEN
    ensures data + v[offset..offset + n][..len] + Readable(v, offset + len) == data + Readable(v, offset)
  {
    assert v[offset..offset + n][..len] == v[offset..offset + len];
    assert v[offset..offset + len] + Readable(v, offset + len) == Readable(v, offset);
  }

  lemma NothingToRead(v: seq<byte>, offset: nat)
    requires offset <= |v| && (offset == |v| || offset >= MAX_VALUE_LEN)
    ensures Readable(v, offset) == []
  {
  }

  lemma ReadAnswers(s: Server, mtu: nat, r: Reading)
    requires r.handle in s.db && r.handle !in s.noRead && 0 <= r.handle <= MAX_HANDLE && mtu >= MIN_MTU
    requires r.offset <= 0xffff && r.offset <= |s.db[r.handle]|
    ensures var v := s.db[r.handle];
      OnRead(s, mtu, ReadPdu(r), r.offset != 0) == Rsp(v[r.offset..r.offset + Min(|v| - r.offset, mtu - 1)])
  {
    hide ReadPdu;
    ReadPduIsRead(r);
    var rest := s.db[r.handle][r.offset..];
    assert |rest| <= mtu - 1 ==> rest == rest[..|rest|];
  }

  lemma {:induction false} ReadingGoesOn(s: Server, mtu: nat, r: Reading, behind: seq<byte>)
    requires r.handle in s.db && r.handle !in s.noRead && 0 <= r.handle <= MAX_HANDLE && mtu >= MIN_MTU
    requires r.offset <= MAX_VALUE_LEN && r.offset <= |s.db[r.handle]|
    ensures LongRead(s, mtu, r, behind) == Got(true, 0, r.data + Readable(s.db[r.handle], r.offset))
    decreases MAX_VALUE_LEN - r.offset
  {
    hide ReadPdu, OnRead, Readable, KeptLength, Memory;
    ReadAnswers(s, mtu, r);
    var v := s.db[r.handle];
    var n := Min(|v| - r.offset, mtu - 1);
    var pdu := v[r.offset..r.offset + n];
    if n == 0 {
      NothingToRead(v, r.offset);
      assert r.data + [] == r.data;
    } else {
      ChunkMoves(r.offset, n);
      var len := Min(n, MAX_VALUE_LEN - r.offset);
      MemoryOfPdu(pdu, behind, len);
      var r' := r.(offset := r.offset + len, data := r.data + pdu[..len]);
      NextChunk(v, r.data, r.offset, n, len);
      if r'.offset < MAX_VALUE_LEN && n >= mtu - 1 {
        ReadingGoesOn(s, mtu, r', behind);
      } else {
        NothingToRead(v, r'.offset);
        assert r'.data + [] == r'.data;
      }
    }
  }

  lemma MemoryOfPdu(pdu: seq<byte>, behind: seq<byte>, n: nat)
    requires n <= |pdu|
    ensures Memory(pdu, behind, n) == pdu[..n]
  {
  }

  /** A read that starts behind the value ends with the error, one at its end with nothing. */
  lemma ReadBeyond(s: Server, mtu: nat, r: Reading, behind: seq<byte>)
    requires r.handle in s.db && r.handle !in s.noRead && 0 <= r.handle <= MAX_HANDLE && mtu >= MIN_MTU
    requires |s.db[r.handle]| <= r.offset <= 0xffff
    ensures LongRead(s, mtu, r, behind) ==
      if |s.db[r.handle]| < r.offset then Got(false, INVALID_OFFSET, r.data) else Got(true, 0, r.data)
  {
    hide ReadPdu, KeptLength, Memory;
    ReadPduIsRead(r);
  }

  /** A read that starts beyond the limit and inside the value: the first chunk is taken with
      what stands behind it in memory, 66048 less the offset bytes in all, and reported as the
      value. */
  lemma ReadPastLimit(s: Server, mtu: nat, handle: int, offset: nat, behind: seq<byte>)
    requires handle in s.db && handle !in s.noRead && 0 <= handle <= MAX_HANDLE && mtu >= MIN_MTU
    requires MAX_VALUE_LEN < offset < |s.db[handle]| && offset <= 0xffff
    ensures var v := s.db[handle];
      var n := Min(|v| - offset, mtu - 1);
      LongRead(s, mtu, Reading(handle, offset, []), behind) ==
        Got(true, 0, Memory(v[offset..offset + n], behind, 0x10000 + MAX_VALUE_LEN - offset))
  {
    hide ReadPdu, OnRead, KeptLength, Memory;
    var r := Reading(handle, offset, []);
    ReadAnswers(s, mtu, r);
    var v := s.db[handle];
    var n := Min(|v| - offset, mtu - 1);
    ChunkMoves(offset, n);
    var m := Memory(v[offset..offset + n], behind, 0x10000 + MAX_VALUE_LEN - offset);
    assert [] + m == m;
  }

  /** What the caller of a long read is to be told. */
  function Answered(v: seq<byte>, offset: nat): ReadStep {
    if offset > |v| then Got(false, INVALID_OFFSET, []) else Got(true, 0, Readable(v, offset))
  }

  /** Long read: for every value, 16-bit offset and MTU, the chain of reads returns the value from
      there, up to 512 bytes of it in all, or reports that the offset lies beyond it, exactly
      when it starts at 512 or before, or not inside the value. */
  lemma LongReadIsValueIff(s: Server, mtu: nat, handle: int, offset: nat, behind: seq<byte>)
    requires handle in s.db && handle !in s.noRead && 0 <= handle <= MAX_HANDLE && mtu >= MIN_MTU && offset <= 0xffff
    ensures LongRead(s, mtu, Reading(handle, offset, []), behind) == Answered(s.db[handle], offset) <==>
      offset <= MAX_VALUE_LEN || offset >= |s.db[handle]|
  {
    hide LongRead, Memory, Readable;
    var v := s.db[handle];
    if offset >= |v| {
      ReadBeyond(s, mtu, Reading(handle, offset, []), behind);
      if offset == |v| {
        NothingToRead(v, offset);
      }
    } else if offset <= MAX_VALUE_LEN {
      ReadingGoesOn(s, mtu, Reading(handle, offset, []), behind);
      assert [] + Readable(v, offset) == Readable(v, offset);
    } else {
      ReadPastLimit(s, mtu, handle, offset, behind);
      NothingToRead(v, offset);
    }
  }

  /** Such a read: a value of 700 zeros from offset 600 at the smallest MTU comes back as 65448
      bytes. */
  lemma LongReadAt600(s: Server, behind: seq<byte>)
    requires s.db == map[3 := seq(700, i => 0)] && s.noRead == map[]
    ensures var g := LongRead(s, MIN_MTU, Reading(3, 600, []), behind);
      g.success && |g.data| == 65448 && g != Answered(s.db[3], 600)
  {
    hide LongRead, Memory;
    ReadPastLimit(s, MIN_MTU, 3, 600, behind);
    LongReadIsValueIff(s, MIN_MTU, 3, 600, behind);
  }

  /** Write, then read back: whatever MTU each of the two uses, a value written at `offset` is
      read from there as it was written, up to 512 bytes from the start of the attribute,
      exactly when it was written at 512 or before. */
  lemma WrittenIsReadBackIff(s: Server, mtu: nat, mtu': nat, handle: int, offset: nat, value: seq<byte>, reliable: bool, behind: seq<byte>)
    requires Writable(s, handle) && handle !in s.noRead && 0 <= handle <= MAX_HANDLE && mtu >= MIN_MTU && mtu' >= MIN_MTU
    requires s.queue == [] && s.limit >= 2 && value != [] && |value| + offset <= 0xffff
    ensures var w := LongWrite(s, mtu, handle, offset, value, reliable);
      && w.Some? && w.value.success && handle in w.value.server.db && offset <= |w.value.server.db[handle]|
      && var v := w.value.server.db[handle];
         var g := LongRead(w.value.server, mtu', Reading(handle, offset, []), behind);
         && (g == Got(true, 0, Readable(v, offset)) <==> offset <= MAX_VALUE_LEN)
         && (offset <= MAX_VALUE_LEN ==>
               var n := Min(|value|, MAX_VALUE_LEN - offset);
               && n <= |g.data| && g.data[..n] == value[..n]
               && (|s.db[handle]| <= offset + |value| ==> g.data == value[..n]))
  {
    hide Written, LongWrite, LongRead;
    LongWriteIsOneWrite(s, mtu, handle, offset, value, reliable);
    var s' := LongWrite(s, mtu, handle, offset, value, reliable).value.server;
    var v := Written(s.db[handle], offset, value, s.stale);
    assert s'.db[handle] == v;
    WrittenAtIff(s.db[handle], offset, value, s.stale);
    LongReadIsValueIff(s', mtu', handle, offset, behind);
    if offset <= MAX_VALUE_LEN {
      var n := Min(|value|, MAX_VALUE_LEN - offset);
      SliceStarts(v, offset, |value|, n);
      ReadableStarts(v, offset, n);
    }
  }
}
