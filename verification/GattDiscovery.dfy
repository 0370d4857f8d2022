/**
 Discovery of services: the client's chain of Read By Group Type requests against this
 server. A request asks for the services in a range of handles; the server packs as many as
 fit one response; the client goes on after the last service it was told about.
 */
module GattDiscovery {
  import opened Bytes
  import opened Gatt

  // ------------------------------------------------------------------ services

  /** `uuid` is the stored value of the declaration: the service's UUID in 2 or 16 bytes, low
      byte first. `kind` is the UUID of the declaration itself. */
  datatype Service = Service(start: int, end: int, kind: int, uuid: seq<byte>, active: bool)

  const PRIMARY := 0x2800
  const SECONDARY := 0x2801

  /** The database's list of services: handles in order, ranges disjoint. */
  ghost predicate Sorted(db: seq<Service>) {
    && (forall i :: 0 <= i < |db| ==> 1 <= db[i].start <= db[i].end <= MAX_HANDLE && |db[i].uuid| in {2, 16})
    && forall i, j :: 0 <= i < j < |db| ==> db[i].end < db[j].start
  }

  /** The Bluetooth base UUID, high byte first. */
  const BASE_UUID: seq<byte> :=
    [0, 0, 0, 0, 0, 0, 0x10, 0, 0x80, 0, 0, 0x80, 0x5F, 0x9B, 0x34, 0xFB]

  /** The full 128-bit form, high byte first, of a UUID given in 2 or 16 bytes. */
  function Uuid128(s: seq<byte>): seq<byte> {
    if |s| == 16 then seq(16, i requires 0 <= i < 16 => s[15 - i])
    else if |s| == 2 then BASE_UUID[2 := s[1]][3 := s[0]]
    else []
  }

  function Uuid16(n: int): seq<byte> { Uuid128(Le16(n)) }

  // ------------------------------------------------------------------ the server

  /** Selected by a request: an active service that starts in the range and whose own UUID or
      whose declaration's UUID is the one asked for. */
  predicate Selected(s: Service, start: int, end: int, kind: seq<byte>) {
    s.active && start <= s.start <= end && (Uuid128(s.uuid) == kind || Uuid16(s.kind) == kind)
  }

  function Listed(db: seq<Service>, start: int, end: int, kind: seq<byte>): seq<Service> {
    if db == [] then []
    else (if Selected(db[0], start, end, kind) then [db[0]] else []) + Listed(db[1..], start, end, kind)
  }

  /** The leading services whose values are `len` bytes long and which fit a response of
      `mtu - 1` bytes of which `used` are taken. */
  function Fitting(ss: seq<Service>, used: nat, len: nat, mtu: nat): (f: seq<Service>)
    ensures f <= ss
  {
    if ss == [] || |ss[0].uuid| != len || used + len + 4 > mtu - 1 then []
    else [ss[0]] + Fitting(ss[1..], used + len + 4, len, mtu)
  }

  function UnitOf(s: Service): (u: seq<byte>)
    ensures |u| == |s.uuid| + 4
  {
    Le16(s.start) + Le16(s.end) + s.uuid
  }

  function Units(ss: seq<Service>): seq<byte> {
    if ss == [] then [] else UnitOf(ss[0]) + Units(ss[1..])
  }

  /** What one response tells about. */
  function Told(ss: seq<Service>, mtu: nat): (f: seq<Service>)
    requires ss != []
    ensures f <= ss
  {
    Fitting(ss, 1, |ss[0].uuid|, mtu)
  }

  /** The response: the length of a unit, and the units. */
  function GroupRsp(ss: seq<Service>, mtu: nat): seq<byte>
    requires ss != []
  {
    [(|ss[0].uuid| + 4) % 256] + Units(Told(ss, mtu))
  }

  /** The server's answer to a Read By Group Type request. */
  function ReadByGroupType(db: seq<Service>, mtu: nat, req: seq<byte>): Reply
    requires Sorted(db)
  {
    if |req| != 6 && |req| != 20 then ErrorRsp(0, INVALID_PDU)
    else
      var start, end, kind := GetLe16(req, 0), GetLe16(req, 2), Uuid128(req[4..]);
      if start == 0 || end == 0 then ErrorRsp(0, INVALID_HANDLE)
      else if start > end then ErrorRsp(start, INVALID_HANDLE)
      else if kind != Uuid16(PRIMARY) && kind != Uuid16(SECONDARY) then ErrorRsp(start, UNSUPPORTED_GROUP_TYPE)
      else
        var ss := Listed(db, start, end, kind);
        if ss == [] then ErrorRsp(start, ATTRIBUTE_NOT_FOUND)
        else Rsp(GroupRsp(ss, mtu))
  }

  lemma {:induction false} ListedIsPart(db: seq<Service>, start: int, end: int, kind: seq<byte>)
    ensures forall s :: s in Listed(db, start, end, kind) <==> s in db && Selected(s, start, end, kind)
  {
    if db != [] {
      ListedIsPart(db[1..], start, end, kind);
      assert db == [db[0]] + db[1..];
    }
  }

  lemma SortedTail(db: seq<Service>)
    requires Sorted(db) && db != []
    ensures Sorted(db[1..]) && forall s :: s in db[1..] ==> db[0].end < s.start
  {
  }

  lemma SortedCons(s: Service, db: seq<Service>)
    requires Sorted(db) && Sorted([s]) && forall t :: t in db ==> s.end < t.start
    ensures Sorted([s] + db)
  {
    forall i, j | 0 <= i < j < |[s] + db|
      ensures ([s] + db)[i].end < ([s] + db)[j].start
    {
      assert ([s] + db)[j] == db[j - 1];
    }
  }

  lemma ListedUnfolds(db: seq<Service>, start: int, end: int, kind: seq<byte>)
    requires db != []
    ensures var rest := Listed(db[1..], start, end, kind);
      Listed(db, start, end, kind) == if Selected(db[0], start, end, kind) then [db[0]] + rest else rest
  {
    hide Selected;
    var rest := Listed(db[1..], start, end, kind);
    assert [] + rest == rest;
  }

  lemma {:induction false} ListedIsSorted(db: seq<Service>, start: int, end: int, kind: seq<byte>)
    requires Sorted(db)
    ensures Sorted(Listed(db, start, end, kind))
  {
    if db != [] {
      SortedTail(db);
      assert Sorted([db[0]]);
      hide Sorted, Selected;
      ListedUnfolds(db, start, end, kind);
      hide Listed;
      ListedIsPart(db[1..], start, end, kind);
      ListedIsSorted(db[1..], start, end, kind);
      SortedCons(db[0], Listed(db[1..], start, end, kind));
    }
  }

  /** Going on after a service that ends at `e` leaves out exactly the services up to it. */
  lemma {:induction false} ListedAfter(db: seq<Service>, start: int, e: int, end: int, kind: seq<byte>, a: seq<Service>, b: seq<Service>)
    requires Sorted(db) && start <= e + 1 && Listed(db, start, end, kind) == a + b
    requires forall i :: 0 <= i < |a| ==> a[i].start <= e
    requires forall i :: 0 <= i < |b| ==> b[i].start > e
    ensures Listed(db, e + 1, end, kind) == b
    decreases |db|
  {
    if db == [] {
      assert b == [];
    } else if Selected(db[0], start, end, kind) {
      var rest := Listed(db[1..], start, end, kind);
      assert (a + b)[0] == db[0] && (a + b)[1..] == rest;
      if a != [] {
        assert (a + b)[1..] == a[1..] + b;
        ListedAfter(db[1..], start, e, end, kind, a[1..], b);
      } else {
        assert a + b == b;
        ListedAfter(db[1..], start, e, end, kind, [], b[1..]);
      }
    } else {
      ListedAfter(db[1..], start, e, end, kind, a, b);
    }
  }

  // ------------------------------------------------------------------ the client

  /** The data of one response, in units of `dlen` bytes. */
  datatype Chunk = Chunk(dlen: nat, data: seq<byte>)

  datatype Request = Request(start: int, end: int, kind: int, results: seq<Chunk>)

  /** What a response leads to: another request, or the end of the procedure. */
  datatype Progress = Ask(op: Request) | Complete(success: bool, ecode: int, results: seq<Chunk>)

  function Asks(op: Request): seq<byte> { Le16(op.start) + Le16(op.end) + Le16(op.kind) }

  /** Running out of attributes is a success when something was found. */
  function Finish(results: seq<Chunk>, success: bool, ecode: int): Progress {
    var ok := success || (ecode == ATTRIBUTE_NOT_FOUND && results != []);
    Complete(ok, ecode, if ok then results else [])
  }

  /** Gives the last unit another end handle. */
  function WithLastEnd(c: Chunk, end: int): Chunk
    requires 4 <= c.dlen <= |c.data|
  {
    var i := |c.data| - c.dlen + 2;
    Chunk(c.dlen, c.data[..i] + Le16(end) + c.data[i + 2..])
  }

  predicate WellFormed(pdu: seq<byte>) {
    |pdu| >= 7 && (pdu[0] == 6 || pdu[0] == 20) && (|pdu| - 1) % pdu[0] == 0
  }

  lemma WellFormedHasUnit(pdu: seq<byte>)
    requires WellFormed(pdu)
    ensures |pdu| - 1 >= pdu[0]
  {
  }

  /** End handle of the last service a response tells about. */
  function LastEnd(pdu: seq<byte>): (e: int)
    requires WellFormed(pdu)
    ensures 0 <= e <= MAX_HANDLE
  {
    WellFormedHasUnit(pdu);
    GetLe16(pdu, |pdu| - pdu[0] + 2)
  }

  /** The client's response handler. */
  function OnGroupRsp(op: Request, reply: Reply): Progress {
    match reply
    case ErrorRsp(_, ecode) => Finish(op.results, false, ecode)
    case Rsp(pdu) =>
      if !WellFormed(pdu) then Finish(op.results, false, 0)
      else
        WellFormedHasUnit(pdu);
        var c, last := Chunk(pdu[0], pdu[1..]), LastEnd(pdu);
        if last < op.start then Finish(op.results + [c], false, 0)
        else if last < op.end then Ask(op.(start := last + 1, results := op.results + [c]))
        else if last == MAX_HANDLE && last != op.end then Finish(op.results + [WithLastEnd(c, op.end)], true, 0)
        else Finish(op.results + [c], true, 0)
  }

  /** Whatever a server answers, the range still to be searched shrinks, so the procedure ends. */
  lemma AnyServerIsLeft(op: Request, reply: Reply)
    requires op.end <= MAX_HANDLE && OnGroupRsp(op, reply).Ask?
    ensures var next := OnGroupRsp(op, reply).op;
      op.start < next.start <= next.end && next.end == op.end && next.kind == op.kind
  {
  }

  /** The whole procedure against this server. */
  function Discover(db: seq<Service>, mtu: nat, op: Request): (p: Progress)
    requires Sorted(db) && op.end <= MAX_HANDLE
    ensures p.Complete?
    decreases MAX_HANDLE - op.start
  {
    var p := OnGroupRsp(op, ReadByGroupType(db, mtu, Asks(op)));
    if p.Ask? then
      AnyServerIsLeft(op, ReadByGroupType(db, mtu, Asks(op)));
      Discover(db, mtu, p.op)
    else p
  }

  // ------------------------------------------------------------------ what the caller is told

  datatype Found = Found(start: int, end: int, uuid: seq<byte>)

  function FoundIn(unit: seq<byte>): Found
    requires |unit| >= 4
  {
    Found(GetLe16(unit, 0), GetLe16(unit, 2), Uuid128(unit[4..]))
  }

  /** The entries of one response, in order. */
  function Entries(c: Chunk): seq<Found>
    decreases |c.data|
  {
    if c.dlen < 4 || |c.data| < c.dlen then []
    else [FoundIn(c.data[..c.dlen])] + Entries(Chunk(c.dlen, c.data[c.dlen..]))
  }

  function AllEntries(cs: seq<Chunk>): seq<Found> {
    if cs == [] then [] else Entries(cs[0]) + AllEntries(cs[1..])
  }

  lemma {:induction false} AllEntriesAppend(cs: seq<Chunk>, c: Chunk)
    ensures AllEntries(cs + [c]) == AllEntries(cs) + Entries(c)
  {
    if cs == [] {
      assert AllEntries([c]) == Entries(c) + AllEntries([]);
      assert cs + [c] == [c];
    } else {
      assert (cs + [c])[1..] == cs[1..] + [c];
      AllEntriesAppend(cs[1..], c);
    }
  }

  /** How a service is reported to a caller who asked up to handle `end`: an open end stands
      for the end of the range. */
  function Report(s: Service, end: int): Found {
    Found(s.start, if s.end == MAX_HANDLE then end else s.end, Uuid128(s.uuid))
  }

  function Reports(ss: seq<Service>, end: int): (fs: seq<Found>)
    ensures |fs| == |ss| && forall i :: 0 <= i < |ss| ==> fs[i] == Report(ss[i], end)
  {
    seq(|ss|, i requires 0 <= i < |ss| => Report(ss[i], end))
  }

  // ------------------------------------------------------------------ one exchange

  /** Handles of 16 bits, values of `len` bytes. */
  ghost predicate Encodable(s: Service, len: nat) {
    0 <= s.start <= MAX_HANDLE && 0 <= s.end <= MAX_HANDLE && |s.uuid| == len
  }

  function Plain(s: Service): Found { Found(s.start, s.end, Uuid128(s.uuid)) }

  function Plains(ss: seq<Service>): (fs: seq<Found>)
    ensures |fs| == |ss| && forall i :: 0 <= i < |ss| ==> fs[i] == Plain(ss[i])
  {
    if ss == [] then [] else [Plain(ss[0])] + Plains(ss[1..])
  }

  lemma {:induction false} UnitsAreRead(ss: seq<Service>, len: nat)
    requires (len == 2 || len == 16) && forall i :: 0 <= i < |ss| ==> Encodable(ss[i], len)
    ensures Entries(Chunk(len + 4, Units(ss))) == Plains(ss)
    ensures |Units(ss)| % (len + 4) == 0
  {
    if ss != [] {
      hide UnitOf, FoundIn, Plain;
      var d, u, rest := len + 4, UnitOf(ss[0]), Units(ss[1..]);
      UnitsAreRead(ss[1..], len);
      assert Units(ss) == u + rest;
      hide Entries, Units;
      assert if len == 2 then (6 + |rest|) % 6 == 0 else (20 + |rest|) % 20 == 0;
    }
  }

  lemma {:induction false} UnitsAppend(ss: seq<Service>, s: Service)
    ensures Units(ss + [s]) == Units(ss) + UnitOf(s)
  {
    if ss == [] {
      assert ss + [s] == [s];
      assert Units([s]) == UnitOf(s) + Units([]);
    } else {
      UnitsAppend(ss[1..], s);
      assert (ss + [s])[1..] == ss[1..] + [s];
    }
  }

  lemma {:induction false} FittingHaveLength(ss: seq<Service>, used: nat, len: nat, mtu: nat)
    ensures forall s :: s in Fitting(ss, used, len, mtu) ==> |s.uuid| == len
  {
    if !(ss == [] || |ss[0].uuid| != len || used + len + 4 > mtu - 1) {
      var rest := Fitting(ss[1..], used + len + 4, len, mtu);
      FittingHaveLength(ss[1..], used + len + 4, len, mtu);
      assert Fitting(ss, used, len, mtu) == [ss[0]] + rest;
      hide Fitting;
    }
  }

  /** Everything a response tells about has the same length of UUID and fits 16 bits; with the
      least MTU there is room for one service at least. */
  lemma ToldIsPlain(ss: seq<Service>, mtu: nat)
    requires ss != [] && Sorted(ss) && mtu >= MIN_MTU
    ensures Told(ss, mtu) != [] && (|ss[0].uuid| == 2 || |ss[0].uuid| == 16)
    ensures forall i :: 0 <= i < |Told(ss, mtu)| ==> Encodable(Told(ss, mtu)[i], |ss[0].uuid|)
  {
    FittingHaveLength(ss, 1, |ss[0].uuid|, mtu);
  }

  /** The end handle of the last unit is where the client looks for it, and can be replaced. */
  lemma LastUnit(front: seq<Service>, last: Service, end: int)
    requires Encodable(last, |last.uuid|)
    requires 0 <= end <= MAX_HANDLE && 0 <= last.end <= MAX_HANDLE
    ensures var d, data := |last.uuid| + 4, Units(front + [last]);
      && |data| >= d && GetLe16(data, |data| - d + 2) == last.end
      && WithLastEnd(Chunk(d, data), end) == Chunk(d, Units(front + [last.(end := end)]))
  {
    hide Units;
    UnitsAppend(front, last);
    UnitsAppend(front, last.(end := end));
    var u, d := Units(front), |last.uuid| + 4;
    Le16At(u + Le16(last.start), last.end, last.uuid);
    assert u + Le16(last.start) + Le16(last.end) + last.uuid == u + UnitOf(last);
    assert u + Le16(last.start) + Le16(end) + last.uuid == u + UnitOf(last.(end := end));
  }

  lemma FirstByteOff(pdu: seq<byte>, i: nat)
    requires i + 3 <= |pdu|
    ensures GetLe16(pdu, i + 1) == GetLe16(pdu[1..], i)
  {
  }

  lemma RspIsWellFormed(ss: seq<Service>, mtu: nat)
    requires ss != [] && Sorted(ss) && mtu >= MIN_MTU
    ensures var f, pdu, len := Told(ss, mtu), GroupRsp(ss, mtu), |ss[0].uuid|;
      f != [] && WellFormed(pdu) && pdu[0] == len + 4 && pdu[1..] == Units(f) && |Units(f)| >= len + 4
  {
    hide Sorted, Fitting, UnitOf, Entries, Plains;
    ToldIsPlain(ss, mtu);
    UnitsAreRead(Told(ss, mtu), |ss[0].uuid|);
  }

  /** A response tells about at least one service, and what the client reads from it is what
      the server put in, also when the client gives the last service another end. */
  lemma RspIsRead(ss: seq<Service>, mtu: nat, end: int)
    requires ss != [] && Sorted(ss) && mtu >= MIN_MTU && 0 <= end <= MAX_HANDLE
    ensures var f, pdu := Told(ss, mtu), GroupRsp(ss, mtu);
      && f != [] && |pdu| >= 7 && 4 <= pdu[0] <= |pdu| - 1 && WellFormed(pdu) && LastEnd(pdu) == f[|f| - 1].end
      && Entries(Chunk(pdu[0], pdu[1..])) == Plains(f)
      && Entries(WithLastEnd(Chunk(pdu[0], pdu[1..]), end)) == Plains(f[|f| - 1 := f[|f| - 1].(end := end)])
  {
    hide Sorted, Told, GroupRsp, Units, Entries, Plains, UnitOf, GetLe16, WithLastEnd;
    ToldIsPlain(ss, mtu);
    RspIsWellFormed(ss, mtu);
    var f, pdu, len := Told(ss, mtu), GroupRsp(ss, mtu), |ss[0].uuid|;
    var n, last, d := |f|, f[|f| - 1], len + 4;
    UnitsAreRead(f, len);
    assert f == f[..n - 1] + [last];
    LastUnit(f[..n - 1], last, end);
    var g := f[..n - 1] + [last.(end := end)];
    UnitsAreRead(g, len);
    FirstByteOff(pdu, |pdu| - d + 1);
    assert g == f[n - 1 := last.(end := end)];
  }

  // ------------------------------------------------------------------ the whole procedure

  lemma RequestIsRead(op: Request, mtu: nat, db: seq<Service>)
    requires Sorted(db) && 1 <= op.start <= op.end <= MAX_HANDLE && (op.kind == PRIMARY || op.kind == SECONDARY)
    ensures var ss := Listed(db, op.start, op.end, Uuid16(op.kind));
      ReadByGroupType(db, mtu, Asks(op)) ==
        if ss == [] then ErrorRsp(op.start, ATTRIBUTE_NOT_FOUND)
        else Rsp(GroupRsp(ss, mtu))
  {
    hide Listed, GroupRsp, Sorted, Uuid128;
    var req := Asks(op);
    Le16At([], op.start, Le16(op.end) + Le16(op.kind));
    Le16At(Le16(op.start), op.end, Le16(op.kind));
    assert [] + Le16(op.start) + (Le16(op.end) + Le16(op.kind)) == req;
    assert req[4..] == Le16(op.kind);
  }

  lemma ListedAt(db: seq<Service>, start: int, end: int, kind: seq<byte>, i: nat)
    requires i < |Listed(db, start, end, kind)|
    ensures start <= Listed(db, start, end, kind)[i].start <= end
  {
    hide Listed;
    ListedIsPart(db, start, end, kind);
    assert Listed(db, start, end, kind)[i] in Listed(db, start, end, kind);
  }

  /** The services before and after the point a response reaches. */
  lemma Continues(db: seq<Service>, op: Request, kind: seq<byte>, told: seq<Service>)
    requires Sorted(db) && told != [] && told <= Listed(db, op.start, op.end, kind)
    ensures var e, ss := told[|told| - 1].end, Listed(db, op.start, op.end, kind);
      && op.start <= e <= MAX_HANDLE
      && (forall i :: 0 <= i < |told| - 1 ==> told[i].end < e)
      && (e < op.end ==> Listed(db, e + 1, op.end, kind) == ss[|told|..])
      && (e >= op.end ==> ss == told)
  {
    hide Listed;
    var ss, n := Listed(db, op.start, op.end, kind), |told|;
    var e, rest := told[n - 1].end, ss[n..];
    ListedIsSorted(db, op.start, op.end, kind);
    ListedAt(db, op.start, op.end, kind, n - 1);
    assert ss[n - 1] == told[n - 1] && ss == told + rest;
    PrefixOfSorted(ss, told);
    if e < op.end {
      ListedAfter(db, op.start, e, op.end, kind, told, rest);
    } else if n < |ss| {
      assert rest[0] == ss[n];
      ListedAt(db, op.start, op.end, kind, n);
      assert false;
    }
  }

  lemma PrefixOfSorted(ss: seq<Service>, told: seq<Service>)
    requires Sorted(ss) && told <= ss && told != []
    ensures var e := told[|told| - 1].end;
      && told[|told| - 1].start <= e <= MAX_HANDLE
      && (forall i :: 0 <= i < |told| ==> told[i].start <= e)
      && (forall i :: 0 <= i < |told| - 1 ==> told[i].end < e)
      && forall i :: 0 <= i < |ss| - |told| ==> ss[|told|..][i].start > e
  {
  }

  lemma OnGoodRsp(op: Request, pdu: seq<byte>)
    requires WellFormed(pdu) && |pdu| - 1 >= pdu[0] && op.start <= LastEnd(pdu) <= MAX_HANDLE
    ensures var c, e, p := Chunk(pdu[0], pdu[1..]), LastEnd(pdu), OnGroupRsp(op, Rsp(pdu));
      if e < op.end then p == Ask(op.(start := e + 1, results := op.results + [c]))
      else p == Complete(true, 0, op.results + [if e == MAX_HANDLE && e != op.end then WithLastEnd(c, op.end) else c])
  {
    hide LastEnd, WithLastEnd;
  }

  lemma DiscoverUnfolds(db: seq<Service>, mtu: nat, op: Request)
    requires Sorted(db) && op.end <= MAX_HANDLE
    ensures var p := OnGroupRsp(op, ReadByGroupType(db, mtu, Asks(op)));
      Discover(db, mtu, op) == if p.Ask? then AnyServerIsLeft(op, ReadByGroupType(db, mtu, Asks(op))); Discover(db, mtu, p.op) else p
  {
    hide OnGroupRsp, ReadByGroupType;
  }

  /** One exchange: either it leads to the same state of affairs further on, or it ends the
      procedure with all of the selected services. */
  lemma OneExchange(db: seq<Service>, mtu: nat, op: Request, kind: seq<byte>) returns (next: Request, n: nat)
    requires Sorted(db) && mtu >= MIN_MTU && 1 <= op.start <= op.end <= MAX_HANDLE
    requires (op.kind == PRIMARY || op.kind == SECONDARY) && kind == Uuid16(op.kind) && Listed(db, op.start, op.end, kind) != []
    ensures var ss := Listed(db, op.start, op.end, kind);
      && n <= |ss| && next.results != []
      && AllEntries(next.results) + Reports(ss[n..], op.end) == AllEntries(op.results) + Reports(ss, op.end)
      && (1 <= next.start ==>
            && op.start < next.start <= next.end == op.end && next.kind == op.kind
            && Discover(db, mtu, op) == Discover(db, mtu, next) && Listed(db, next.start, op.end, kind) == ss[n..])
      && (next.start < 1 ==> n == |ss| && Discover(db, mtu, op) == Complete(true, 0, next.results))
  {
    hide *;
    var ss := Listed(db, op.start, op.end, kind);
    RequestIsRead(op, mtu, db);
    DiscoverUnfolds(db, mtu, op);
    ListedIsSorted(db, op.start, op.end, kind);
    RspIsRead(ss, mtu, op.end);
    var told, pdu := Told(ss, mtu), GroupRsp(ss, mtu);
    var e, c := told[|told| - 1].end, Chunk(pdu[0], pdu[1..]);
    n := |told|;
    Continues(db, op, kind, told);
    OnGoodRsp(op, pdu);
    assert told + ss[n..] == ss;
    if e < op.end {
      next := op.(start := e + 1, results := op.results + [c]);
      AllEntriesAppend(op.results, c);
      ReportsOpen(told, ss[n..], op.end);
      Regroup(AllEntries(op.results), Plains(told), Reports(ss[n..], op.end));
    } else {
      var c' := if e == MAX_HANDLE && e != op.end then WithLastEnd(c, op.end) else c;
      next := op.(start := 0, results := op.results + [c']);
      AllEntriesAppend(op.results, c');
      ReportsClosed(told, op.end);
      CorrectedIs(told, op.end);
      ReportsOfNone(op.end);
      assert ss[n..] == [];
      assert AllEntries(next.results) + [] == AllEntries(next.results);
    }
  }

  lemma Regroup(a: seq<Found>, b: seq<Found>, c: seq<Found>)
    ensures a + b + c == a + (b + c)
  {
  }

  lemma ReportsOfNone(end: int)
    ensures Reports([], end) == []
  {
  }

  /** What the procedure finds beyond what it has found already. */
  lemma {:induction false} DiscoverGoesOn(db: seq<Service>, mtu: nat, op: Request)
    requires Sorted(db) && mtu >= MIN_MTU && 1 <= op.start <= op.end <= MAX_HANDLE
    requires op.kind == PRIMARY || op.kind == SECONDARY
    ensures var ss, p := Listed(db, op.start, op.end, Uuid16(op.kind)), Discover(db, mtu, op);
      && p.success == (op.results != [] || ss != [])
      && (p.success ==> AllEntries(p.results) == AllEntries(op.results) + Reports(ss, op.end))
    decreases MAX_HANDLE - op.start
  {
    hide AllEntries, Listed, Discover, OnGroupRsp, Reports, Sorted, ReadByGroupType, Uuid128;
    var kind := Uuid16(op.kind);
    var ss := Listed(db, op.start, op.end, kind);
    if ss == [] {
      RequestIsRead(op, mtu, db);
      DiscoverUnfolds(db, mtu, op);
      OnNotFound(op);
      ReportsOfNone(op.end);
      assert AllEntries(op.results) + [] == AllEntries(op.results);
    } else {
      var next, n := OneExchange(db, mtu, op, kind);
      if 1 <= next.start {
        DiscoverGoesOn(db, mtu, next);
      } else {
        ReportsOfNone(op.end);
        assert ss[n..] == [] && AllEntries(next.results) + [] == AllEntries(next.results);
      }
    }
  }

  lemma OnNotFound(op: Request)
    ensures OnGroupRsp(op, ErrorRsp(op.start, ATTRIBUTE_NOT_FOUND)) ==
      Complete(op.results != [], ATTRIBUTE_NOT_FOUND, op.results)
  {
  }

  lemma ReportsOpen(told: seq<Service>, rest: seq<Service>, end: int)
    requires forall i :: 0 <= i < |told| ==> told[i].end < MAX_HANDLE
    ensures Plains(told) + Reports(rest, end) == Reports(told + rest, end)
  {
  }

  /** The last service told about, as the client corrects it. */
  function Corrected(told: seq<Service>, end: int): (c: seq<Service>)
    requires told != []
    ensures |c| == |told|
  {
    var last := told[|told| - 1];
    if last.end == MAX_HANDLE && last.end != end then told[|told| - 1 := last.(end := end)] else told
  }

  lemma CorrectedIs(told: seq<Service>, end: int)
    requires told != []
    ensures var n, last := |told|, told[|told| - 1];
      Corrected(told, end) == (if last.end == MAX_HANDLE && last.end != end then told[n - 1 := last.(end := end)] else told)
  {
  }

  lemma ReportsClosed(told: seq<Service>, end: int)
    requires told != [] && told[|told| - 1].end <= MAX_HANDLE
    requires forall i :: 0 <= i < |told| - 1 ==> told[i].end < told[|told| - 1].end
    ensures Reports(told, end) == Plains(Corrected(told, end))
  {
    hide Uuid128;
    forall i | 0 <= i < |told|
      ensures Report(told[i], end) == Plain(Corrected(told, end)[i])
    {
    }
  }

  /** Discovery composition: for every database and every MTU, the client collects exactly the
      selected services of the range, in handle order, each once; it reports success exactly
      when there is one. */
  lemma DiscoveryIsExact(db: seq<Service>, mtu: nat, start: int, end: int, kind: int)
    requires Sorted(db) && mtu >= MIN_MTU && 1 <= start <= end <= MAX_HANDLE
    requires kind == PRIMARY || kind == SECONDARY
    ensures var ss, p := Listed(db, start, end, Uuid16(kind)), Discover(db, mtu, Request(start, end, kind, []));
      p.success == (ss != []) && AllEntries(p.results) == Reports(ss, end)
  {
    hide Listed;
    DiscoverGoesOn(db, mtu, Request(start, end, kind, []));
    var ss, p := Listed(db, start, end, Uuid16(kind)), Discover(db, mtu, Request(start, end, kind, []));
    if p.success {
      assert [] + Reports(ss, end) == Reports(ss, end);
    } else {
      FailureIsEmpty(db, mtu, Request(start, end, kind, []));
    }
  }

  lemma {:induction false} FailureIsEmpty(db: seq<Service>, mtu: nat, op: Request)
    requires Sorted(db) && op.end <= MAX_HANDLE && !Discover(db, mtu, op).success
    ensures Discover(db, mtu, op).results == []
    decreases MAX_HANDLE - op.start
  {
    hide ReadByGroupType;
    var r := ReadByGroupType(db, mtu, Asks(op));
    if OnGroupRsp(op, r).Ask? {
      AnyServerIsLeft(op, r);
      FailureIsEmpty(db, mtu, OnGroupRsp(op, r).op);
    }
  }

  function OfKind(db: seq<Service>, start: int, end: int, kind: int): seq<Service> {
    if db == [] then []
    else (if db[0].active && start <= db[0].start <= end && db[0].kind == kind then [db[0]] else []) + OfKind(db[1..], start, end, kind)
  }

  lemma Uuid16IsInjective(a: int, b: int)
    requires 0 <= a <= 0xffff && 0 <= b <= 0xffff && Uuid16(a) == Uuid16(b)
    ensures a == b
  {
    assert Uuid16(a)[3] == a % 256 && Uuid16(a)[2] == (a / 256) % 256;
    assert Uuid16(b)[3] == b % 256 && Uuid16(b)[2] == (b / 256) % 256;
  }

  /** The server's selection is the services of that kind, exactly when no active service of
      another kind in the range carries the kind's UUID as its own. */
  lemma {:induction false} SelectionIsKindIff(db: seq<Service>, start: int, end: int, kind: int)
    requires 0 <= kind <= 0xffff && forall s :: s in db ==> 0 <= s.kind <= 0xffff
    ensures Listed(db, start, end, Uuid16(kind)) == OfKind(db, start, end, kind) <==>
      forall s :: s in db && s.active && start <= s.start <= end && Uuid128(s.uuid) == Uuid16(kind) ==> s.kind == kind
  {
    hide Uuid128;
    if db != [] {
      var s, rest := db[0], db[1..];
      assert s in db && forall t :: t in rest ==> t in db;
      assert forall t :: t in db ==> t == s || t in rest;
      if Uuid16(s.kind) == Uuid16(kind) {
        Uuid16IsInjective(s.kind, kind);
      }
      SelectionIsKindIff(rest, start, end, kind);
      ListedIsLonger(rest, start, end, kind);
      ListedUnfolds(db, start, end, Uuid16(kind));
      var l, k := Listed(rest, start, end, Uuid16(kind)), OfKind(rest, start, end, kind);
      assert ([s] + l)[1..] == l && ([s] + k)[1..] == k && [] + k == k;
    }
  }

  /** Where it fails: a search for primary services also finds a secondary service whose own
      UUID is that of the primary kind. */
  lemma SecondaryIsSelected()
    ensures var s := Service(1, 1, SECONDARY, Le16(PRIMARY), true);
      Listed([s], 1, MAX_HANDLE, Uuid16(PRIMARY)) == [s] && OfKind([s], 1, MAX_HANDLE, PRIMARY) == []
  {
    var s := Service(1, 1, SECONDARY, Le16(PRIMARY), true);
    assert Listed([s][1..], 1, MAX_HANDLE, Uuid16(PRIMARY)) == [];
  }

  lemma {:induction false} ListedIsLonger(db: seq<Service>, start: int, end: int, kind: int)
    ensures |Listed(db, start, end, Uuid16(kind))| >= |OfKind(db, start, end, kind)|
  {
    hide Uuid128;
    if db != [] {
      ListedIsLonger(db[1..], start, end, kind);
    }
  }
}
