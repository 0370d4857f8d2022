/**
 Read By Group Type as the program does it: the database's iteration over its services, the
 server's loop that fills a response, the client's request object and the iterator over its
 results, each proved against module GattDiscovery.
 */
module GattGroupRequests {
  import opened Bytes
  import opened Gatt
  import opened GattDiscovery

  // ------------------------------------------------------------------ the server

  /** Queues the services selected by a request. */
  method ReadByGroup(services: seq<Service>, start: int, end: int, kind: seq<byte>) returns (queue: seq<Service>)
    requires Sorted(services)
    ensures queue == Listed(services, start, end, kind)
  {
    hide Listed, Selected, Sorted, Uuid128;
    queue := [];
    assert services[0..] == services;
    var i := 0;
    while i < |services|
      invariant 0 <= i <= |services|
      invariant queue + Listed(services[i..], start, end, kind) == Listed(services, start, end, kind)
    {
      var s := services[i];
      ghost var rest := services[i..];
      assert rest[0] == s && rest[1..] == services[i + 1..];
      ListedUnfolds(rest, start, end, kind);
      SelectedIff(services, i, start, end, kind);
      if !s.active || s.start > end || s.end < start {
      } else if s.start < start || s.start > end {
      } else if Uuid128(s.uuid) != kind && Uuid16(s.kind) != kind {
      } else {
        assert queue + ([s] + Listed(rest[1..], start, end, kind)) == queue + [s] + Listed(rest[1..], start, end, kind);
        queue := queue + [s];
      }
      i := i + 1;
    }
    ListedOfNone(services[|services|..], start, end, kind);
    assert queue + [] == queue;
  }

  lemma SelectedIff(services: seq<Service>, i: nat, start: int, end: int, kind: seq<byte>)
    requires Sorted(services) && i < |services|
    ensures var s := services[i];
      Selected(s, start, end, kind) <==>
        && !(!s.active || s.start > end || s.end < start)
        && !(s.start < start || s.start > end) && !(Uuid128(s.uuid) != kind && Uuid16(s.kind) != kind)
  {
    hide Uuid128;
  }

  lemma ListedOfNone(services: seq<Service>, start: int, end: int, kind: seq<byte>)
    requires services == []
    ensures Listed(services, start, end, kind) == []
  {
  }

  method PutLe16(n: int, pdu: array<byte>, i: nat)
    requires i + 2 <= pdu.Length
    modifies pdu
    ensures pdu[..] == old(pdu[..i]) + Le16(n) + old(pdu[i + 2..])
  {
    pdu[i] := n % 256;
    pdu[i + 1] := (n / 256) % 256;
  }

  method PutBytes(s: seq<byte>, pdu: array<byte>, i: nat)
    requires i + |s| <= pdu.Length
    modifies pdu
    ensures pdu[..] == old(pdu[..i]) + s + old(pdu[i + |s|..])
  {
    var j := 0;
    while j < |s|
      invariant 0 <= j <= |s|
      invariant pdu[..i] == old(pdu[..i]) && pdu[i..i + j] == s[..j] && pdu[i + j..] == old(pdu[i + j..])
    {
      pdu[i + j] := s[j];
      j := j + 1;
    }
  }

  /** Writes one unit of a response. */
  method PutUnit(s: Service, pdu: array<byte>, i: nat)
    requires i + |s.uuid| + 4 <= pdu.Length
    modifies pdu
    ensures pdu[..i + |s.uuid| + 4] == old(pdu[..i]) + UnitOf(s)
  {
    PutLe16(s.start, pdu, i);
    assert pdu[..i + 2] == old(pdu[..i]) + Le16(s.start);
    PutLe16(s.end, pdu, i + 2);
    assert pdu[..i + 4] == old(pdu[..i]) + Le16(s.start) + Le16(s.end);
    PutBytes(s.uuid, pdu, i + 4);
    assert pdu[..i + |s.uuid| + 4] == old(pdu[..i]) + UnitOf(s);
  }

  /** Fills a response with as many services of the queue as belong in it. */
  method EncodeReadByGrpTypeRsp(services: seq<Service>, mtu: nat, pdu: array<byte>) returns (len: nat)
    requires services != [] && Sorted(services) && mtu >= MIN_MTU && pdu.Length >= mtu
    modifies pdu
    ensures len <= mtu - 1 && pdu[..len] == GroupRsp(services, mtu)
  {
    hide UnitOf, Sorted;
    var q, iter: nat, dataValLen: nat := services, 0, 0;
    while q != []
      invariant iter <= mtu - 1
      invariant iter == 0 ==> q == services
      invariant iter > 0 ==> dataValLen == |services[0].uuid|
      invariant iter > 0 ==> pdu[..iter] + Units(Fitting(q, iter, dataValLen, mtu)) == GroupRsp(services, mtu)
      decreases |q|
    {
      var attrib := q[0];
      LengthOfValue(services, q, iter == 0);
      if iter == 0 {
        dataValLen := Min(Min(mtu - 6, 251), |attrib.uuid|);
        pdu[0] := dataValLen + 4;
        iter := 1;
        FirstByte(pdu[..1], services, mtu);
      } else if |attrib.uuid| != dataValLen {
        assert pdu[..iter] + [] == pdu[..iter];
        q := [];
        break;
      }
      if iter + dataValLen + 4 > mtu - 1 {
        assert pdu[..iter] + [] == pdu[..iter];
        q := [];
        break;
      }
      UnitFirst(pdu[..iter], attrib, Fitting(q[1..], iter + dataValLen + 4, dataValLen, mtu));
      PutUnit(attrib, pdu, iter);
      iter := iter + dataValLen + 4;
      q := q[1..];
    }
    assert q == [] ==> pdu[..iter] + [] == pdu[..iter];
    len := iter;
  }

  lemma LengthOfValue(services: seq<Service>, q: seq<Service>, first: bool)
    requires services != [] && Sorted(services) && (first ==> q == services)
    ensures |services[0].uuid| == 2 || |services[0].uuid| == 16
  {
  }

  lemma FirstByte(front: seq<byte>, services: seq<Service>, mtu: nat)
    requires services != [] && |services[0].uuid| <= 16 && front == [|services[0].uuid| + 4]
    ensures front + Units(Fitting(services, 1, |services[0].uuid|, mtu)) == GroupRsp(services, mtu)
  {
  }

  lemma UnitFirst(front: seq<byte>, s: Service, rest: seq<Service>)
    ensures front + UnitOf(s) + Units(rest) == front + Units([s] + rest)
  {
    assert ([s] + rest)[1..] == rest;
    assert front + UnitOf(s) + Units(rest) == front + (UnitOf(s) + Units(rest));
  }

  // ------------------------------------------------------------------ the client

  /** A discovery in progress. */
  class DiscoveryRequest {
    var startHandle: int
    var endHandle: int
    var serviceType: int
    var results: seq<Chunk>

    constructor (start: int, end: int, kind: int)
      ensures Value() == Request(start, end, kind, [])
    {
      startHandle, endHandle, serviceType, results := start, end, kind, [];
    }

    function Value(): Request
      reads this
    {
      Request(startHandle, endHandle, serviceType, results)
    }

    /** Takes the response to the last request; sends the next one, or ends with what the
        callback is told. */
    method ReadByGrpTypeCb(reply: Reply) returns (next: Option<seq<byte>>, success: bool, ecode: int)
      modifies this
      ensures var p := old(OnGroupRsp(Value(), reply));
        if p.Ask? then Value() == p.op && next == Some(Asks(p.op))
        else next == None && success == p.success && ecode == p.ecode && (success ==> results == p.results)
    {
      next, success, ecode := None, false, 0;
      if reply.ErrorRsp? {
        ecode := reply.ecode;
      } else if WellFormed(reply.pdu) {
        var pdu := reply.pdu;
        WellFormedHasUnit(pdu);
        var dataLength := pdu[0];
        var c := Chunk(dataLength, pdu[1..]);
        results := results + [c];
        var lastEnd := GetLe16(pdu, |pdu| - dataLength + 2);
        if lastEnd >= startHandle {
          startHandle := lastEnd + 1;
          if lastEnd < endHandle {
            next := Some(Le16(startHandle) + Le16(endHandle) + Le16(serviceType));
            return;
          }
          if lastEnd == MAX_HANDLE && lastEnd != endHandle {
            results := results[|results| - 1 := WithLastEnd(c, endHandle)];
          }
          success := true;
        }
      }
      if ecode == ATTRIBUTE_NOT_FOUND && results != [] {
        success := true;
      }
    }
  }

  /** Walks over the results of a discovery. */
  class ServiceIter {
    var results: seq<Chunk>
    var index: nat
    var pos: nat

    /** What is still to be told. */
    ghost function Rest(): seq<Found>
      requires Valid()
      reads this
    {
      if index == |results| then []
      else Entries(Chunk(results[index].dlen, results[index].data[pos..])) + AllEntries(results[index + 1..])
    }

    /** Every response holds whole units, at least one; the position is at the start of one. */
    ghost predicate Valid()
      reads this
    {
      && (forall c :: c in results ==> Units6Or20(c))
      && index <= |results|
      && (index == |results| ==> pos == 0)
      && (index < |results| ==> Units6Or20(results[index]) && pos < |results[index].data| && (|results[index].data| - pos) % results[index].dlen == 0)
    }

    constructor (cs: seq<Chunk>)
      requires forall c :: c in cs ==> Units6Or20(c)
      ensures Valid() && Rest() == AllEntries(cs)
    {
      results, index, pos := cs, 0, 0;
      new;
      if cs != [] {
        assert cs[0] in cs;
        assert cs[0].data[0..] == cs[0].data;
      }
    }

    /** Tells the next service and moves on; fails when there is none. */
    method NextService() returns (found: Option<Found>)
      requires Valid()
      modifies this`index, this`pos
      ensures Valid()
      ensures found == (if old(Rest()) == [] then None else Some(old(Rest())[0]))
      ensures Rest() == (if old(Rest()) == [] then [] else old(Rest())[1..])
    {
      hide Entries, AllEntries, FoundIn;
      if index == |results| {
        return None;
      }
      var c := results[index];
      assert c in results;
      AtLeastOneUnit(|c.data| - pos, c.dlen);
      found := Some(FoundIn(c.data[pos..pos + c.dlen]));
      FirstEntry(c, pos);
      pos := pos + c.dlen;
      NoEntries(c.dlen, c.data[|c.data|..]);
      if pos == |c.data| {
        index, pos := index + 1, 0;
        if index < |results| {
          assert results[index] in results;
          assert results[index].data[0..] == results[index].data;
          AllEntriesFirst(results[index..]);
        } else {
          NoMoreEntries(results[index..]);
        }
      }
    }
  }

  predicate Units6Or20(c: Chunk) { (c.dlen == 6 || c.dlen == 20) && c.data != [] && |c.data| % c.dlen == 0 }

  lemma AtLeastOneUnit(n: nat, d: nat)
    requires (d == 6 || d == 20) && n > 0 && n % d == 0
    ensures n >= d && (n - d) % d == 0
  {
  }

  lemma NoEntries(d: nat, data: seq<byte>)
    requires data == [] && d > 0
    ensures Entries(Chunk(d, data)) == []
  {
  }

  lemma NoMoreEntries(cs: seq<Chunk>)
    requires cs == []
    ensures AllEntries(cs) == []
  {
  }

  lemma AllEntriesFirst(cs: seq<Chunk>)
    requires cs != []
    ensures AllEntries(cs) == Entries(cs[0]) + AllEntries(cs[1..])
  {
  }

  lemma FirstEntry(c: Chunk, pos: nat)
    requires 4 <= c.dlen && pos + c.dlen <= |c.data|
    ensures Entries(Chunk(c.dlen, c.data[pos..])) ==
      [FoundIn(c.data[pos..pos + c.dlen])] + Entries(Chunk(c.dlen, c.data[pos + c.dlen..]))
  {
    assert c.data[pos..] == c.data[pos..pos + c.dlen] + c.data[pos + c.dlen..];
  }
}
