/**
 The attribute database as the program keeps it, each operation proved against module GattDb.
 */
module GattDatabase {
  import opened Bytes
  import opened Gatt
  import opened GattDb
  import GattDiscovery

  class Database {
    var services: seq<Svc>
    var nextHandle: int

    constructor ()
      ensures Value() == Db([], 1)
    {
      services, nextHandle := [], 1;
    }

    function Value(): Db
      reads this
    {
      Db(services, nextHandle)
    }

    /** Looks for the place of a new range: a service in the way, or the services in front. */
    method FindInsertLoc(start: int, end: int) returns (clash: Option<nat>, after: nat)
      ensures match FindPlace(services, start, end, 0)
        case Clash(i) => clash == Some(i)
        case Free(n) => clash == None && after == n
    {
      clash, after := None, 0;
      while after < |services|
        invariant after <= |services| && FindPlace(services, start, end, after) == FindPlace(services, start, end, 0)
      {
        var s := services[after];
        if start >= s.start && start <= EndOf(s) {
          return Some(after), after;
        }
        if end >= s.start && end <= EndOf(s) {
          return Some(after), after;
        }
        if end < s.start {
          return;
        }
        after := after + 1;
      }
    }

    method InsertService(handle: int, kind: int, uuid: seq<byte>, num: nat) returns (index: Option<nat>)
      modifies this
      ensures (Value(), index) == Insert(old(Value()), handle, kind, uuid, num)
    {
      hide FindPlace, GattDiscovery.Uuid128;
      var h := handle;
      if h == 0 {
        h := nextHandle;
      }
      if num < 1 || h + num - 1 > MAX_HANDLE {
        return None;
      }
      var clash, after := FindInsertLoc(h, h + num - 1);
      if clash.Some? {
        var s := services[clash.value];
        if s.kind == kind && GattDiscovery.Uuid128(s.uuid) == GattDiscovery.Uuid128(uuid) && |s.attrs| == num && s.start == h {
          return clash;
        }
        return None;
      }
      services := services[..after] + [Declared(h, kind, uuid, num)] + services[after..];
      nextHandle := Max(h + num, nextHandle) % 0x10000;
      return Some(after);
    }

    method RemoveOverlapping(start: int, end: int) returns (kept: seq<Svc>)
      ensures kept == Kept(services, start, end)
    {
      hide Kept;
      kept := [];
      var i := 0;
      assert services[0..] == services;
      while i < |services|
        invariant i <= |services| && kept + Kept(services[i..], start, end) == Kept(services, start, end)
      {
        ghost var rest := services[i..];
        assert rest[0] == services[i] && rest[1..] == services[i + 1..];
        KeptUnfolds(rest, start, end);
        if !(services[i].start <= end && EndOf(services[i]) >= start) {
          assert kept + ([services[i]] + Kept(rest[1..], start, end)) == kept + [services[i]] + Kept(rest[1..], start, end);
          kept := kept + [services[i]];
        }
        i := i + 1;
      }
      KeptOfNone(services[i..], start, end);
      assert kept + [] == kept;
    }

    method ClearRange(start: int, end: int) returns (ok: bool)
      modifies this
      ensures Value() == Clear(old(Value()), start, end) && ok == (start <= end)
    {
      if start > end {
        return false;
      }
      if start == 1 && end == MAX_HANDLE {
        services := [];
      } else {
        services := RemoveOverlapping(start, end);
      }
      if services == [] {
        nextHandle := 0;
      }
      return true;
    }

    method GetAttributeIndex(s: Svc, spare: nat) returns (i: nat)
      requires 1 <= |s.attrs|
      ensures i == if spare < |s.attrs| then FreeIndex(s, spare) else 0
    {
      if spare >= |s.attrs| {
        return 0;
      }
      i := 0;
      while i < |s.attrs| - spare && s.attrs[i].Some?
        invariant i <= |s.attrs| - spare && forall j :: 0 <= j < i ==> s.attrs[j].Some?
      {
        i := i + 1;
      }
      FilledIs(s.attrs, i);
      if i == |s.attrs| - spare {
        return 0;
      }
    }

    method ServiceAddCharacteristic(index: nat, uuid: seq<byte>) returns (ok: bool)
      requires index < |services| && |services[index].attrs| >= 1
      modifies this`services
      ensures Value() == Apply(old(Value()), InsertCharacteristic(index, uuid))
      ensures ok == AddCharacteristic(old(services[index]), uuid).Some?
    {
      var s := services[index];
      var i := GetAttributeIndex(s, 1);
      if i == 0 {
        return false;
      }
      var handle := s.attrs[i - 1].value.handle + 2;
      s := s.(attrs := s.attrs[i := Some(Attr(handle - 1, Le16(0x2803)))]);
      s := s.(attrs := s.attrs[i + 1 := Some(Attr(handle, uuid))]);
      services := services[index := s];
      return true;
    }

    method ServiceAddDescriptor(index: nat, uuid: seq<byte>) returns (ok: bool)
      requires index < |services| && |services[index].attrs| >= 1
      modifies this`services
      ensures Value() == Apply(old(Value()), InsertDescriptor(index, uuid))
      ensures ok == AddDescriptor(old(services[index]), uuid).Some?
    {
      var s := services[index];
      var i := GetAttributeIndex(s, 0);
      if i == 0 {
        return false;
      }
      services := services[index := s.(attrs := s.attrs[i := Some(Attr(s.attrs[i - 1].value.handle + 1, uuid))])];
      return true;
    }

    /** Finds the attribute with a handle: first its service, then its place in it. */
    method Lookup(handle: int) returns (a: Option<Attr>)
      ensures a == GetAttribute(Value(), handle)
    {
      if handle == 0 {
        return None;
      }
      var i := 0;
      while i < |services| && !(services[i].start <= handle <= EndOf(services[i]))
        invariant i <= |services| && ServiceAt(services, handle) == i + ServiceAt(services[i..], handle)
      {
        assert services[i..][1..] == services[i + 1..];
        i := i + 1;
      }
      if i == |services| {
        return None;
      }
      assert services[i..][0] == services[i];
      var attrs, k := services[i].attrs, 0;
      while k < |attrs|
        invariant k <= |attrs| && AttrAt(attrs, handle) == AttrAt(attrs[k..], handle)
      {
        assert attrs[k..][1..] == attrs[k + 1..];
        if attrs[k].Some? && attrs[k].value.handle == handle {
          return attrs[k];
        }
        k := k + 1;
      }
      return None;
    }

    /** Visits the attributes of the active services in a range of handles. */
    method ForeachInRange(start: int, end: int, uuid: Option<seq<byte>>) returns (visited: seq<Attr>)
      ensures visited == if start > end then [] else InRange(services, start, end, uuid)
    {
      hide InService, InRange, GattDiscovery.Uuid128;
      visited := [];
      if start > end {
        return;
      }
      var i := 0;
      assert services[0..] == services;
      while i < |services|
        invariant i <= |services| && visited + InRange(services[i..], start, end, uuid) == InRange(services, start, end, uuid)
      {
        ghost var rest := services[i..];
        assert rest[0] == services[i] && rest[1..] == services[i + 1..];
        InRangeUnfolds(rest, start, end, uuid);
        if services[i].active && services[i].start <= end && EndOf(services[i]) >= start {
          var here := ForeachInService(services[i], start, end, uuid);
          assert visited + (here + InRange(rest[1..], start, end, uuid)) == visited + here + InRange(rest[1..], start, end, uuid);
          visited := visited + here;
        }
        i := i + 1;
      }
      InRangeOfNone(services[i..], start, end, uuid);
      assert visited + [] == visited;
    }

    method ForeachInService(s: Svc, start: int, end: int, uuid: Option<seq<byte>>) returns (visited: seq<Attr>)
      ensures visited == InService(s.attrs, start, end, uuid)
    {
      hide GattDiscovery.Uuid128;
      visited := [];
      var k := 0;
      while k < |s.attrs|
        invariant k <= |s.attrs|
        invariant visited + InService(s.attrs[k..], start, end, uuid) == InService(s.attrs, start, end, uuid)
      {
        ghost var rest := s.attrs[k..];
        assert rest[0] == s.attrs[k] && rest[1..] == s.attrs[k + 1..];
        if s.attrs[k].None? || s.attrs[k].value.handle < start {
        } else if s.attrs[k].value.handle > end {
          assert visited + [] == visited;
          return;
        } else if uuid.Some? && GattDiscovery.Uuid128(uuid.value) != GattDiscovery.Uuid128(s.attrs[k].value.uuid) {
          assert [] + InService(rest[1..], start, end, uuid) == InService(rest[1..], start, end, uuid);
        } else {
          var a := s.attrs[k].value;
          assert visited + ([a] + InService(rest[1..], start, end, uuid)) == visited + [a] + InService(rest[1..], start, end, uuid);
          visited := visited + [a];
        }
        k := k + 1;
      }
      assert visited + [] == visited;
    }
  }

  lemma KeptOfNone(services: seq<Svc>, start: int, end: int)
    requires services == []
    ensures Kept(services, start, end) == []
  {
  }

  lemma InRangeUnfolds(services: seq<Svc>, start: int, end: int, uuid: Option<seq<byte>>)
    requires services != []
    ensures var s, rest := services[0], InRange(services[1..], start, end, uuid);
      InRange(services, start, end, uuid) ==
        if s.active && Overlaps(s, start, end) then InService(s.attrs, start, end, uuid) + rest else rest
  {
    hide InService;
    assert [] + InRange(services[1..], start, end, uuid) == InRange(services[1..], start, end, uuid);
  }

  lemma InRangeOfNone(services: seq<Svc>, start: int, end: int, uuid: Option<seq<byte>>)
    requires services == []
    ensures InRange(services, start, end, uuid) == []
  {
  }

  /** The leading attributes that are there end at the first that is not. */
  lemma {:induction false} FilledIs(attrs: seq<Option<Attr>>, i: nat)
    requires i <= |attrs| && forall j :: 0 <= j < i ==> attrs[j].Some?
    ensures Filled(attrs) >= i && (i < |attrs| && attrs[i].None? ==> Filled(attrs) == i)
  {
    if i > 0 {
      FilledIs(attrs[1..], i - 1);
    }
  }
}
