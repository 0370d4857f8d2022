/**
 The attribute database: a list of services with ranges of handles, each holding attributes.
 When the list stays sorted and disjoint, and how attributes are found again.
 */
module GattDb {
  import opened Bytes
  import opened Gatt
  import GattDiscovery

  datatype Attr = Attr(handle: int, uuid: seq<byte>)

  /** A service of `|attrs|` handles from `start` on; attribute 0 is its declaration. */
  datatype Svc = Svc(start: int, kind: int, uuid: seq<byte>, attrs: seq<Option<Attr>>, active: bool)

  function EndOf(s: Svc): int { s.start + |s.attrs| - 1 }

  datatype Db = Db(services: seq<Svc>, next: int)

  // ------------------------------------------------------------------ services

  /** What looking for the place of a range finds: a service in the way, or the number of
      services that stay in front. */
  datatype Place = Clash(index: nat) | Free(after: nat)

  /** Goes through the list from `i` on. A service clashes when an end of the new range lies in
      it; nothing looks for a service inside the new range. */
  function FindPlace(services: seq<Svc>, start: int, end: int, i: nat): (p: Place)
    requires i <= |services|
    ensures p.Clash? ==> i <= p.index < |services|
    ensures p.Free? ==> i <= p.after <= |services|
    decreases |services| - i
  {
    if i == |services| then Free(i)
    else
      var s := services[i];
      if s.start <= start <= EndOf(s) || s.start <= end <= EndOf(s) then Clash(i)
      else if end < s.start then Free(i)
      else FindPlace(services, start, end, i + 1)
  }

  function Declared(start: int, kind: int, uuid: seq<byte>, num: nat): (s: Svc)
    requires num >= 1
    ensures |s.attrs| == num && s.start == start && EndOf(s) == start + num - 1
  {
    Svc(start, kind, uuid, [Some(Attr(start, Le16(kind)))] + seq(num - 1, i => None), false)
  }

  function Max(a: int, b: int): int { if a > b then a else b }

  /** The handle a new service gets: the one asked for, or the next free one. */
  function HandleFor(db: Db, handle: int): int { if handle == 0 then db.next else handle }

  predicate SameService(s: Svc, start: int, kind: int, uuid: seq<byte>, num: nat) {
    s.kind == kind && GattDiscovery.Uuid128(s.uuid) == GattDiscovery.Uuid128(uuid) && |s.attrs| == num && s.start == start
  }

  /** Inserts a service; `next` is a 16-bit number. The result says which service it is, if
      any: inserting a service that is there already finds it. */
  function Insert(db: Db, handle: int, kind: int, uuid: seq<byte>, num: nat): (r: (Db, Option<nat>))
    ensures r.1.Some? ==> r.1.value < |r.0.services|
  {
    var h := HandleFor(db, handle);
    if num < 1 || h + num - 1 > MAX_HANDLE then (db, None)
    else
      match FindPlace(db.services, h, h + num - 1, 0)
      case Clash(i) => (db, if SameService(db.services[i], h, kind, uuid, num) then Some(i) else None)
      case Free(n) =>
        (Db(db.services[..n] + [Declared(h, kind, uuid, num)] + db.services[n..], Max(h + num, db.next) % 0x10000), Some(n))
  }

  /** Sorted, disjoint, within 16-bit handles. */
  ghost predicate Sorted(services: seq<Svc>) {
    && (forall i :: 0 <= i < |services| ==> services[i].start >= 1 && EndOf(services[i]) <= MAX_HANDLE && |services[i].attrs| >= 1)
    && forall i, j :: 0 <= i < j < |services| ==> EndOf(services[i]) < services[j].start
  }

  /** The new range has room for a whole service on both sides of its ends. */
  predicate Contains(start: int, end: int, s: Svc) { start < s.start && EndOf(s) < end }

  lemma {:induction false} FreePlace(services: seq<Svc>, start: int, end: int, i: nat)
    requires Sorted(services) && i <= |services| && start <= end && FindPlace(services, start, end, i).Free?
    requires forall j :: 0 <= j < i ==> EndOf(services[j]) < end
    ensures var n := FindPlace(services, start, end, i).after;
      && (forall j :: i <= j < n ==> EndOf(services[j]) < start || Contains(start, end, services[j]))
      && forall j :: n <= j < |services| ==> end < services[j].start
    decreases |services| - i
  {
    if i < |services| && !(end < services[i].start) {
      FreePlace(services, start, end, i + 1);
    }
  }

  /** What inserting a service at a free place does. */
  lemma InsertAtPlace(db: Db, handle: int, kind: int, uuid: seq<byte>, num: nat, n: nat)
    requires num >= 1 && HandleFor(db, handle) + num - 1 <= MAX_HANDLE && n <= |db.services|
    requires FindPlace(db.services, HandleFor(db, handle), HandleFor(db, handle) + num - 1, 0) == Free(n)
    ensures var h := HandleFor(db, handle);
      Insert(db, handle, kind, uuid, num) ==
        (Db(db.services[..n] + [Declared(h, kind, uuid, num)] + db.services[n..], Max(h + num, db.next) % 0x10000), Some(n))
  {
  }

  lemma InsertElsewhere(db: Db, handle: int, kind: int, uuid: seq<byte>, num: nat)
    requires num < 1 || HandleFor(db, handle) + num - 1 > MAX_HANDLE
      || FindPlace(db.services, HandleFor(db, handle), HandleFor(db, handle) + num - 1, 0).Clash?
    ensures Insert(db, handle, kind, uuid, num).0 == db
  {
  }

  /** One of the ends of the new range lies in the service. */
  predicate Touches(start: int, end: int, s: Svc) { s.start <= start <= EndOf(s) || s.start <= end <= EndOf(s) }

  /** In a sorted list the search finds a service in the way exactly when there is one. */
  lemma {:induction false} ClashIsTouch(services: seq<Svc>, start: int, end: int, i: nat)
    requires Sorted(services) && i <= |services| && start <= end
    ensures FindPlace(services, start, end, i).Clash? <==> exists j :: i <= j < |services| && Touches(start, end, services[j])
    decreases |services| - i
  {
    if i < |services| {
      ClashIsTouch(services, start, end, i + 1);
    }
  }

  /** What a caller can see before inserting: the service is refused, because there are no
      handles for it or an end of its range is taken; or it has a handle other than 0 and no
      service within its range. */
  ghost predicate Harmless(db: Db, handle: int, num: nat) {
    var h, e := HandleFor(db, handle), HandleFor(db, handle) + num - 1;
    || num < 1 || e > MAX_HANDLE
    || (exists i :: 0 <= i < |db.services| && Touches(h, e, db.services[i]))
    || (h >= 1 && forall i :: 0 <= i < |db.services| ==> !Contains(h, e, db.services[i]))
  }

  /** Inserting keeps the list sorted and disjoint exactly when it is harmless. */
  lemma InsertKeepsSortedIff(db: Db, handle: int, kind: int, uuid: seq<byte>, num: nat)
    requires Sorted(db.services)
    ensures Sorted(Insert(db, handle, kind, uuid, num).0.services) <==> Harmless(db, handle, num)
  {
    hide Insert, FindPlace, Declared, Contains, Touches;
    var h, e := HandleFor(db, handle), HandleFor(db, handle) + num - 1;
    if num >= 1 && e <= MAX_HANDLE {
      ClashIsTouch(db.services, h, e, 0);
    }
    if num >= 1 && e <= MAX_HANDLE && FindPlace(db.services, h, e, 0).Free? {
      var n := FindPlace(db.services, h, e, 0).after;
      InsertAtPlace(db, handle, kind, uuid, num, n);
      if h >= 1 {
        FreePlace(db.services, h, e, 0);
        InsertedAt(db.services, n, Declared(h, kind, uuid, num));
      } else {
        assert Insert(db, handle, kind, uuid, num).0.services[n].start == h;
      }
    } else {
      InsertElsewhere(db, handle, kind, uuid, num);
    }
  }

  /** An insertion that is not harmless: a range around a service. */
  lemma AroundAService(kind: int, uuid: seq<byte>)
    ensures var db := Db([Declared(5, kind, uuid, 2)], 7);
      && Sorted(db.services) && NextIsFree(db)
      && var r := Insert(db, 3, kind, uuid, 10);
         r.1.Some? && !Sorted(r.0.services)
  {
    var db := Db([Declared(5, kind, uuid, 2)], 7);
    assert Contains(3, 12, db.services[0]);
    InsertKeepsSortedIff(db, 3, kind, uuid, 10);
  }

  lemma InsertedAt(services: seq<Svc>, n: nat, s: Svc)
    requires Sorted(services) && n <= |services| && s.start >= 1 && EndOf(s) <= MAX_HANDLE && |s.attrs| >= 1
    requires forall j :: n <= j < |services| ==> EndOf(s) < services[j].start
    requires forall j :: 0 <= j < n ==> EndOf(services[j]) < s.start || Contains(s.start, EndOf(s), services[j])
    ensures Sorted(services[..n] + [s] + services[n..]) <==> forall j :: 0 <= j < |services| ==> !Contains(s.start, EndOf(s), services[j])
  {
    var after := services[..n] + [s] + services[n..];
    assert forall j :: 0 <= j < |after| ==> after[j] == if j < n then services[j] else if j == n then s else services[j - 1];
    if j :| 0 <= j < |services| && Contains(s.start, EndOf(s), services[j]) {
      assert j < n && after[j] == services[j] && after[n] == s;
    }
  }

  /** Every service ends below the next automatic handle. */
  ghost predicate NextIsFree(db: Db) { db.next >= 1 && forall i :: 0 <= i < |db.services| ==> EndOf(db.services[i]) < db.next }

  lemma {:induction false} NothingInTheWay(services: seq<Svc>, start: int, end: int, i: nat)
    requires i <= |services| && start <= end && forall j :: 0 <= j < |services| ==> EndOf(services[j]) < start
    requires forall j :: 0 <= j < |services| ==> services[j].start <= EndOf(services[j])
    ensures FindPlace(services, start, end, i) == Free(|services|)
    decreases |services| - i
  {
    if i < |services| {
      NothingInTheWay(services, start, end, i + 1);
    }
  }

  /** An automatic handle puts the service at the end of the list, as long as handles last. */
  lemma AutomaticAppends(db: Db, kind: int, uuid: seq<byte>, num: nat)
    requires Sorted(db.services) && NextIsFree(db) && num >= 1
    ensures var r := Insert(db, 0, kind, uuid, num);
      if db.next + num - 1 <= MAX_HANDLE then
        && r.0.services == db.services + [Declared(db.next, kind, uuid, num)] && r.1 == Some(|db.services|)
        && Sorted(r.0.services) && (db.next + num <= MAX_HANDLE ==> NextIsFree(r.0))
      else r == (db, None)
  {
    if db.next + num - 1 <= MAX_HANDLE {
      NothingInTheWay(db.services, db.next, db.next + num - 1, 0);
      hide Insert, FindPlace, Declared;
      var n, s := |db.services|, Declared(db.next, kind, uuid, num);
      InsertAtPlace(db, 0, kind, uuid, num, n);
      assert db.services[..n] + [s] + db.services[n..] == db.services + [s];
    }
  }

  /** Inserting with a handle of one's own keeps the automatic handle free, unless the range
      reaches the last handle. */
  lemma InsertKeepsNextFree(db: Db, handle: int, kind: int, uuid: seq<byte>, num: nat)
    requires NextIsFree(db) && db.next <= MAX_HANDLE && 1 <= handle && handle + num <= MAX_HANDLE
    ensures NextIsFree(Insert(db, handle, kind, uuid, num).0)
  {
  }

  /** A service overlaps a range of handles. */
  predicate Overlaps(s: Svc, start: int, end: int) { s.start <= end && EndOf(s) >= start }

  function Kept(services: seq<Svc>, start: int, end: int): seq<Svc> {
    if services == [] then []
    else (if Overlaps(services[0], start, end) then [] else [services[0]]) + Kept(services[1..], start, end)
  }

  /** Clears a range: the services that overlap it go. An empty database hands out handle 0
      next. */
  function Clear(db: Db, start: int, end: int): Db {
    if start > end then db
    else
      var left := if start == 1 && end == MAX_HANDLE then [] else Kept(db.services, start, end);
      Db(left, if left == [] then 0 else db.next)
  }

  lemma {:induction false} KeptIsPart(services: seq<Svc>, start: int, end: int)
    ensures forall s :: s in Kept(services, start, end) <==> s in services && !Overlaps(s, start, end)
  {
    if services != [] {
      KeptIsPart(services[1..], start, end);
      assert services == [services[0]] + services[1..];
    }
  }

  lemma {:induction false} KeptIsSorted(services: seq<Svc>, start: int, end: int)
    requires Sorted(services)
    ensures Sorted(Kept(services, start, end))
  {
    if services != [] {
      KeptIsPart(services[1..], start, end);
      assert forall s :: s in services[1..] ==> EndOf(services[0]) < s.start;
      KeptIsSorted(services[1..], start, end);
      var rest := Kept(services[1..], start, end);
      assert forall s :: s in rest ==> EndOf(services[0]) < s.start;
      hide Kept;
      SortedCons(services[0], rest);
      KeptUnfolds(services, start, end);
    }
  }

  lemma KeptUnfolds(services: seq<Svc>, start: int, end: int)
    requires services != []
    ensures var rest := Kept(services[1..], start, end);
      Kept(services, start, end) == if Overlaps(services[0], start, end) then rest else [services[0]] + rest
  {
  }

  lemma SortedCons(s: Svc, services: seq<Svc>)
    requires Sorted(services) && s.start >= 1 && EndOf(s) <= MAX_HANDLE && |s.attrs| >= 1
    requires forall t :: t in services ==> EndOf(s) < t.start
    ensures Sorted([s] + services)
  {
  }

  lemma {:induction false} KeptIsEmptyIff(services: seq<Svc>, start: int, end: int)
    ensures Kept(services, start, end) == [] <==> forall i :: 0 <= i < |services| ==> Overlaps(services[i], start, end)
  {
    if services != [] {
      KeptIsEmptyIff(services[1..], start, end);
    }
  }

  /** Clearing keeps the order and a free automatic handle; it sets the next handle to 0 exactly
      when every service overlaps the range, also when there is none. */
  lemma ClearKeepsSorted(db: Db, start: int, end: int)
    requires Sorted(db.services)
    ensures Sorted(Clear(db, start, end).services)
    ensures Clear(db, start, end).next == 0 <==>
      db.next == 0 || (start <= end && forall i :: 0 <= i < |db.services| ==> Overlaps(db.services[i], start, end))
    ensures NextIsFree(db) && Clear(db, start, end).next != 0 ==> NextIsFree(Clear(db, start, end))
  {
    KeptIsSorted(db.services, start, end);
    KeptIsPart(db.services, start, end);
    KeptIsEmptyIff(db.services, start, end);
    var left := Kept(db.services, start, end);
    forall i | 0 <= i < |left|
      ensures left[i] in db.services
    {
    }
  }

  /** After a clearing that empties the database, every service that is then added without a
      handle of its own, and for which there are handles, gets handle 0, which no attribute may
      have. */
  lemma EmptiedHandsOutZero(db: Db, start: int, end: int, kind: int, uuid: seq<byte>, num: nat)
    requires Sorted(db.services) && start <= end && 1 <= num <= MAX_HANDLE + 1
    requires forall i :: 0 <= i < |db.services| ==> Overlaps(db.services[i], start, end)
    ensures var r := Insert(Clear(db, start, end), 0, kind, uuid, num);
      r.0.services == [Declared(0, kind, uuid, num)] && r.1 == Some(0) && !Sorted(r.0.services)
  {
    KeptIsEmptyIff(db.services, start, end);
    var none := Clear(db, start, end);
    assert none == Db([], 0);
    assert FindPlace(none.services, 0, num - 1, 0) == Free(0);
    InsertAtPlace(none, 0, kind, uuid, num, 0);
    assert Insert(none, 0, kind, uuid, num).0.services[0].start == 0;
  }

  /** A service as it was asked for: declared, not active, with places for its attributes. */
  ghost predicate IsNew(s: Svc, h: int, kind: int, uuid: seq<byte>, num: nat) {
    && s.start == h && |s.attrs| == num && s.kind == kind && s.uuid == uuid && !s.active
    && num >= 1 && s.attrs[0] == Some(Attr(h, [kind % 256, kind / 256 % 256])) && forall k :: 1 <= k < num ==> s.attrs[k].None?
  }

  /** Is an end of the range taken? */
  ghost predicate Taken(services: seq<Svc>, start: int, end: int) {
    exists i :: 0 <= i < |services| && Touches(start, end, services[i])
  }

  /** What an insertion is answered with: nothing when there are no handles for the service, or an end
      of its range lies in a service that is not the same; that service when it is the same;
      else the new service, which is there with all it was given, and all others as before. */
  lemma InsertionIsExact(db: Db, handle: int, kind: int, uuid: seq<byte>, num: nat)
    requires Sorted(db.services)
    ensures var h := HandleFor(db, handle);
      var e, t, at := h + num - 1, Insert(db, handle, kind, uuid, num).0, Insert(db, handle, kind, uuid, num).1;
      if num < 1 || e > MAX_HANDLE then t == db && at.None?
      else if Taken(db.services, h, e) then
        && t == db
        && (at.Some? ==> SameService(db.services[at.value], h, kind, uuid, num))
        && (at.None? ==> forall i :: 0 <= i < |db.services| ==> !SameService(db.services[i], h, kind, uuid, num))
      else
        && at.Some? && IsNew(t.services[at.value], h, kind, uuid, num) && Without(t.services, at.value) == db.services
  {
    hide SameService, Sorted, IsNew, FindPlace;
    var h := HandleFor(db, handle);
    var e := h + num - 1;
    if num >= 1 && e <= MAX_HANDLE {
      ClashIsTouch(db.services, h, e, 0);
      var place := FindPlace(db.services, h, e, 0);
      if place.Clash? {
        OnlyTheClash(db.services, h, kind, uuid, num, place.index);
      } else {
        InsertAtPlace(db, handle, kind, uuid, num, place.after);
        NewIsThere(db.services, place.after, h, kind, uuid, num);
      }
    }
  }

  lemma NewIsThere(services: seq<Svc>, n: nat, h: int, kind: int, uuid: seq<byte>, num: nat)
    requires n <= |services| && num >= 1
    ensures var t := services[..n] + [Declared(h, kind, uuid, num)] + services[n..];
      IsNew(t[n], h, kind, uuid, num) && Without(t, n) == services
  {
  }

  /** A service with the same first handle can only be the one that is in the way. */
  lemma OnlyTheClash(services: seq<Svc>, start: int, kind: int, uuid: seq<byte>, num: nat, c: nat)
    requires Sorted(services) && num >= 1 && FindPlace(services, start, start + num - 1, 0) == Clash(c)
    ensures c < |services|
    ensures !SameService(services[c], start, kind, uuid, num) ==>
      forall i :: 0 <= i < |services| ==> !SameService(services[i], start, kind, uuid, num)
  {
    ClashComesFirst(services, start, start + num - 1, 0);
    forall i | 0 <= i < |services| && SameService(services[i], start, kind, uuid, num)
      ensures i == c
    {
      assert Touches(start, start + num - 1, services[i]);
    }
  }

  lemma {:induction false} ClashComesFirst(services: seq<Svc>, start: int, end: int, i: nat)
    requires Sorted(services) && i <= |services| && start <= end && FindPlace(services, start, end, i).Clash?
    ensures var c := FindPlace(services, start, end, i).index;
      Touches(start, end, services[c]) && forall j :: i <= j < c ==> !Touches(start, end, services[j])
    decreases |services| - i
  {
    if i < |services| && !Touches(start, end, services[i]) {
      ClashComesFirst(services, start, end, i + 1);
    }
  }

  /** A clearing takes out the services that overlap the range and no others. */
  lemma ClearingIsExact(db: Db, start: int, end: int, s: Svc)
    requires Sorted(db.services)
    ensures s in Clear(db, start, end).services <==> s in db.services && (start > end || !Overlaps(s, start, end))
  {
    KeptIsPart(db.services, start, end);
  }

  // ------------------------------------------------------------------ attributes

  /** Number of leading attributes that are there. */
  function Filled(attrs: seq<Option<Attr>>): (n: nat)
    ensures n <= |attrs|
    ensures forall i :: 0 <= i < n ==> attrs[i].Some?
    ensures n < |attrs| ==> attrs[n].None?
  {
    if attrs == [] || attrs[0].None? then 0 else Filled(attrs[1..]) + 1
  }

  /** The first free place with `spare` places behind it, 0 if there is none. */
  function FreeIndex(s: Svc, spare: nat): (i: nat)
    requires spare < |s.attrs|
    ensures i > 0 ==> i < |s.attrs| - spare && i == Filled(s.attrs)
  {
    if Filled(s.attrs) < |s.attrs| - spare then Filled(s.attrs) else 0
  }

  /** Adds a characteristic: its declaration and its value, with automatic handles. */
  function AddCharacteristic(s: Svc, uuid: seq<byte>): Option<Svc>
    requires |s.attrs| >= 1
  {
    var i := if |s.attrs| > 1 then FreeIndex(s, 1) else 0;
    if i == 0 then None
    else
      var handle := s.attrs[i - 1].value.handle + 2;
      Some(s.(attrs := s.attrs[i := Some(Attr(handle - 1, Le16(0x2803)))][i + 1 := Some(Attr(handle, uuid))]))
  }

  /** Adds a descriptor or an include with an automatic handle. */
  function AddDescriptor(s: Svc, uuid: seq<byte>): Option<Svc>
    requires |s.attrs| >= 1
  {
    var i := FreeIndex(s, 0);
    if i == 0 then None else Some(s.(attrs := s.attrs[i := Some(Attr(s.attrs[i - 1].value.handle + 1, uuid))]))
  }

  /** Attribute `i` of a service has handle `start + i`, and there are no gaps. */
  ghost predicate Numbered(s: Svc) {
    && |s.attrs| >= 1 && s.attrs[0].Some?
    && (forall i :: 0 <= i < |s.attrs| && s.attrs[i].Some? ==> s.attrs[i].value.handle == s.start + i)
    && forall i, j :: 0 <= i < j < |s.attrs| && s.attrs[j].Some? ==> s.attrs[i].Some?
  }

  lemma DeclaredIsNumbered(start: int, kind: int, uuid: seq<byte>, num: nat)
    requires num >= 1
    ensures Numbered(Declared(start, kind, uuid, num))
  {
  }

  /** The automatic handles keep the numbering and take the next free places. */
  lemma AddingKeepsNumbered(s: Svc, uuid: seq<byte>)
    requires Numbered(s)
    ensures AddCharacteristic(s, uuid).Some? <==> Filled(s.attrs) + 2 <= |s.attrs|
    ensures AddDescriptor(s, uuid).Some? <==> Filled(s.attrs) + 1 <= |s.attrs|
    ensures AddCharacteristic(s, uuid).Some? ==>
      var t := AddCharacteristic(s, uuid).value; Numbered(t) && t.start == s.start && |t.attrs| == |s.attrs|
    ensures AddDescriptor(s, uuid).Some? ==>
      var t := AddDescriptor(s, uuid).value; Numbered(t) && t.start == s.start && |t.attrs| == |s.attrs|
  {
    var n := Filled(s.attrs);
    assert n >= 1;
    assert forall i :: n <= i < |s.attrs| ==> s.attrs[i].None?;
  }

  /** What is added: a characteristic is its declaration and then its value, a descriptor one
      attribute, at the next handles; everything else stays as it is. */
  lemma AddedIsExact(s: Svc, uuid: seq<byte>)
    requires Numbered(s)
    ensures var n := Filled(s.attrs);
      && (AddCharacteristic(s, uuid).Some? ==>
            AddCharacteristic(s, uuid).value == s.(attrs := s.attrs[n := Some(Attr(s.start + n, [0x03, 0x28]))]
                                                                   [n + 1 := Some(Attr(s.start + n + 1, uuid))]))
      && (AddDescriptor(s, uuid).Some? ==>
            AddDescriptor(s, uuid).value == s.(attrs := s.attrs[n := Some(Attr(s.start + n, uuid))]))
  {
    assert Filled(s.attrs) >= 1;
    assert Le16(0x2803) == [0x03, 0x28];
  }

  ghost predicate Valid(db: Db) { Sorted(db.services) && forall i :: 0 <= i < |db.services| ==> Numbered(db.services[i]) }

  /** Index of the first service whose range holds a handle, or the length of the list. */
  function ServiceAt(services: seq<Svc>, handle: int): (i: nat)
    ensures i <= |services| && (i < |services| ==> services[i].start <= handle <= EndOf(services[i]))
    ensures forall j :: 0 <= j < i ==> !(services[j].start <= handle <= EndOf(services[j]))
  {
    if services == [] || services[0].start <= handle <= EndOf(services[0]) then 0 else ServiceAt(services[1..], handle) + 1
  }

  /** The first attribute of a service with a handle. */
  function AttrAt(attrs: seq<Option<Attr>>, handle: int): Option<Attr> {
    if attrs == [] then None
    else if attrs[0].Some? && attrs[0].value.handle == handle then attrs[0]
    else AttrAt(attrs[1..], handle)
  }

  function GetAttribute(db: Db, handle: int): Option<Attr> {
    if handle == 0 then None
    else
      var i := ServiceAt(db.services, handle);
      if i < |db.services| then AttrAt(db.services[i].attrs, handle) else None
  }

  /** The database as a map from handles to attributes. */
  ghost predicate IsAt(db: Db, handle: int, a: Attr) {
    exists i, k :: 0 <= i < |db.services| && 0 <= k < |db.services[i].attrs|
      && handle == db.services[i].start + k && db.services[i].attrs[k] == Some(a)
  }

  lemma {:induction false} AttrAtIndex(attrs: seq<Option<Attr>>, start: int, k: nat)
    requires k < |attrs| && forall i :: 0 <= i < |attrs| && attrs[i].Some? ==> attrs[i].value.handle == start + i
    ensures AttrAt(attrs, start + k) == attrs[k]
    decreases k
  {
    if k > 0 {
      assert forall i :: 0 <= i < |attrs[1..]| && attrs[1..][i].Some? ==> attrs[i + 1].value.handle == start + 1 + i;
      AttrAtIndex(attrs[1..], start + 1, k - 1);
    } else if attrs[0].None? {
      AttrAtNone(attrs[1..], start, start + 1);
    }
  }

  lemma {:induction false} AttrAtNone(attrs: seq<Option<Attr>>, handle: int, start: int)
    requires handle < start && forall i :: 0 <= i < |attrs| && attrs[i].Some? ==> attrs[i].value.handle == start + i
    ensures AttrAt(attrs, handle) == None
  {
    if attrs != [] {
      assert forall i :: 0 <= i < |attrs[1..]| && attrs[1..][i].Some? ==> attrs[i + 1].value.handle == start + 1 + i;
      AttrAtNone(attrs[1..], handle, start + 1);
    }
  }

  /** Ranges are disjoint, so the service found is the only one. */
  lemma OnlyService(services: seq<Svc>, j: nat, handle: int)
    requires Sorted(services) && j < |services| && services[j].start <= handle <= EndOf(services[j])
    ensures ServiceAt(services, handle) == j
  {
  }

  /** Looking a handle up finds exactly the attribute that has it. */
  lemma LookupIsExact(db: Db, handle: int, a: Attr)
    requires Valid(db)
    ensures GetAttribute(db, handle) == Some(a) <==> IsAt(db, handle, a)
  {
    hide Sorted;
    var i := ServiceAt(db.services, handle);
    if i < |db.services| {
      LookupInService(db.services[i], handle);
    }
    if IsAt(db, handle, a) {
      var j, k :| 0 <= j < |db.services| && 0 <= k < |db.services[j].attrs|
        && handle == db.services[j].start + k && db.services[j].attrs[k] == Some(a);
      OnlyService(db.services, j, handle);
      StartsAtOne(db.services, j);
    }
  }

  lemma LookupInService(s: Svc, handle: int)
    requires Numbered(s) && s.start <= handle <= EndOf(s)
    ensures AttrAt(s.attrs, handle) == s.attrs[handle - s.start]
  {
    AttrAtIndex(s.attrs, s.start, handle - s.start);
  }

  lemma StartsAtOne(services: seq<Svc>, j: nat)
    requires Sorted(services) && j < |services|
    ensures services[j].start >= 1
  {
  }

  // ------------------------------------------------------------------ iteration

  /** The attributes of one service that lie in a range and have a type, in order. The walk
      stops at the first attribute behind the range. */
  function InService(attrs: seq<Option<Attr>>, start: int, end: int, uuid: Option<seq<byte>>): seq<Attr> {
    if attrs == [] then []
    else if attrs[0].None? || attrs[0].value.handle < start then InService(attrs[1..], start, end, uuid)
    else if attrs[0].value.handle > end then []
    else (if Wanted(attrs[0].value, uuid) then [attrs[0].value] else []) + InService(attrs[1..], start, end, uuid)
  }

  predicate Wanted(a: Attr, uuid: Option<seq<byte>>) {
    uuid.Some? ==> GattDiscovery.Uuid128(uuid.value) == GattDiscovery.Uuid128(a.uuid)
  }

  function InRange(services: seq<Svc>, start: int, end: int, uuid: Option<seq<byte>>): seq<Attr> {
    if services == [] then []
    else
      (if services[0].active && Overlaps(services[0], start, end) then InService(services[0].attrs, start, end, uuid) else [])
      + InRange(services[1..], start, end, uuid)
  }

  ghost predicate Increasing(as_: seq<Attr>) { forall i, j :: 0 <= i < j < |as_| ==> as_[i].handle < as_[j].handle }

  lemma {:induction false} BehindRange(attrs: seq<Option<Attr>>, first: int, a: Attr)
    requires forall i :: 0 <= i < |attrs| && attrs[i].Some? ==> attrs[i].value.handle == first + i
    requires Some(a) in attrs
    ensures first <= a.handle < first + |attrs|
  {
    var i :| 0 <= i < |attrs| && attrs[i] == Some(a);
  }

  lemma {:induction false} InServiceHolds(attrs: seq<Option<Attr>>, first: int, start: int, end: int, uuid: Option<seq<byte>>, a: Attr)
    requires forall i :: 0 <= i < |attrs| && attrs[i].Some? ==> attrs[i].value.handle == first + i
    ensures a in InService(attrs, start, end, uuid) <==> Some(a) in attrs && start <= a.handle <= end && Wanted(a, uuid)
    decreases |attrs|
  {
    hide Wanted;
    if attrs != [] {
      var rest := attrs[1..];
      assert forall i :: 0 <= i < |rest| && rest[i].Some? ==> attrs[i + 1].value.handle == first + 1 + i;
      assert attrs == [attrs[0]] + rest;
      if Some(a) in rest {
        BehindRange(rest, first + 1, a);
      }
      InServiceHolds(rest, first + 1, start, end, uuid, a);
    }
  }

  lemma InServiceMembers(attrs: seq<Option<Attr>>, first: int, start: int, end: int, uuid: Option<seq<byte>>)
    requires forall i :: 0 <= i < |attrs| && attrs[i].Some? ==> attrs[i].value.handle == first + i
    ensures var r := InService(attrs, start, end, uuid);
      && (forall a :: a in r ==> first <= a.handle < first + |attrs|)
      && forall a :: a in r <==> Some(a) in attrs && start <= a.handle <= end && Wanted(a, uuid)
  {
    hide Wanted, InService;
    forall a
      ensures a in InService(attrs, start, end, uuid) <==> Some(a) in attrs && start <= a.handle <= end && Wanted(a, uuid)
      ensures a in InService(attrs, start, end, uuid) ==> first <= a.handle < first + |attrs|
    {
      InServiceHolds(attrs, first, start, end, uuid, a);
      if Some(a) in attrs {
        BehindRange(attrs, first, a);
      }
    }
  }

  lemma {:induction false} InServiceIsIncreasing(attrs: seq<Option<Attr>>, first: int, start: int, end: int, uuid: Option<seq<byte>>)
    requires forall i :: 0 <= i < |attrs| && attrs[i].Some? ==> attrs[i].value.handle == first + i
    ensures Increasing(InService(attrs, start, end, uuid))
    decreases |attrs|
  {
    hide Wanted;
    if attrs != [] {
      var rest := attrs[1..];
      assert forall i :: 0 <= i < |rest| && rest[i].Some? ==> attrs[i + 1].value.handle == first + 1 + i;
      InServiceMembers(rest, first + 1, start, end, uuid);
      InServiceIsIncreasing(rest, first + 1, start, end, uuid);
    }
  }

  /** The service that holds an attribute found by iteration. */
  ghost predicate FoundIn(services: seq<Svc>, a: Attr) { exists s :: s in services && s.active && Some(a) in s.attrs }

  lemma {:induction false} InRangeHolds(services: seq<Svc>, start: int, end: int, uuid: Option<seq<byte>>, a: Attr)
    requires forall i :: 0 <= i < |services| ==> Numbered(services[i])
    ensures a in InRange(services, start, end, uuid) <==> start <= a.handle <= end && Wanted(a, uuid) && FoundIn(services, a)
  {
    hide Wanted, InService;
    if services != [] {
      var s, rest := services[0], services[1..];
      assert services == [s] + rest;
      assert Numbered(s);
      forall i | 0 <= i < |rest|
        ensures Numbered(rest[i])
      {
        assert rest[i] == services[i + 1];
      }
      InRangeHolds(rest, start, end, uuid, a);
      InServiceHolds(s.attrs, s.start, start, end, uuid, a);
      if Some(a) in s.attrs {
        BehindRange(s.attrs, s.start, a);
      }
      hide Numbered;
    }
  }

  lemma {:induction false} InRangeIsIncreasing(services: seq<Svc>, start: int, end: int, uuid: Option<seq<byte>>)
    requires Sorted(services) && forall i :: 0 <= i < |services| ==> Numbered(services[i])
    ensures Increasing(InRange(services, start, end, uuid))
    ensures forall a :: a in InRange(services, start, end, uuid) ==> services != [] && a.handle >= services[0].start
  {
    hide Wanted, InService;
    if services != [] {
      var s, rest := services[0], services[1..];
      assert Numbered(s);
      forall i | 0 <= i < |rest|
        ensures Numbered(rest[i])
      {
        assert rest[i] == services[i + 1];
      }
      InRangeIsIncreasing(rest, start, end, uuid);
      InServiceMembers(s.attrs, s.start, start, end, uuid);
      InServiceIsIncreasing(s.attrs, s.start, start, end, uuid);
      assert rest != [] ==> EndOf(s) < rest[0].start;
      hide Numbered, Sorted;
      JoinIncreasing(InService(s.attrs, start, end, uuid), InRange(rest, start, end, uuid), EndOf(s));
      assert [] + InRange(rest, start, end, uuid) == InRange(rest, start, end, uuid);
    }
  }

  lemma JoinIncreasing(x: seq<Attr>, y: seq<Attr>, m: int)
    requires Increasing(x) && Increasing(y)
    requires (forall a :: a in x ==> a.handle <= m) && forall a :: a in y ==> a.handle > m
    ensures Increasing(x + y)
  {
    forall i, j | 0 <= i < j < |x + y|
      ensures (x + y)[i].handle < (x + y)[j].handle
    {
      assert i < |x| ==> x[i] in x;
      assert j >= |x| ==> y[j - |x|] in y;
    }
  }

  /** Iteration over a range yields the attributes of active services with a handle in the range
      and the type asked for, all of them, in increasing order of handles, so each once. */
  lemma IterationIsExact(services: seq<Svc>, start: int, end: int, uuid: Option<seq<byte>>)
    requires Sorted(services) && forall i :: 0 <= i < |services| ==> Numbered(services[i])
    ensures var r := InRange(services, start, end, uuid);
      && Increasing(r)
      && forall a :: a in r <==> start <= a.handle <= end && Wanted(a, uuid) && FoundIn(services, a)
  {
    hide *;
    InRangeIsIncreasing(services, start, end, uuid);
    forall a
      ensures a in InRange(services, start, end, uuid) <==> start <= a.handle <= end && Wanted(a, uuid) && FoundIn(services, a)
    {
      InRangeHolds(services, start, end, uuid, a);
    }
  }

  // ------------------------------------------------------------------ every run

  datatype Change =
    | InsertService(handle: int, kind: int, uuid: seq<byte>, num: nat)
    | ClearRange(start: int, end: int)
    | SetActive(i: nat, active: bool)
    | InsertCharacteristic(i: nat, uuid: seq<byte>)
    | InsertDescriptor(i: nat, uuid: seq<byte>)

  function Replaced(db: Db, i: nat, s: Option<Svc>): Db
    requires i < |db.services|
  {
    if s.Some? then db.(services := db.services[i := s.value]) else db
  }

  /** A change to a database. One to a service that is not there changes nothing. */
  function Apply(db: Db, c: Change): Db {
    match c
    case InsertService(handle, kind, uuid, num) => Insert(db, handle, kind, uuid, num).0
    case ClearRange(start, end) => Clear(db, start, end)
    case SetActive(i, active) => if i < |db.services| then Replaced(db, i, Some(db.services[i].(active := active))) else db
    case InsertCharacteristic(i, uuid) =>
      if i < |db.services| && |db.services[i].attrs| >= 1 then Replaced(db, i, AddCharacteristic(db.services[i], uuid)) else db
    case InsertDescriptor(i, uuid) =>
      if i < |db.services| && |db.services[i].attrs| >= 1 then Replaced(db, i, AddDescriptor(db.services[i], uuid)) else db
  }

  /** Activating a service changes nothing but its being active. */
  lemma ActivationIsExact(db: Db, i: nat, active: bool)
    ensures var t := Apply(db, SetActive(i, active));
      if i < |db.services| then
        t.next == db.next && t.services == db.services[i := db.services[i].(active := active)] && t.services[i].active == active
      else t == db
  {
  }

  /** The demand on whoever changes the database. */
  ghost predicate Safe(db: Db, c: Change) { c.InsertService? ==> Harmless(db, c.handle, c.num) }

  function Run(cs: seq<Change>): Db {
    if cs == [] then Db([], 1) else Apply(Run(cs[..|cs| - 1]), cs[|cs| - 1])
  }

  lemma InsertedAreNumbered(services: seq<Svc>, n: nat, s: Svc)
    requires n <= |services| && Numbered(s) && forall i :: 0 <= i < |services| ==> Numbered(services[i])
    ensures forall i :: 0 <= i <= |services| ==> Numbered((services[..n] + [s] + services[n..])[i])
  {
    hide Numbered;
    var after := services[..n] + [s] + services[n..];
    forall i | 0 <= i < |after|
      ensures Numbered(after[i])
    {
      assert after[i] == if i < n then services[i] else if i == n then s else services[i - 1];
    }
  }

  lemma InsertKeepsValid(db: Db, handle: int, kind: int, uuid: seq<byte>, num: nat)
    requires Valid(db) && Safe(db, InsertService(handle, kind, uuid, num))
    ensures Valid(Insert(db, handle, kind, uuid, num).0)
  {
    hide Sorted, Numbered, Insert, FindPlace, Declared, Harmless;
    InsertKeepsSortedIff(db, handle, kind, uuid, num);
    var h := HandleFor(db, handle);
    if num >= 1 && h + num - 1 <= MAX_HANDLE && FindPlace(db.services, h, h + num - 1, 0).Free? {
      var n := FindPlace(db.services, h, h + num - 1, 0).after;
      InsertAtPlace(db, handle, kind, uuid, num, n);
      DeclaredIsNumbered(h, kind, uuid, num);
      InsertedAreNumbered(db.services, n, Declared(h, kind, uuid, num));
    } else {
      InsertElsewhere(db, handle, kind, uuid, num);
    }
  }

  lemma ReplaceKeepsValid(db: Db, i: nat, s: Svc)
    requires Valid(db) && i < |db.services| && Numbered(s) && s.start == db.services[i].start && |s.attrs| == |db.services[i].attrs|
    ensures Valid(Replaced(db, i, Some(s)))
  {
    hide Numbered;
  }

  lemma ApplyKeepsValid(db: Db, c: Change)
    requires Valid(db) && Safe(db, c)
    ensures Valid(Apply(db, c))
  {
    hide Harmless;
    match c {
      case InsertService(handle, kind, uuid, num) => InsertKeepsValid(db, handle, kind, uuid, num);
      case ClearRange(start, end) =>
        ClearKeepsSorted(db, start, end);
        KeptIsPart(db.services, start, end);
        hide Sorted, Numbered, Kept;
        forall i | 0 <= i < |Clear(db, start, end).services|
          ensures Numbered(Clear(db, start, end).services[i])
        {
          assert Clear(db, start, end).services[i] in db.services;
        }
      case SetActive(i, active) =>
        if i < |db.services| {
          assert Numbered(db.services[i]);
          ReplaceKeepsValid(db, i, db.services[i].(active := active));
        }
      case InsertCharacteristic(i, uuid) =>
        if i < |db.services| {
          assert Numbered(db.services[i]);
          AddingKeepsNumbered(db.services[i], uuid);
          hide Numbered, Sorted, AddCharacteristic;
          if AddCharacteristic(db.services[i], uuid).Some? {
            ReplaceKeepsValid(db, i, AddCharacteristic(db.services[i], uuid).value);
          }
        }
      case InsertDescriptor(i, uuid) =>
        if i < |db.services| {
          assert Numbered(db.services[i]);
          AddingKeepsNumbered(db.services[i], uuid);
          hide Numbered, Sorted, AddDescriptor;
          if AddDescriptor(db.services[i], uuid).Some? {
            ReplaceKeepsValid(db, i, AddDescriptor(db.services[i], uuid).value);
          }
        }
    }
  }

  lemma UnsafeBreaks(db: Db, c: Change)
    requires Valid(db) && !Safe(db, c)
    ensures !Valid(Apply(db, c))
  {
    hide Harmless, Insert, Sorted;
    InsertKeepsSortedIff(db, c.handle, c.kind, c.uuid, c.num);
  }

  /** Along a run the services stay sorted and disjoint and the attributes numbered, so that
      lookup and iteration are exact in every state, exactly when every change is safe in the
      state it meets. */
  lemma {:induction false} EveryRunIsValidIff(cs: seq<Change>)
    ensures (forall k :: 0 <= k <= |cs| ==> Valid(Run(cs[..k]))) <==> forall k :: 0 <= k < |cs| ==> Safe(Run(cs[..k]), cs[k])
  {
    hide Apply, Safe, Valid;
    InitiallyValid();
    assert cs[..0] == [];
    if forall k :: 0 <= k < |cs| ==> Safe(Run(cs[..k]), cs[k]) {
      for n := 0 to |cs|
        invariant forall k :: 0 <= k <= n ==> Valid(Run(cs[..k]))
      {
        RunStep(cs, n);
        ApplyKeepsValid(Run(cs[..n]), cs[n]);
      }
    } else {
      var k :| 0 <= k < |cs| && !Safe(Run(cs[..k]), cs[k]);
      if Valid(Run(cs[..k])) {
        RunStep(cs, k);
        UnsafeBreaks(Run(cs[..k]), cs[k]);
      }
    }
  }

  lemma InitiallyValid()
    ensures Valid(Run([]))
  {
  }

  lemma RunStep(cs: seq<Change>, n: nat)
    requires n < |cs|
    ensures Run(cs[..n + 1]) == Apply(Run(cs[..n]), cs[n])
  {
    hide Apply;
    assert cs[..n + 1][..n] == cs[..n];
  }

  // ------------------------------------------------------------------ the database as discovery sees it

  function AsService(s: Svc): GattDiscovery.Service { GattDiscovery.Service(s.start, EndOf(s), s.kind, s.uuid, s.active) }

  function AsServices(services: seq<Svc>): (ss: seq<GattDiscovery.Service>)
    ensures |ss| == |services| && forall i :: 0 <= i < |services| ==> ss[i] == AsService(services[i])
  {
    seq(|services|, i requires 0 <= i < |services| => AsService(services[i]))
  }

  /** Discovery finds exactly what a valid database holds. */
  lemma DiscoveryOverDb(db: Db, mtu: nat, start: int, end: int, kind: int)
    requires Valid(db) && forall i :: 0 <= i < |db.services| ==> |db.services[i].uuid| in {2, 16}
    requires mtu >= MIN_MTU && 1 <= start <= end <= MAX_HANDLE && (kind == GattDiscovery.PRIMARY || kind == GattDiscovery.SECONDARY)
    ensures var all := AsServices(db.services);
      && GattDiscovery.Sorted(all)
      && var ss, p := GattDiscovery.Listed(all, start, end, GattDiscovery.Uuid16(kind)),
           GattDiscovery.Discover(all, mtu, GattDiscovery.Request(start, end, kind, []));
         p.success == (ss != []) && GattDiscovery.AllEntries(p.results) == GattDiscovery.Reports(ss, end)
  {
    assert GattDiscovery.Sorted(AsServices(db.services));
    hide *;
    GattDiscovery.DiscoveryIsExact(AsServices(db.services), mtu, start, end, kind);
  }
}
