/**
 The singly linked queue: every operation against the sequence it stands for, with `tail` the
 last node and `entries` the length throughout.
 */
module LinkedQueue {
  import opened Bytes

  // ------------------------------------------------------------------ on sequences

  /** Position of the first element that satisfies `p`, or the length. */
  function FirstWhere<T>(s: seq<T>, p: T -> bool): (i: nat)
    ensures i <= |s| && (i < |s| ==> p(s[i])) && forall j :: 0 <= j < i ==> !p(s[j])
  {
    if s == [] || p(s[0]) then 0 else FirstWhere(s[1..], p) + 1
  }

  function WithoutFirst<T>(s: seq<T>, p: T -> bool): seq<T> {
    var i := FirstWhere(s, p);
    if i < |s| then Without(s, i) else s
  }

  /** The elements that do not satisfy `p`, in order. */
  function Others<T>(s: seq<T>, p: T -> bool): (r: seq<T>)
    ensures |r| <= |s| && forall i :: 0 <= i < |r| ==> r[i] in s && !p(r[i])
  {
    if s == [] then [] else if p(s[0]) then Others(s[1..], p) else [s[0]] + Others(s[1..], p)
  }

  lemma WithoutFurther<T>(s: seq<T>, i: nat)
    requires 0 < i < |s|
    ensures Without(s, i) == [s[0]] + Without(s[1..], i - 1)
  {
    assert s[..i] == [s[0]] + s[1..][..i - 1];
  }

  /** Taking out an element that matches leaves the others the same. */
  lemma {:induction false} OthersWithout<T>(s: seq<T>, p: T -> bool, i: nat)
    requires i < |s| && p(s[i])
    ensures Others(Without(s, i), p) == Others(s, p)
    decreases i
  {
    if i == 0 {
      assert Without(s, 0) == s[1..];
    } else {
      var rest := Without(s[1..], i - 1);
      OthersWithout(s[1..], p, i - 1);
      WithoutFurther(s, i);
      assert ([s[0]] + rest)[1..] == rest;
    }
  }

  lemma {:induction false} AllAreOthers<T>(s: seq<T>, p: T -> bool)
    requires forall j :: 0 <= j < |s| ==> !p(s[j])
    ensures Others(s, p) == s
  {
    if s != [] {
      AllAreOthers(s[1..], p);
    }
  }

  /** Taking out the first one that matches leaves the others the same. */
  lemma WithoutFirstKeepsOthers<T>(s: seq<T>, p: T -> bool)
    ensures Others(WithoutFirst(s, p), p) == Others(s, p)
    ensures |WithoutFirst(s, p)| == if FirstWhere(s, p) < |s| then |s| - 1 else |s|
    ensures FirstWhere(s, p) == |s| ==> Others(s, p) == s && WithoutFirst(s, p) == s
  {
    hide Without, Others;
    if FirstWhere(s, p) < |s| {
      OthersWithout(s, p, FirstWhere(s, p));
    } else {
      AllAreOthers(s, p);
    }
  }

  /** An element put behind element `i`. */
  function Inserted<T>(s: seq<T>, i: nat, x: T): (r: seq<T>)
    requires i < |s|
    ensures |r| == |s| + 1 && forall j :: 0 <= j < |r| ==> r[j] == if j <= i then s[j] else if j == i + 1 then x else s[j - 1]
  {
    s[..i + 1] + [x] + s[i + 1..]
  }

  ghost predicate Distinct<T>(s: seq<T>) { forall i, j :: 0 <= i < j < |s| ==> s[i] != s[j] }

  lemma WithoutDistinct<T>(s: seq<T>, i: nat)
    requires Distinct(s) && i < |s|
    ensures Distinct(Without(s, i))
  {
  }

  lemma InsertedAt<T>(s: seq<T>, i: nat, x: T, j: nat)
    requires i < |s| && j <= |s|
    ensures |Inserted(s, i, x)| == |s| + 1
    ensures Inserted(s, i, x)[j] == if j <= i then s[j] else if j == i + 1 then x else s[j - 1]
  {
  }

  lemma InsertedDistinct<T>(s: seq<T>, i: nat, x: T)
    requires Distinct(s) && i < |s| && x !in s
    ensures Distinct(Inserted(s, i, x))
  {
  }

  lemma OthersDiffer<T>(s: seq<T>, i: nat)
    requires Distinct(s) && i < |s|
    ensures forall j :: 0 <= j < |s| && j != i ==> s[j] != s[i]
  {
  }

  // ------------------------------------------------------------------ the queue

  class Entry<T> {
    var data: T
    var next: Entry?<T>

    constructor (d: T, n: Entry?<T>)
      ensures data == d && next == n
    {
      data, next := d, n;
    }
  }

  /** The node that follows position `i`. */
  function Following<T>(s: seq<Entry<T>>, i: int): Entry?<T> { if 0 <= i + 1 < |s| then s[i + 1] else null }

  lemma FirstFollowing<T>(s: seq<Entry<T>>)
    ensures Following(s, -1) == if s == [] then null else s[0]
    ensures s != [] ==> Following(s, |s| - 1) == null
    ensures forall j :: 0 <= j < |s| - 1 ==> Following(s, j) == s[j + 1]
  {
  }

  lemma FollowingInserted<T>(s: seq<Entry<T>>, i: nat, x: Entry<T>, j: nat)
    requires i < |s| && j <= |s|
    ensures Following(Inserted(s, i, x), j) ==
      if j < i then Following(s, j) else if j == i then x else Following(s, j - 1)
  {
  }

  lemma FollowingWithout<T>(s: seq<Entry<T>>, i: nat, j: int)
    requires i < |s| && -1 <= j < |s| - 1
    ensures Following(Without(s, i), j) ==
      if j < i - 1 then Following(s, j) else Following(s, j + 1)
  {
  }

  /** What the nodes hold. */
  ghost predicate Hold<T>(spine: seq<Entry<T>>, contents: seq<T>)
    reads spine
  {
    |spine| == |contents| && forall i :: 0 <= i < |spine| ==> spine[i].data == contents[i]
  }

  /** Every node points to the next one. */
  ghost predicate Linked<T>(spine: seq<Entry<T>>)
    reads spine
  {
    forall i :: 0 <= i < |spine| ==> spine[i].next == Following(spine, i)
  }

  lemma InsertedLinked<T>(s: seq<Entry<T>>, i: nat, x: Entry<T>)
    requires i < |s| && s[i].next == x && x.next == Following(s, i)
    requires forall j :: 0 <= j < |s| && j != i ==> s[j].next == Following(s, j)
    ensures Linked(Inserted(s, i, x))
  {
    hide Inserted, Following;
    InsertedAt(s, i, x, 0);
    forall j | 0 <= j <= |s|
      ensures Inserted(s, i, x)[j].next == Following(Inserted(s, i, x), j)
    {
      FollowingInserted(s, i, x, j);
      InsertedAt(s, i, x, j);
    }
  }

  lemma InsertedHold<T>(s: seq<Entry<T>>, held: seq<T>, i: nat, x: Entry<T>)
    requires i < |s| && Hold(s, held)
    ensures Hold(Inserted(s, i, x), Inserted(held, i, x.data))
  {
  }

  lemma Appended<T>(s: seq<Entry<T>>, held: seq<T>, x: Entry<T>)
    requires x !in s && Distinct(s) && Hold(s, held) && x.next == null && (s != [] ==> s[|s| - 1].next == x)
    requires forall j :: 0 <= j < |s| - 1 ==> s[j].next == s[j + 1]
    ensures Linked(s + [x]) && Distinct(s + [x]) && Hold(s + [x], held + [x.data])
  {
  }

  lemma WithoutLinked<T>(s: seq<Entry<T>>, i: nat)
    requires i < |s| && (i > 0 ==> s[i - 1].next == Following(s, i))
    requires forall j :: 0 <= j < |s| && j != i - 1 ==> s[j].next == Following(s, j)
    ensures Linked(Without(s, i))
  {
    hide Following;
    forall j | 0 <= j < |s| - 1
      ensures Without(s, i)[j].next == Following(Without(s, i), j)
    {
      FollowingWithout(s, i, j);
    }
  }

  lemma WithoutHold<T>(s: seq<Entry<T>>, held: seq<T>, i: nat)
    requires i < |s| && Hold(s, held)
    ensures Hold(Without(s, i), Without(held, i))
  {
  }

  lemma InsertedEnds<T>(s: seq<T>, i: nat, x: T)
    requires i < |s|
    ensures var r := Inserted(s, i, x);
      && |r| == |s| + 1 && r[0] == s[0] && r[|s|] == (if i == |s| - 1 then x else s[|s| - 1])
      && forall y :: y in r ==> y in s || y == x
  {
  }

  lemma WithoutEnds<T>(s: seq<T>, i: nat)
    requires i < |s|
    ensures var r := Without(s, i);
      && |r| == |s| - 1
      && (r != [] ==> r[0] == (if i == 0 then s[1] else s[0]) && r[|r| - 1] == (if i == |s| - 1 then s[|s| - 2] else s[|s| - 1]))
      && forall y :: y in r ==> y in s
  {
  }

  class Queue<T(==)> {
    var head: Entry?<T>
    var tail: Entry?<T>
    var entries: nat
    ghost var spine: seq<Entry<T>>
    ghost var contents: seq<T>
    ghost var Repr: set<Entry<T>>

    /** The node after position `i`. */
    ghost function NextAt(i: int): Entry?<T>
      reads this
    {
      Following(spine, i)
    }

    /** The nodes from `head` on are the spine, all different, and `tail` is the last; `contents`
        is what they hold. */
    ghost predicate Valid()
      reads this, Repr
    {
      && (forall n :: n in spine ==> n in Repr)
      && entries == |spine| && Hold(spine, contents)
      && head == NextAt(-1)
      && tail == (if spine == [] then null else spine[|spine| - 1])
      && Linked(spine) && Distinct(spine)
    }

    constructor ()
      ensures Valid() && contents == [] && Repr == {}
    {
      head, tail, entries, spine, contents, Repr := null, null, 0, [], [], {};
    }

    method PushTail(data: T)
      requires Valid()
      modifies this, Repr
      ensures Valid() && contents == old(contents) + [data]
      ensures fresh(Repr - old(Repr))
    {
      hide Linked, Hold, Distinct;
      var entry := new Entry(data, null);
      FirstFollowing(spine);
      if tail != null {
        LinkLast(tail, entry, spine, contents);
      } else {
        Appended(spine, contents, entry);
      }
      tail := entry;
      if head == null {
        head := entry;
      }
      entries := entries + 1;
      spine, contents, Repr := spine + [entry], contents + [data], Repr + {entry};
      FirstFollowing(spine);
    }

    method LinkLast(last: Entry<T>, entry: Entry<T>, ghost was: seq<Entry<T>>, ghost held: seq<T>)
      requires was != [] && last == was[|was| - 1] && entry !in was && entry.next == null
      requires Linked(was) && Hold(was, held) && Distinct(was)
      modifies last`next
      ensures Linked(was + [entry]) && Distinct(was + [entry]) && Hold(was + [entry], held + [entry.data])
    {
      last.next := entry;
      Appended(was, held, entry);
    }

    method PushHead(data: T)
      requires Valid()
      modifies this
      ensures Valid() && contents == [data] + old(contents)
      ensures fresh(Repr - old(Repr))
    {
      var entry := new Entry(data, head);
      head := entry;
      if tail == null {
        tail := entry;
      }
      entries := entries + 1;
      spine, contents, Repr := [entry] + spine, [data] + contents, Repr + {entry};
    }

    /** Puts `data` behind the first entry that holds `entry`; fails when there is none. */
    method PushAfter(entry: T, data: T) returns (ok: bool)
      requires Valid()
      modifies this, Repr
      ensures Valid() && ok == (entry in old(contents))
      ensures var s := old(contents); var i := FirstWhere(s, x => x == entry);
        contents == if ok then s[..i + 1] + [data] + s[i + 1..] else s
      ensures fresh(Repr - old(Repr))
    {
      var node, i := Find(x => x == entry);
      ghost var s := contents;
      if node == null {
        return false;
      }
      assert s[i] == entry;
      InsertBehind(node, i, data);
      return true;
    }

    method InsertBehind(node: Entry<T>, ghost i: nat, data: T)
      requires Valid() && i < |spine| && node == spine[i]
      modifies this, Repr
      ensures Valid() && contents == Inserted(old(contents), i, data)
      ensures fresh(Repr - old(Repr))
    {
      hide Distinct, Inserted, Linked, Hold;
      ghost var was, held := spine, contents;
      OthersDiffer(was, i);
      var last := LastBehind(node, i);
      var added := new Entry(data, node.next);
      LinkBehind(node, added, was, held, i);
      if last {
        tail := added;
      }
      entries := entries + 1;
      InsertedDistinct(was, i, added);
      InsertedEnds(was, i, added);
      spine, contents, Repr := Inserted(was, i, added), Inserted(held, i, data), Repr + {added};
      FirstFollowing(spine);
    }

    method LastBehind(node: Entry<T>, ghost i: nat) returns (last: bool)
      requires Valid() && i < |spine| && node == spine[i]
      ensures last == (i == |spine| - 1) && node.next == NextAt(i) && |contents| == |spine|
    {
      last := node.next == null;
    }

    method LinkBehind(node: Entry<T>, added: Entry<T>, ghost was: seq<Entry<T>>, ghost held: seq<T>, ghost i: nat)
      requires i < |was| && node == was[i] && added !in was && added.next == node.next
      requires Linked(was) && Hold(was, held) && forall j :: 0 <= j < |was| && j != i ==> was[j] != node
      modifies node`next
      ensures Linked(Inserted(was, i, added)) && Hold(Inserted(was, i, added), Inserted(held, i, added.data))
    {
      hide Inserted;
      node.next := added;
      InsertedLinked(was, i, added);
      InsertedHold(was, held, i, added);
    }

    /** Looks for the first entry that satisfies `p`; `i` is its position. */
    method Find(p: T -> bool) returns (node: Entry?<T>, ghost i: nat)
      requires Valid()
      ensures i == FirstWhere(contents, p)
      ensures if i < |spine| then node == spine[i] else node == null
    {
      node, i := head, 0;
      ghost var s := contents;
      while node != null && !p(node.data)
        invariant i <= |spine| && node == NextAt(i - 1) && forall j :: 0 <= j < i ==> !p(s[j])
        decreases |spine| - i
      {
        node, i := node.next, i + 1;
      }
      FirstIs(s, p, i);
    }

    method PopHead() returns (data: Option<T>)
      requires Valid()
      modifies this
      ensures Valid()
      ensures var s := old(contents);
        if s == [] then data == None && contents == [] else data == Some(s[0]) && contents == s[1..]
      ensures Repr == old(Repr)
    {
      if head == null {
        return None;
      }
      var entry := head;
      if head.next == null {
        head, tail := null, null;
      } else {
        head := head.next;
      }
      entries := entries - 1;
      spine, contents := spine[1..], contents[1..];
      return Some(entry.data);
    }

    method PeekHead() returns (data: Option<T>)
      requires Valid()
      ensures data == if contents == [] then None else Some(contents[0])
    {
      return if head == null then None else Some(head.data);
    }

    method PeekTail() returns (data: Option<T>)
      requires Valid()
      ensures data == if contents == [] then None else Some(contents[|contents| - 1])
    {
      return if tail == null then None else Some(tail.data);
    }

    /** Takes out the first entry that satisfies `p`, wherever it is. */
    method RemoveIf(p: T -> bool) returns (data: Option<T>)
      requires Valid()
      modifies this, Repr
      ensures Valid() && contents == WithoutFirst(old(contents), p) && entries == |contents|
      ensures var s := old(contents); var i := FirstWhere(s, p); data == if i < |s| then Some(s[i]) else None
      ensures Repr == old(Repr)
    {
      var prev: Entry?<T>, entry := null, head;
      ghost var s, i := contents, 0;
      while entry != null && !p(entry.data)
        invariant i <= |spine| && entry == NextAt(i - 1) && forall j :: 0 <= j < i ==> !p(s[j])
        invariant prev == if i == 0 then null else spine[i - 1]
        decreases |spine| - i
      {
        prev, entry, i := entry, entry.next, i + 1;
      }
      FirstIs(s, p, i);
      if entry == null {
        return None;
      }
      data := Some(entry.data);
      Unlink(prev, entry, i);
    }

    method Unlink(prev: Entry?<T>, entry: Entry<T>, ghost i: nat)
      requires Valid() && i < |spine| && entry == spine[i] && prev == (if i == 0 then null else spine[i - 1])
      modifies this, Repr
      ensures Valid() && contents == Without(old(contents), i)
      ensures Repr == old(Repr)
    {
      hide Without, Distinct, Linked, Hold;
      ghost var was, held := spine, contents;
      var last := LastBehind(entry, i);
      if i > 0 {
        OthersDiffer(was, i - 1);
      }
      FirstFollowing(was);
      var next := entry.next;
      LinkPast(prev, next, was, held, i);
      if prev == null {
        head := next;
      }
      if last {
        tail := prev;
      }
      entries := entries - 1;
      WithoutDistinct(was, i);
      WithoutEnds(was, i);
      spine, contents := Without(was, i), Without(held, i);
      FirstFollowing(spine);
    }

    /** The node before entry `i`, if any, points past it. */
    method LinkPast(prev: Entry?<T>, next: Entry?<T>, ghost was: seq<Entry<T>>, ghost held: seq<T>, ghost i: nat)
      requires i < |was| && prev == (if i == 0 then null else was[i - 1]) && next == Following(was, i)
      requires Linked(was) && Hold(was, held) && (i > 0 ==> forall j :: 0 <= j < |was| && j != i - 1 ==> was[j] != was[i - 1])
      modifies if prev == null then {} else {prev}
      ensures Linked(Without(was, i)) && Hold(Without(was, i), Without(held, i))
    {
      hide Without;
      if prev != null {
        prev.next := next;
      }
      WithoutLinked(was, i);
      WithoutHold(was, held, i);
    }

    /** Takes out one entry that holds `data`. */
    method Remove(data: T) returns (ok: bool)
      requires Valid()
      modifies this, Repr
      ensures Valid() && ok == (data in old(contents)) && contents == WithoutFirst(old(contents), x => x == data)
    {
      ghost var s := contents;
      var d := RemoveIf(x => x == data);
      ok := d.Some?;
      assert data in s ==> exists i :: 0 <= i < |s| && s[i] == data;
    }

    /** Takes out all entries that satisfy `p`, in order. */
    method RemoveAll(p: T -> bool) returns (count: nat)
      requires Valid()
      modifies this, Repr
      ensures Valid() && contents == Others(old(contents), p) && count == |old(contents)| - |contents|
    {
      count := 0;
      ghost var s := contents;
      assert entries == |contents|;
      hide Valid, Others, WithoutFirst, FirstWhere;
      while true
        invariant Valid() && entries == |contents| && Others(contents, p) == Others(s, p) && count == |s| - |contents|
        invariant Repr == old(Repr)
        decreases entries
      {
        var before := entries;
        WithoutFirstKeepsOthers(contents, p);
        var d := RemoveIf(p);
        if entries == before {
          return;
        }
        count := count + 1;
      }
    }

    /** Without a condition: empties the queue. */
    method Clear() returns (count: nat)
      requires Valid()
      modifies this
      ensures Valid() && contents == [] && count == |old(contents)| && Repr == {}
    {
      count := entries;
      head, tail, entries, spine, contents, Repr := null, null, 0, [], [], {};
    }
  }

  lemma {:induction false} FirstIs<T>(s: seq<T>, p: T -> bool, i: nat)
    requires i <= |s| && (forall j :: 0 <= j < i ==> !p(s[j])) && (i < |s| ==> p(s[i]))
    ensures FirstWhere(s, p) == i
  {
    if i > 0 {
      FirstIs(s[1..], p, i - 1);
    }
  }
}
