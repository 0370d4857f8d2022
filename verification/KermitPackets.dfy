/**
 What the encoding means, and the packets of a file: each decodes by itself, all of them together are the file, and none
 is longer than it may be.
 */
module KermitPackets {
  import opened Bytes
  import opened KermitBytes
  import opened KermitCodec

  // ------------------------------------------------------------------ items and units

  /** An item is read the same whatever follows it. */
  lemma ReadItemAppend(k: Codec, s: seq<byte>, t: seq<byte>)
    requires s != [] && ReadItem(k, s).Item?
    ensures ReadItem(k, s + t) == ReadItem(k, s)
  {
  }

  lemma {:induction false} DecodeAppend(k: Codec, s: seq<byte>, t: seq<byte>)
    requires Whole(k, s) && Whole(k, t)
    ensures Whole(k, s + t) && Out(k, s + t) == Out(k, s) + Out(k, t)
    decreases |s|
  {
    if s == [] {
      assert s + t == t;
    } else {
      var it := ReadItem(k, s);
      ReadItemAppend(k, s, t);
      assert (s + t)[it.size..] == s[it.size..] + t;
      DecodeAppend(k, s[it.size..], t);
    }
  }

  /** What stands after the terminating NUL, in particular the bytes of the previous
      packet left in the buffer, does not change what is decoded. */
  lemma {:induction false} DecodeIgnoresStaleBytes(k: Codec, s: seq<byte>, stale: seq<byte>)
    requires Whole(k, s) && NUL !in s
    ensures DecodeMemory(k, s + [NUL] + stale) == Some(Out(k, s))
    decreases |s|
  {
    var m := s + [NUL] + stale;
    if s != [] {
      var it := ReadItem(k, s);
      assert m == s + ([NUL] + stale);
      ReadItemAppend(k, s, [NUL] + stale);
      assert m[0] == s[0] && s[0] in s;
      assert m[it.size..] == s[it.size..] + [NUL] + stale;
      DecodeIgnoresStaleBytes(k, s[it.size..], stale);
    }
  }

  lemma UnitDecodes(k: Codec, a: byte, n: nat)
    requires Sound(k) && 1 <= n <= MAX_RUN && (n > 1 ==> k.repeats)
    ensures Whole(k, Unit(k, a, n)) && Out(k, Unit(k, a, n)) == Copies(a, n)
    ensures Clean(Unit(k, a, n)) && 1 <= |Unit(k, a, n)| <= 4
  {
    var u := Unit(k, a, n);
    var it := ReadItem(k, u);
    assert it == Item(n, a, |u|);
    assert DecodeData(k, u[it.size..]) == Some([]);
    assert Copies(a, n) + [] == Copies(a, n);
  }

  /** Most bytes that one step leaves for the next packet. */
  function Most(k: Codec): nat { if k.repeats then 4 else 2 }

  /** A step that respects the format: its parts are whole, clean and short. */
  ghost predicate Proper(k: Codec, s: Step) {
    && Whole(k, s.head) && Whole(k, s.tail) && Clean(s.head) && Clean(s.tail)
    && |s.head| <= 2 && |s.tail| <= Most(k) && (s.head != [] ==> k.repeats && |s.head| == |s.tail|)
  }

  /** Steps that respect the format; the last one emits something, and a pair of equal bytes
      follows the step that counted the first of them. */
  ghost predicate AllProper(k: Codec, steps: seq<Step>) {
    && (forall i :: 0 <= i < |steps| ==> Proper(k, steps[i]))
    && (steps != [] ==> steps[|steps| - 1].tail != [])
    && (forall i :: 0 < i < |steps| && steps[i - 1].tail != [] ==> steps[i].head == [])
  }

  function StepBytes(steps: seq<Step>): seq<byte> {
    if steps == [] then [] else steps[0].head + steps[0].tail + StepBytes(steps[1..])
  }

  lemma CloseDecodes(k: Codec, a: byte, n: nat)
    requires Sound(k) && 1 <= n <= MAX_RUN && (n > 1 ==> k.repeats)
    ensures var s := Close(k, a, n);
      Proper(k, s) && s.tail != [] && Whole(k, s.head + s.tail) && Out(k, s.head + s.tail) == Copies(a, n)
  {
    var s := Close(k, a, n);
    UnitDecodes(k, a, 1);
    NothingIsWhole(k);
    if n == 2 {
      assert s.head == Unit(k, a, 1) && s.tail == Unit(k, a, 1);
      DecodeAppend(k, s.head, s.tail);
      assert Copies(a, 1) + Copies(a, 1) == Copies(a, 2);
    } else {
      UnitDecodes(k, a, n);
      assert s.head + s.tail == Unit(k, a, n);
    }
  }

  /** One more step in front. */
  lemma StepInFront(k: Codec, c: Step, more: seq<Step>)
    requires Proper(k, c) && AllProper(k, more) && Whole(k, c.head + c.tail) && Whole(k, StepBytes(more))
    requires if more == [] then c.tail != [] else c.tail != [] ==> more[0].head == []
    ensures AllProper(k, [c] + more)
    ensures var s := StepBytes([c] + more);
      Whole(k, s) && Out(k, s) == Out(k, c.head + c.tail) + Out(k, StepBytes(more))
  {
    hide Proper, Whole, Out;
    assert ([c] + more)[1..] == more;
    DecodeAppend(k, c.head + c.tail, StepBytes(more));
  }

  lemma NoSteps(k: Codec)
    ensures AllProper(k, []) && Whole(k, StepBytes([])) && Out(k, StepBytes([])) == []
  {
  }

  /** What one step stands for: nothing while a run is counted, else the whole run. */
  lemma EmitsDecodes(k: Codec, a: byte, n: nat, unread: seq<byte>)
    requires Sound(k) && 1 <= n <= MAX_RUN && (n > 1 ==> k.repeats)
    ensures var s := Emits(k, a, n, unread);
      && Proper(k, s) && (s.tail == [] <==> Counted(k, a, n, unread)) && (n == 1 ==> s.head == [])
      && Whole(k, s.head + s.tail)
      && Out(k, s.head + s.tail) == if Counted(k, a, n, unread) then [] else Copies(a, n)
  {
    CloseDecodes(k, a, n);
    NothingIsWhole(k);
    var none: seq<byte> := [];
    assert none + none == none;
  }

  /** The run-length encoding as a whole means what it should. */
  lemma {:induction false} RunsDecode(k: Codec, a: byte, n: nat, rest: seq<byte>)
    requires Sound(k) && 1 <= n <= MAX_RUN && (n > 1 ==> k.repeats)
    ensures AllProper(k, Runs(k, a, n, rest)) && Runs(k, a, n, rest)[0] == Emits(k, a, n, rest)
    ensures var s := StepBytes(Runs(k, a, n, rest)); Whole(k, s) && Out(k, s) == Copies(a, n) + rest
    decreases |rest|
  {
    hide Whole, Out, Close, StepBytes, AllProper, Sound, Emits, Proper;
    EmitsDecodes(k, a, n, rest);
    var c, more := Emits(k, a, n, rest), RunsAfter(k, a, n, rest);
    if rest == [] {
      NoSteps(k);
      assert Copies(a, n) + [] == Copies(a, n) + rest;
    } else if Counted(k, a, n, rest) {
      RunsDecode(k, a, n + 1, rest[1..]);
      assert Copies(a, n + 1) + rest[1..] == Copies(a, n) + rest;
    } else {
      RunsDecode(k, rest[0], 1, rest[1..]);
      EmitsDecodes(k, rest[0], 1, rest[1..]);
      assert Copies(rest[0], 1) + rest[1..] == rest;
    }
    StepInFront(k, c, more);
  }

  lemma FileStepsDecode(k: Codec, file: seq<byte>)
    requires Sound(k)
    ensures AllProper(k, FileSteps(k, file))
    ensures var s := StepBytes(FileSteps(k, file)); Whole(k, s) && Out(k, s) == file
  {
    if file != [] {
      RunsDecode(k, file[0], 1, file[1..]);
      assert Copies(file[0], 1) + file[1..] == file;
    }
  }

  lemma EmitsIs(k: Codec, a: byte, n: nat, unread: seq<byte>)
    requires 1 <= n <= MAX_RUN
    ensures Emits(k, a, n, unread) == if Counted(k, a, n, unread) then Step([], []) else Close(k, a, n)
  {
  }

  /** What one turn of the packet loop means for the packet being filled. */
  lemma TurnMeaning(k: Codec, maxlen: int, acc: seq<byte>, a: byte, n: nat, unread: seq<byte>)
    requires Sound(k) && 1 <= n <= MAX_RUN && (n > 1 ==> k.repeats)
    ensures
      var more := if unread == [] then [] else Runs(k, unread[0], if Counted(k, a, n, unread) then n + 1 else 1, unread[1..]);
      var s := Emits(k, a, n, unread);
      && |s.head| + |s.tail| <= 4 && (forall i :: 0 <= i < |s.tail| ==> s.tail[i] != NUL)
      && (s.tail == [] <==> Counted(k, a, n, unread)) && (s.tail == [] ==> s.head == [])
      && Fill(maxlen, acc, Runs(k, a, n, unread)) == AfterStep(maxlen, acc, s.head, s.tail, more)
  {
    EmitsDecodes(k, a, n, unread);
    var s, more := Emits(k, a, n, unread), RunsAfter(k, a, n, unread);
    assert ([s] + more)[1..] == more;
  }

  // ------------------------------------------------------------------ one packet

  /** A packet may be started: with room for any step, and leftovers `acc` that stand before no
      second half of a pair. */
  ghost predicate Ready(k: Codec, maxlen: int, acc: seq<byte>, steps: seq<Step>) {
    && Most(k) <= maxlen && Whole(k, acc) && Clean(acc) && AllProper(k, steps)
    && (|acc| < maxlen || (|acc| == maxlen && (steps != [] ==> steps[0].head == [])))
  }

  /** What every call that fills a packet guarantees: nothing is lost between the packet,
      the leftovers and the steps still to come; the packet holds whole items, is clean, is
      never longer than `maxlen`, with run lengths `maxlen + 1`, and is as full as the next item
      allows; at most one step is left over. */
  ghost predicate GoodFill(k: Codec, maxlen: int, acc: seq<byte>, steps: seq<Step>, f: Filled) {
    && f.data + f.rest + StepBytes(f.steps) == acc + StepBytes(steps)
    && Whole(k, f.data) && Whole(k, f.rest) && Clean(f.data) && Clean(f.rest)
    && AllProper(k, f.steps)
    && |f.rest| <= Most(k)
    && |f.data| <= maxlen + (if k.repeats then 1 else 0)
    && (f.data == [] ==> acc == [] && steps == [])
    && (f.rest + StepBytes(f.steps) != [] ==> |f.data| > maxlen - Most(k))
    && (|f.data| + |f.rest| > maxlen || f.rest == [])
    && (f.rest != [] && f.steps != [] ==> f.steps[0].head == [])
  }

  lemma StepsUnfold(k: Codec, acc: seq<byte>, steps: seq<Step>)
    requires AllProper(k, steps) && steps != []
    ensures acc + steps[0].head + steps[0].tail + StepBytes(steps[1..]) == acc + StepBytes(steps)
    ensures Proper(k, steps[0]) && AllProper(k, steps[1..])
    ensures if |steps| == 1 then steps[0].tail != [] else steps[0].tail != [] ==> steps[1].head == []
  {
    hide Proper;
    RestIsProper(k, steps);
    hide AllProper;
    FourParts(acc, steps[0].head, steps[0].tail, StepBytes(steps[1..]));
  }

  lemma FourParts(a: seq<byte>, b: seq<byte>, c: seq<byte>, d: seq<byte>)
    ensures a + b + c + d == a + (b + c + d)
  {
  }

  lemma RestIsProper(k: Codec, steps: seq<Step>)
    requires AllProper(k, steps) && steps != []
    ensures Proper(k, steps[0]) && AllProper(k, steps[1..])
    ensures if |steps| == 1 then steps[0].tail != [] else steps[0].tail != [] ==> steps[1].head == []
  {
    hide Proper;
    var more := steps[1..];
    forall i | 0 < i < |more| && more[i - 1].tail != []
      ensures more[i].head == []
    {
      assert more[i] == steps[i + 1];
    }
  }

  /** A packet cut after `head`, or not at all. */
  lemma CutIsGood(k: Codec, maxlen: int, acc: seq<byte>, steps: seq<Step>)
    requires Ready(k, maxlen, acc, steps) && steps != []
    requires |acc + steps[0].head + steps[0].tail| >= maxlen
    ensures GoodFill(k, maxlen, acc, steps, AfterStep(maxlen, acc, steps[0].head, steps[0].tail, steps[1..]))
  {
    hide Whole, Fill, StepBytes, AllProper;
    StepsUnfold(k, acc, steps);
    var s := steps[0];
    DecodeAppend(k, acc, s.head);
    DecodeAppend(k, acc + s.head, s.tail);
    NothingIsWhole(k);
    var all := acc + s.head + s.tail;
    if |all| == maxlen {
      assert all + [] == all;
    }
  }

  lemma NothingIsWhole(k: Codec)
    ensures Whole(k, []) && Out(k, []) == []
  {
  }

  lemma LastIsGood(k: Codec, maxlen: int, acc: seq<byte>)
    requires Ready(k, maxlen, acc, [])
    ensures GoodFill(k, maxlen, acc, [], Filled(acc, [], []))
  {
    NothingIsWhole(k);
    assert acc + [] + StepBytes([]) == acc + StepBytes([]);
    hide Whole;
  }

  /** A step that leaves room adds nothing but its own bytes. */
  lemma GoodAfterStep(k: Codec, maxlen: int, acc: seq<byte>, steps: seq<Step>, f: Filled)
    requires AllProper(k, steps) && steps != []
    requires GoodFill(k, maxlen, acc + steps[0].head + steps[0].tail, steps[1..], f)
    ensures GoodFill(k, maxlen, acc, steps, f)
  {
    hide Whole, Clean, StepBytes, AllProper;
    StepsUnfold(k, acc, steps);
  }

  lemma {:induction false} FillIsGood(k: Codec, maxlen: int, acc: seq<byte>, steps: seq<Step>)
    requires Ready(k, maxlen, acc, steps)
    ensures GoodFill(k, maxlen, acc, steps, Fill(maxlen, acc, steps))
    decreases |steps|
  {
    hide Whole, GoodFill, StepBytes, AllProper;
    if steps == [] {
      LastIsGood(k, maxlen, acc);
    } else {
      var s := steps[0];
      var all := acc + s.head + s.tail;
      FillUnfolds(maxlen, acc, steps);
      StepsUnfold(k, acc, steps);
      if |all| < maxlen {
        DecodeAppend(k, acc, s.head);
        DecodeAppend(k, acc + s.head, s.tail);
        FillIsGood(k, maxlen, all, steps[1..]);
        GoodAfterStep(k, maxlen, acc, steps, Fill(maxlen, all, steps[1..]));
      } else {
        CutIsGood(k, maxlen, acc, steps);
      }
    }
  }

  lemma FillUnfolds(maxlen: int, acc: seq<byte>, steps: seq<Step>)
    requires steps != []
    ensures Fill(maxlen, acc, steps) == AfterStep(maxlen, acc, steps[0].head, steps[0].tail, steps[1..])
  {
  }

  // ------------------------------------------------------------------ the whole file

  ghost predicate PacketFits(k: Codec, maxlen: int, d: seq<byte>) {
    Whole(k, d) && Clean(d) && 1 <= |d| <= maxlen + (if k.repeats then 1 else 0)
  }

  /** The bytes obtained by decoding each packet by itself and writing the results in order. */
  function DecodeAll(k: Codec, packets: seq<seq<byte>>): seq<byte> {
    if packets == [] then []
    else (if Whole(k, packets[0]) then Out(k, packets[0]) else []) + DecodeAll(k, packets[1..])
  }

  /** One packet in front of the others. */
  lemma PacketInFront(k: Codec, maxlen: int, acc: seq<byte>, steps: seq<Step>, f: Filled)
    requires GoodFill(k, maxlen, acc, steps, f) && Most(k) <= maxlen && f.data != []
    ensures PacketFits(k, maxlen, f.data) && Ready(k, maxlen, f.rest, f.steps)
    ensures Whole(k, f.rest + StepBytes(f.steps)) && Whole(k, acc + StepBytes(steps))
    ensures Out(k, acc + StepBytes(steps)) == Out(k, f.data) + Out(k, f.rest + StepBytes(f.steps))
  {
    hide StepBytes, AllProper, DecodeData, Clean;
    StepBytesWhole(k, f.steps);
    DecodeAppend(k, f.rest, StepBytes(f.steps));
    DecodeAppend(k, f.data, f.rest + StepBytes(f.steps));
    assert f.data + (f.rest + StepBytes(f.steps)) == acc + StepBytes(steps);
  }

  lemma {:induction false} PackIsFaithful(k: Codec, maxlen: int, acc: seq<byte>, steps: seq<Step>)
    requires Ready(k, maxlen, acc, steps) && Whole(k, acc + StepBytes(steps))
    ensures forall i :: 0 <= i < |Pack(maxlen, acc, steps)| ==> PacketFits(k, maxlen, Pack(maxlen, acc, steps)[i])
    ensures DecodeAll(k, Pack(maxlen, acc, steps)) == Out(k, acc + StepBytes(steps))
    decreases |steps|, |acc|
  {
    hide Fill, Ready, GoodFill, PacketFits, Whole, Out;
    var f := Fill(maxlen, acc, steps);
    FillConsumes(maxlen, acc, steps);
    FillIsGood(k, maxlen, acc, steps);
    if f.data == [] {
      EmptyFill(k, maxlen, acc, steps, f);
    } else {
      FillDone(maxlen, acc);
      RoomForAll(k, maxlen, acc, steps);
      PacketInFront(k, maxlen, acc, steps, f);
      PackIsFaithful(k, maxlen, f.rest, f.steps);
      var more := Pack(maxlen, f.rest, f.steps);
      assert Pack(maxlen, acc, steps) == [f.data] + more;
      assert ([f.data] + more)[1..] == more;
      FitsWhole(k, maxlen, f.data);
    }
  }

  lemma FitsWhole(k: Codec, maxlen: int, d: seq<byte>)
    requires PacketFits(k, maxlen, d)
    ensures Whole(k, d)
  {
  }

  lemma RoomForAll(k: Codec, maxlen: int, acc: seq<byte>, steps: seq<Step>)
    requires Ready(k, maxlen, acc, steps)
    ensures Most(k) <= maxlen
  {
  }

  lemma EmptyFill(k: Codec, maxlen: int, acc: seq<byte>, steps: seq<Step>, f: Filled)
    requires GoodFill(k, maxlen, acc, steps, f) && f.data == []
    ensures Whole(k, acc + StepBytes(steps)) && Out(k, acc + StepBytes(steps)) == []
  {
    assert acc + StepBytes(steps) == [];
    NothingIsWhole(k);
  }

  lemma {:induction false} StepBytesWhole(k: Codec, steps: seq<Step>)
    requires AllProper(k, steps)
    ensures Whole(k, StepBytes(steps))
  {
    if steps != [] {
      hide AllProper, Whole, DecodeData;
      StepsUnfold(k, [], steps);
      StepBytesWhole(k, steps[1..]);
      DecodeAppend(k, steps[0].head, steps[0].tail);
      DecodeAppend(k, steps[0].head + steps[0].tail, StepBytes(steps[1..]));
    } else {
      NothingIsWhole(k);
    }
  }

  /** Packetiser fidelity: every packet of every file decodes on its own, whatever the
      run lengths, and the decoded packets together are exactly the file. */
  lemma {:induction false} PacketsAreFaithful(k: Codec, maxlen: int, file: seq<byte>)
    requires Sound(k) && Most(k) <= maxlen
    ensures var ps := Packets(k, maxlen, file);
      && (forall i :: 0 <= i < |ps| ==> PacketFits(k, maxlen, ps[i]))
      && DecodeAll(k, ps) == file
  {
    hide AllProper, Pack, DecodeAll, Out;
    FileStepsDecode(k, file);
    NothingIsWhole(k);
    assert [] + StepBytes(FileSteps(k, file)) == StepBytes(FileSteps(k, file));
    PackIsFaithful(k, maxlen, [], FileSteps(k, file));
  }

  ghost predicate IsFaithful(k: Codec, maxlen: int, file: seq<byte>) {
    var ps := Packets(k, maxlen, file);
    && (forall i :: 0 <= i < |ps| ==> Whole(k, ps[i]))
    && DecodeAll(k, ps) == file
  }

  /** Every file gets through unchanged exactly when a packet has room for the longest step and
      the negotiated repeat prefix is not the control prefix. Negotiation settles on
      neither: it takes packets of ten bytes, and any repeat prefix from 33 to 62, of which the
      control prefix is one. */
  lemma FaithfulIff(k: Codec, maxlen: int)
    requires k.repeats ==> Acceptable(k.rptq)
    ensures (forall file :: IsFaithful(k, maxlen, file)) <==> Most(k) <= maxlen && Sound(k)
  {
    if maxlen < Most(k) {
      SomeFileIsCut(k, maxlen);
    } else if Sound(k) {
      forall file
        ensures IsFaithful(k, maxlen, file)
      {
        PacketsAreFaithful(k, maxlen, file);
      }
    } else {
      ClashingPrefix(k, maxlen);
    }
  }

  lemma ClashingPrefix(k: Codec, maxlen: int)
    requires k.repeats && k.rptq == PREFIX_CTRL && 4 <= maxlen
    ensures !IsFaithful(k, maxlen, [PREFIX_CTRL])
  {
    var file := [PREFIX_CTRL];
    var s := FileSteps(k, file);
    assert s == [Step([], [PREFIX_CTRL, PREFIX_CTRL])];
    assert [] + [] + [PREFIX_CTRL, PREFIX_CTRL] == [PREFIX_CTRL, PREFIX_CTRL];
    assert Fill(maxlen, [], s) == Filled([PREFIX_CTRL, PREFIX_CTRL], [], []);
    assert Packets(k, maxlen, file)[0] == [PREFIX_CTRL, PREFIX_CTRL];
  }

  /** A file whose only step does not fit goes out empty: three NULs with run lengths, one NUL
      without. */
  lemma SomeFileIsCut(k: Codec, maxlen: int)
    requires maxlen < Most(k)
    ensures var file := if k.repeats then [NUL, NUL, NUL] else [NUL]; Packets(k, maxlen, file) == [] && !IsFaithful(k, maxlen, file)
  {
    if k.repeats {
      var c := Close(k, NUL, 3);
      assert [NUL, NUL, NUL][1..] == [NUL, NUL];
      CountedStep(k, NUL, 1, [NUL, NUL]);
      CountedStep(k, NUL, 2, [NUL]);
      LastStep(k, NUL, 3);
      LoneStep(maxlen, c);
      NothingAndThen(maxlen, [c]);
      NothingAndThen(maxlen, [Step([], [])] + [c]);
    } else {
      LastStep(k, NUL, 1);
      LoneStep(maxlen, Close(k, NUL, 1));
    }
  }

  lemma LastStep(k: Codec, a: byte, n: nat)
    requires 1 <= n <= MAX_RUN
    ensures Runs(k, a, n, []) == [Close(k, a, n)]
  {
  }

  lemma CountedStep(k: Codec, a: byte, n: nat, rest: seq<byte>)
    requires 1 <= n <= MAX_RUN && Counted(k, a, n, rest)
    ensures Runs(k, a, n, rest) == [Step([], [])] + Runs(k, a, n + 1, rest[1..])
  {
  }

  lemma LoneStep(maxlen: int, c: Step)
    requires c.head == [] && |c.tail| > maxlen
    ensures Fill(maxlen, [], [c]).data == []
  {
    assert [] + c.head + c.tail == c.tail;
  }

  /** A counted byte at the start of a packet: the packet goes on, unless no packet has room. */
  lemma NothingAndThen(maxlen: int, more: seq<Step>)
    ensures var f := Fill(maxlen, [], [Step([], [])] + more);
      if maxlen > 0 then f == Fill(maxlen, [], more) else f.data == []
  {
    var s := Step([], []);
    assert ([s] + more)[1..] == more;
    var none: seq<byte> := [];
    assert none + s.head + s.tail == none;
  }

  /** Without any room every file goes out empty: at the smallest packet size, 10, and block
      check 3 `maxlen` is -2. */
  lemma NothingGoesOut(k: Codec, maxlen: int, file: seq<byte>)
    requires Sound(k) && maxlen <= 0
    ensures Packets(k, maxlen, file) == []
  {
    if file != [] {
      EmitsDecodes(k, file[0], 1, file[1..]);
      var s := FileSteps(k, file);
      assert s[0].head == [];
      assert Fill(maxlen, [], s).data == [];
    }
  }

  // ------------------------------------------------------------------ the bound is tight

  /** `n` bytes, no two equal neighbours, none of them quoted. */
  function Zigzag(n: nat, a: byte): seq<byte>
    requires a == 65 || a == 66
  {
    if n == 0 then [] else [a] + Zigzag(n - 1, 131 - a)
  }

  /** A file of `maxlen - 1` ordinary bytes and two NULs. */
  function TightFile(maxlen: nat): seq<byte>
    requires 4 <= maxlen
  {
    Zigzag(maxlen - 1, 65) + [NUL, NUL]
  }

  lemma OtherStep(k: Codec, a: byte, rest: seq<byte>)
    requires rest != [] && rest[0] != a
    ensures Runs(k, a, 1, rest) == [Close(k, a, 1)] + FileSteps(k, rest)
  {
    assert RunsAfter(k, a, 1, rest) == FileSteps(k, rest);
  }

  lemma {:induction false} ZigzagFills(k: Codec, maxlen: nat, acc: seq<byte>, n: nat, a: byte)
    requires Sound(k) && k.repeats && (a == 65 || a == 66) && |acc| + n == maxlen - 1
    ensures var f := Fill(maxlen, acc, FileSteps(k, Zigzag(n, a) + [NUL, NUL]));
      |f.data| == maxlen + 1 && |f.rest| == 2
    decreases n
  {
    var file := Zigzag(n, a) + [NUL, NUL];
    if n == 0 {
      assert file == [NUL, NUL] && file[1..] == [NUL] && [NUL][1..] == [];
      CountedStep(k, NUL, 1, [NUL]);
      LastStep(k, NUL, 2);
      var none, c := Step([], []), Close(k, NUL, 2);
      assert acc + none.head + none.tail == acc;
      assert ([none] + [c])[1..] == [c];
      assert Fill(maxlen, acc, [none] + [c]) == Fill(maxlen, acc, [c]);
    } else {
      var more := Zigzag(n - 1, 131 - a) + [NUL, NUL];
      assert file == [a] + more && file[1..] == more && more[0] != a;
      OtherStep(k, a, more);
      assert Close(k, a, 1) == Step([], [a]);
      assert acc + [] + [a] == acc + [a];
      ZigzagFills(k, maxlen, acc + [a], n - 1, 131 - a);
    }
  }

  /** The bound `maxlen + 1` on a data field is attained at every packet size with room. */
  lemma SizeBoundIsTight(k: Codec, maxlen: nat)
    requires Sound(k) && k.repeats && 4 <= maxlen
    ensures var ps := Packets(k, maxlen, TightFile(maxlen)); ps != [] && |ps[0]| == maxlen + 1
  {
    ZigzagFills(k, maxlen, [], maxlen - 1, 65);
  }
}
