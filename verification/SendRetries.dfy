/**
 Everything the sender puts on the line during a transfer: each packet goes out as the same
 bytes every time, and no more often than the retry limit allows.
 */
module SendRetries {
  import opened Bytes
  import opened KermitFrame
  import opened SendWindow

  /** One transmission: the absolute number of the packet and the bytes. */
  datatype Sent = Sent(num: int, wire: seq<byte>)

  /** The state after a number of calls, and all transmissions so far. */
  datatype Trace = Trace(snd: Sending, log: seq<Sent>)

  function Logged(r: Result): seq<Sent>
    requires |r.sent| == |r.nums|
  {
    seq(|r.sent|, i requires 0 <= i < |r.sent| => Sent(r.nums[i], r.sent[i]))
  }

  /** The calls of the engine, whatever the line delivers to each. */
  ghost function Calls(s: Sending, inputs: seq<Input>): (t: Trace)
    requires Valid(s)
    ensures Valid(t.snd)
  {
    if inputs == [] then Trace(s, [])
    else
      var n := |inputs| - 1;
      var t := Calls(s, inputs[..n]);
      RunKeeps(t.snd, inputs[n]);
      var r := Run(t.snd, inputs[n]);
      Trace(r.snd, t.log + Logged(r))
  }

  /** How often packet `p` has gone out. */
  function Times(log: seq<Sent>, p: int): nat {
    if log == [] then 0
    else Times(log[..|log| - 1], p) + if log[|log| - 1].num == p then 1 else 0
  }

  /** The frame of packet `p` of a transfer that begins in state `s`. */
  function WireFor(s: Sending, p: int): seq<byte>
    requires 1 <= s.bct <= 3 && s.base <= p
  {
    if p - s.base < |s.todo| then Frame(TYPE_D, p % 64, s.todo[p - s.base], s.bct) else Frame(TYPE_Z, p % 64, [], s.bct)
  }

  ghost predicate Starts(s: Sending) { Valid(s) && s.phase == Data && s.win == [] }

  function Next(s: Sending): int { s.base + |s.win| }

  // ------------------------------------------------------------------ the invariant

  /** The window holds the frames of its packets, and the file is worked off in order. */
  ghost predicate Follows(s: Sending, t: Sending)
    requires Starts(s)
  {
    && Valid(t) && t.size == s.size && t.retry == s.retry && t.bct == s.bct && s.base <= t.base && Next(t) - s.base <= |s.todo| + 1
    && (t.phase == Data ==> Next(t) - s.base <= |s.todo| && t.todo == s.todo[Next(t) - s.base..])
    && forall i :: 0 <= i < |t.win| ==> t.win[i].wire == WireFor(s, t.base + i)
  }

  /** A packet has gone out once and once for every time it was sent again; a packet that has
      left the window, no more often than the limit; a packet not yet reached, never. */
  ghost predicate CountOk(s: Sending, t: Sending, log: seq<Sent>, p: int) {
    if p < s.base || p >= Next(t) then Times(log, p) == 0
    else if p < t.base then 1 <= Times(log, p) <= 1 + s.retry
    else
      var rtr := t.win[p - t.base].rtr;
      Times(log, p) == 1 + if rtr < s.retry then rtr else s.retry
  }

  ghost predicate LogOk(s: Sending, t: Sending, log: seq<Sent>)
    requires Starts(s)
  {
    && (forall p :: CountOk(s, t, log, p))
    && forall k :: 0 <= k < |log| ==> s.base <= log[k].num <= s.base + |s.todo| && log[k].wire == WireFor(s, log[k].num)
  }

  lemma TimesAppend(log: seq<Sent>, e: Sent, p: int)
    ensures Times(log + [e], p) == Times(log, p) + if e.num == p then 1 else 0
  {
    assert (log + [e])[..|log|] == log;
  }

  /** One more transmission of a packet, that is not among those it would be too many for. */
  lemma OneMore(s: Sending, t: Sending, t': Sending, log: seq<Sent>, num: int)
    requires Starts(s) && LogOk(s, t, log) && s.base <= num <= s.base + |s.todo|
    requires forall p :: p != num && CountOk(s, t, log, p) ==> CountOk(s, t', log, p)
    requires forall more: seq<Sent> :: Times(more, num) == Times(log, num) + 1 ==> CountOk(s, t', more, num)
    ensures LogOk(s, t', log + [Sent(num, WireFor(s, num))])
  {
    hide WireFor, Times;
    var e := Sent(num, WireFor(s, num));
    forall p
      ensures CountOk(s, t', log + [e], p)
    {
      TimesAppend(log, e, p);
      assert CountOk(s, t, log, p);
    }
  }

  lemma LoggedOne(num: int, wire: seq<byte>, snd: Sending)
    ensures Logged(Result(snd, [wire], [num])) == [Sent(num, wire)]
    ensures Logged(Result(snd, [], [])) == []
  {
  }

  // ------------------------------------------------------------------ what every call keeps

  lemma TransmitLogs(s: Sending, t: Sending, log: seq<Sent>)
    requires Starts(s) && Follows(s, t) && LogOk(s, t, log) && t.phase == Data && |t.win| < t.size
    ensures var r := Transmit(t); Follows(s, r.snd) && LogOk(s, r.snd, log + Logged(r))
  {
    hide Frame, Times;
    TransmitKeeps(t);
    NextNumber(t.base, |t.win|);
    var r := Transmit(t);
    var p := Next(t);
    assert r.sent == [WireFor(s, p)];
    LoggedOne(p, WireFor(s, p), r.snd);
    assert r == Result(r.snd, [WireFor(s, p)], [p]);
    assert CountOk(s, t, log, p);
    OneMore(s, t, r.snd, log, p);
  }

  lemma ResendLogs(s: Sending, t: Sending, log: seq<Sent>, i: nat, lenient: bool)
    requires Starts(s) && Follows(s, t) && LogOk(s, t, log) && i < |t.win|
    ensures var r := Resend(t, i, lenient); Follows(s, r.snd) && LogOk(s, r.snd, log + Logged(r))
  {
    hide WireFor, Times;
    ResendKeeps(t, i, lenient);
    var r := Resend(t, i, lenient);
    var p := t.base + i;
    assert CountOk(s, t, log, p);
    LoggedOne(p, t.win[i].wire, r.snd);
    if t.win[i].rtr + 1 <= t.retry {
      assert r == Result(r.snd, [WireFor(s, p)], [p]);
      OneMore(s, t, r.snd, log, p);
    } else {
      assert r == Result(r.snd, [], []);
      assert log + [] == log;
      forall q
        ensures CountOk(s, r.snd, log, q)
      {
        assert CountOk(s, t, log, q);
      }
    }
  }

  /** Marking and freeing packets takes a suffix of the window. */
  lemma FreedIsSuffix(t: Sending, i: nat)
    requires i < |t.win|
    ensures var marked := t.win[i := t.win[i].(acked := true)];
      var r := Freed(t, marked);
      && |r.win| <= |t.win| && r.base == t.base + |t.win| - |r.win| && r == t.(base := r.base, win := r.win)
      && forall j :: 0 <= j < |r.win| ==>
           r.win[j].rtr == t.win[r.base - t.base + j].rtr && r.win[j].wire == t.win[r.base - t.base + j].wire
  {
    hide DropAcked;
    var marked := t.win[i := t.win[i].(acked := true)];
    var r := Freed(t, marked);
    forall j | 0 <= j < |r.win|
      ensures r.win[j].rtr == t.win[r.base - t.base + j].rtr && r.win[j].wire == t.win[r.base - t.base + j].wire
    {
      assert r.win[j] == marked[r.base - t.base + j];
    }
  }

  lemma FreedFollows(s: Sending, t: Sending, i: nat)
    requires Starts(s) && Follows(s, t) && i < |t.win| && (t.phase == Data || t.phase == Eof)
    ensures var r := Freed(t, t.win[i := t.win[i].(acked := true)]);
      (t.phase == Data || r.win != [] ==> Follows(s, r)) && Follows(s, r.(phase := Done))
  {
    hide WireFor, Freed;
    FreedKeeps(t, i);
    FreedIsSuffix(t, i);
  }

  /** It forgets no transmission. */
  lemma FreedLogs(s: Sending, t: Sending, log: seq<Sent>, i: nat)
    requires Starts(s) && Follows(s, t) && LogOk(s, t, log) && i < |t.win|
    ensures LogOk(s, Freed(t, t.win[i := t.win[i].(acked := true)]), log)
  {
    hide WireFor, Times, Freed, Valid;
    FreedIsSuffix(t, i);
    var r := Freed(t, t.win[i := t.win[i].(acked := true)]);
    forall p
      ensures CountOk(s, r, log, p)
    {
      assert CountOk(s, t, log, p);
    }
  }

  lemma AckLogs(s: Sending, t: Sending, log: seq<Sent>, sq: int)
    requires Starts(s) && Follows(s, t) && LogOk(s, t, log) && (t.phase == Data || t.phase == Eof)
    ensures var r := OnAck(t, sq); Follows(s, r.snd) && LogOk(s, r.snd, log + Logged(r))
  {
    hide Follows, Freed, Transmit, CountOk, WireFor, Times;
    assert log + [] == log;
    LoggedOne(0, [], t);
    assert Valid(t) && t.size == s.size by { SameSize(s, t); }
    var i := Find(t.win, sq);
    if i >= 0 {
      FreedFollows(s, t, i);
      FreedLogs(s, t, log, i);
      var marked := t.win[i := t.win[i].(acked := true)];
      var f := Freed(t, marked);
      FreedFrame(t, marked);
      if f.phase == Data && |f.win| < f.size {
        TransmitLogs(s, f, log);
      }
      LoggedOne(0, [], f);
      LoggedOne(0, [], f.(phase := Done));
      PhaseIsFree(s, f, log);
    }
  }

  lemma SameSize(s: Sending, t: Sending)
    requires Starts(s) && Follows(s, t)
    ensures Valid(t) && t.size == s.size
  {
  }

  lemma PhaseIsFree(s: Sending, t: Sending, log: seq<Sent>)
    requires Starts(s) && LogOk(s, t, log)
    ensures LogOk(s, t.(phase := Done), log) && LogOk(s, t.(phase := Failed), log)
    ensures Follows(s, t) ==> Follows(s, t.(phase := Failed))
  {
    hide WireFor, Times;
    forall p
      ensures CountOk(s, t.(phase := Done), log, p) && CountOk(s, t.(phase := Failed), log, p)
    {
      assert CountOk(s, t, log, p);
    }
  }

  lemma RunLogs(s: Sending, t: Sending, log: seq<Sent>, input: Input)
    requires Starts(s) && Follows(s, t) && LogOk(s, t, log)
    ensures Valid(t)
    ensures var r := Run(t, input); Follows(s, r.snd) && LogOk(s, r.snd, log + Logged(r))
  {
    hide Transmit, Resend, OnAck, LogOk, Follows, WireFor;
    SameSize(s, t);
    assert log + [] == log;
    LoggedOne(0, [], t);
    LoggedOne(0, [], t.(phase := Failed));
    PhaseIsFree(s, t, log);
    if t.phase == Data && |t.win| < t.size {
      TransmitLogs(s, t, log);
    } else if t.phase == Data || t.phase == Eof {
      match input {
        case Silence => ResendLogs(s, t, log, 0, false);
        case Damaged => ResendLogs(s, t, log, 0, true);
        case Impossible =>
        case Packet(typ, sq) =>
          AckLogs(s, t, log, sq);
          ResendLogs(s, t, log, Asked(t, sq), false);
      }
    }
  }

  lemma {:induction false} CallsLog(s: Sending, inputs: seq<Input>)
    requires Starts(s)
    ensures var t := Calls(s, inputs); Follows(s, t.snd) && LogOk(s, t.snd, t.log)
  {
    hide Run, Follows, LogOk;
    if inputs == [] {
      NothingLogged(s);
    } else {
      var n := |inputs| - 1;
      CallsLog(s, inputs[..n]);
      RunLogs(s, Calls(s, inputs[..n]).snd, Calls(s, inputs[..n]).log, inputs[n]);
    }
  }

  lemma NothingLogged(s: Sending)
    requires Starts(s)
    ensures Follows(s, s) && LogOk(s, s, [])
  {
    assert s.todo[0..] == s.todo;
  }

  /** Over every sequence of calls, whatever the line delivers: a packet goes out as the same
      bytes every time, those of its frame; and it goes out once and at most `retry` times
      more. No other packet than those of the file and its end goes out. */
  lemma {:induction false} SentVerbatimAndBounded(s: Sending, inputs: seq<Input>)
    requires Starts(s)
    ensures var log := Calls(s, inputs).log;
      && (forall k :: 0 <= k < |log| ==>
            s.base <= log[k].num <= s.base + |s.todo| && log[k].wire == WireFor(s, log[k].num))
      && (forall p :: Times(log, p) <= 1 + s.retry)
  {
    hide WireFor, Run, Times, Calls;
    CallsLog(s, inputs);
    var t := Calls(s, inputs);
    forall p
      ensures Times(t.log, p) <= 1 + s.retry
    {
      assert CountOk(s, t.snd, t.log, p);
    }
  }
}
