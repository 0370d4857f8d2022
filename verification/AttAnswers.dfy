/**
 What the owner of an operation hears: of success whenever the matching answer comes, of failure
 whenever anything else ends it, and each time exactly once. And that it can always still hear.
 */
module AttAnswers {
  import opened Bytes
  import opened Att
  import opened AttRuns
  import opened AttProtocol

  // ------------------------------------------------------------------ which answer is whose

  /** The requests of the protocol. Each is answered by the opcode that follows it. */
  predicate IsRequest(opcode: int) { (2 <= opcode <= 18 || opcode == 22 || opcode == 24) && opcode % 2 == 0 }

  lemma OpcodesAreKnown(opcode: int)
    ensures TypeOf(opcode) == Req <==> IsRequest(opcode)
    ensures TypeOf(opcode) == RspType <==> opcode == 1 || (IsRequest(opcode - 1) && opcode != 21)
    ensures TypeOf(opcode) == Ind <==> opcode == 0x1D
    ensures TypeOf(opcode) == Conf <==> opcode == 0x1E
    ensures TypeOf(0x52) == TypeOf(0xD2) == Cmd && TypeOf(0x1B) == TypeOf(0x23) == Nfy
  {
  }

  lemma AnswerFollows(request: int, response: int)
    requires IsRequest(request)
    ensures RequestOf(response) == request <==> response == request + 1
  {
  }

  // ------------------------------------------------------------------ one answer

  /** `op` is over: its owner has heard `told`, once, if it has a callback, and nobody else anything. */
  ghost predicate Told(g: Log, after: Log, op: Op, told: int) {
    && after.finished == g.finished + multiset{op.uid}
    && after.calls == if op.owned then g.calls + [Call(op.uid, op.opcode, told)] else g.calls
  }

  ghost predicate Unheard(g: Log, after: Log) { after.calls == g.calls && after.finished == g.finished }

  /** A response that is no error is told as success exactly when it is the pending request's own. */
  lemma ResponseIsTold(s: State, c: nat, opcode: int, named: int, ecode: int, sized: bool, granted: bool, t: State)
    requires Shape(s) && c < |s.chans| && s.chans[c].req.Some? && opcode != 1
    requires TypeOf(opcode) == RspType && t == Step(s, Response(c, opcode, named, ecode, sized, granted))
    ensures var op := s.chans[c].req.value;
      && t.chans == s.chans[c := s.chans[c].(req := None)] && t.req == s.req
      && Told(s.log, t.log, op, if opcode == op.opcode + 1 then opcode else 1)
  {
    assert ChanOk(s.chans[c]);
    var op := s.chans[c].req.value;
    OpcodesAreKnown(op.opcode);
    AnswerFollows(op.opcode, opcode);
    hide TypeOf, RequestOf;
  }

  /** Is the level of a bearer raised for this error? */
  predicate CanRaise(ch: Chan, ecode: int) {
    ch.auto && ((ecode == 0x0F && ch.level < 2) || (ecode == 0x05 && ch.level < 4))
  }

  lemma RaisedIff(ch: Chan, ecode: int)
    ensures Raised(ch, ecode).Some? <==> CanRaise(ch, ecode)
    ensures CanRaise(ch, ecode) ==> Raised(ch, ecode).value == if ch.level < 2 then 2 else ch.level + 1
  {
  }

  /** An error is told as failure exactly when the level is not raised for it; else nothing is told
      and the request stands first in its queue, to be sent again. */
  lemma ErrorIsTold(s: State, c: nat, named: int, ecode: int, sized: bool, granted: bool, t: State)
    requires Shape(s) && c < |s.chans| && s.chans[c].req.Some?
    requires Enabled(s, Response(c, 1, named, ecode, sized, granted)) && t == Step(s, Response(c, 1, named, ecode, sized, granted))
    ensures var op, ch := s.chans[c].req.value, s.chans[c];
      && t.chans[c].req.None? && t.chans[c].ind == ch.ind && t.chans[c].queue == ch.queue
      && if sized && CanRaise(ch, ecode) && (granted || ch.local) then
           && Unheard(s.log, t.log) && t.req == [op.(timer := false)] + s.req
           && t.chans[c].level == if ch.level < 2 then 2 else ch.level + 1
         else Told(s.log, t.log, op, 1) && t.req == s.req && t.chans[c].level == ch.level
  {
    assert ChanOk(s.chans[c]);
    RaisedIff(s.chans[c], ecode);
    hide TypeOf, RequestOf, Raised;
  }

  /** An empty confirmation is told as such; any other changes nothing. */
  lemma ConfirmationIsTold(s: State, c: nat, len: nat, t: State)
    requires Shape(s) && c < |s.chans| && s.chans[c].ind.Some? && t == Step(s, Confirmation(c, len))
    ensures len == 0 ==> t.chans == s.chans[c := s.chans[c].(ind := None)] && Told(s.log, t.log, s.chans[c].ind.value, 0x1E)
    ensures len > 0 ==> t == s
  {
    assert ChanOk(s.chans[c]);
    hide TypeOf;
  }

  /** A time-out of a pending operation is told as failure and frees its slot; any other is late. */
  lemma TimeoutIsTold(s: State, c: nat, id: nat, t: State)
    requires Shape(s) && c < |s.chans| && t == Step(s, Timeout(c, id))
    ensures var ch := s.chans[c];
      if ch.req.Some? && ch.req.value.id == id then
        t.chans == s.chans[c := ch.(req := None)] && Told(s.log, t.log, ch.req.value, 1)
      else if ch.ind.Some? && ch.ind.value.id == id then
        t.chans == s.chans[c := ch.(ind := None)] && Told(s.log, t.log, ch.ind.value, 1)
      else t == s
  {
    assert ChanOk(s.chans[c]);
    hide TypeOf;
  }

  // ------------------------------------------------------------------ a lost bearer

  /** What the owners in a queue of requests or indications hear when it is given up. */
  function Failures(q: seq<Op>): seq<Call> {
    if q == [] then []
    else (if q[0].owned then [Call(q[0].uid, q[0].opcode, 1)] else []) + Failures(q[1..])
  }

  function SlotFailure(slot: Option<Op>): seq<Call> {
    if slot.Some? && slot.value.owned then [Call(slot.value.uid, slot.value.opcode, 1)] else []
  }

  lemma {:induction false} FinishAllTells(g: Log, q: seq<Op>)
    requires forall i :: 0 <= i < |q| ==> TypeOf(q[i].opcode) in {Req, Ind}
    ensures FinishAll(g, q, Some(ERROR_RSP)).calls == g.calls + Failures(q)
    decreases |q|
  {
    hide TypeOf;
    if q == [] {
      assert g.calls + [] == g.calls;
    } else {
      var g1 := Finish(g, q[0], Some(ERROR_RSP));
      FinishAllTells(g1, q[1..]);
      var first := if q[0].owned then [Call(q[0].uid, q[0].opcode, 1)] else [];
      assert g1.calls == g.calls + first;
      assert g.calls + first + Failures(q[1..]) == g.calls + (first + Failures(q[1..]));
    }
  }

  lemma {:induction false} FinishAllIsSilent(g: Log, q: seq<Op>, told: Option<int>)
    requires told.None? || forall i :: 0 <= i < |q| ==> TypeOf(q[i].opcode) !in {Req, Ind}
    ensures FinishAll(g, q, told).calls == g.calls
    decreases |q|
  {
    hide TypeOf;
    if q != [] {
      FinishAllIsSilent(Finish(g, q[0], told), q[1..], told);
    }
  }

  lemma SlotTells(g: Log, slot: Option<Op>)
    requires slot.Some? ==> TypeOf(slot.value.opcode) in {Req, Ind}
    ensures FinishSlot(g, slot, Some(ERROR_RSP)).calls == g.calls + SlotFailure(slot)
  {
    hide TypeOf;
    assert g.calls + [] == g.calls;
  }

  /** A lost bearer: the owner of every request and indication queued in common, and of what is
      pending on it, hears of the failure, once and in this order, and nobody else hears anything. */
  lemma DisconnectIsTold(s: State, c: nat, t: State)
    requires Shape(s) && c < |s.chans| && t == Step(s, Disconnect(c))
    ensures t.log.calls == s.log.calls + Failures(s.req) + Failures(s.ind) + SlotFailure(s.chans[c].req) + SlotFailure(s.chans[c].ind)
    ensures t.req == t.ind == t.write == [] && t.chans == Without(s.chans, c)
  {
    assert ChanOk(s.chans[c]);
    hide TypeOf, FinishAll, FinishSlot, Failures, SlotFailure;
    CommonTells(s);
    var ch, err := s.chans[c], Some(ERROR_RSP);
    var g := FinishAll(FinishAll(FinishAll(s.log, s.req, err), s.ind, err), s.write, err);
    SlotTells(g, ch.req);
    var g1 := FinishSlot(g, ch.req, err);
    SlotTells(g1, ch.ind);
    FinishAllIsSilent(FinishSlot(g1, ch.ind, err), ch.queue, None);
  }

  lemma CommonTells(s: State)
    requires ReqOk(s.req) && IndOk(s.ind) && WriteOk(s.write)
    ensures var err := Some(ERROR_RSP);
      FinishAll(FinishAll(FinishAll(s.log, s.req, err), s.ind, err), s.write, err).calls
      == s.log.calls + Failures(s.req) + Failures(s.ind)
  {
    hide TypeOf, FinishAll, Failures;
    var err := Some(ERROR_RSP);
    FinishAllTells(s.log, s.req);
    var g := FinishAll(s.log, s.req, err);
    FinishAllTells(g, s.ind);
    FinishAllIsSilent(FinishAll(g, s.ind, err), s.write, err);
  }

  /** Cancelling tells nobody anything, and submitting neither. */
  lemma CancelIsSilent(s: State, e: Event, t: State)
    requires Enabled(s, e) && (e.Cancel? || e.ChanCancel? || e.CancelAll? || e.Send? || e.ChanSend?) && t == Step(s, e)
    ensures t.log.calls == s.log.calls
  {
    hide TypeOf, FinishAll, ReleaseAll, Without;
    if e.CancelAll? {
      var g := FinishAll(s.log, s.req, None);
      var g1 := FinishAll(g, s.ind, None);
      FinishAllIsSilent(s.log, s.req, None);
      FinishAllIsSilent(g, s.ind, None);
      FinishAllIsSilent(g1, s.write, None);
      ReleaseAllIsSilent(FinishAll(g1, s.write, None), s.chans);
    }
  }

  lemma {:induction false} ReleaseAllIsSilent(g: Log, chans: seq<Chan>)
    ensures ReleaseAll(g, chans).calls == g.calls
    decreases |chans|
  {
    if chans != [] {
      ReleaseAllIsSilent(ReleaseSlot(ReleaseSlot(g, chans[0].req), chans[0].ind), chans[1..]);
    }
  }

  // ------------------------------------------------------------------ what cancelling takes

  /** An operation with this identifier waits or is pending somewhere. */
  ghost predicate Anywhere(s: State, id: nat) {
    || InQ(s.req, id) || InQ(s.ind, id) || InQ(s.write, id) || exists c :: 0 <= c < |s.chans| && OnBearer(s.chans[c], id)
  }

  ghost predicate InQ(q: seq<Op>, id: nat) { exists i :: 0 <= i < |q| && q[i].id == id }

  ghost predicate OnBearer(ch: Chan, id: nat) {
    (ch.req.Some? && ch.req.value.id == id) || (ch.ind.Some? && ch.ind.value.id == id) || InQ(ch.queue, id)
  }

  lemma HoldsIff(ch: Chan, id: nat)
    ensures Holds(ch, id) <==> OnBearer(ch, id)
  {
  }

  lemma {:induction false} HolderIff(chans: seq<Chan>, id: nat)
    ensures Holder(chans, id) < |chans| <==> exists c :: 0 <= c < |chans| && OnBearer(chans[c], id)
  {
    if chans != [] {
      HoldsIff(chans[0], id);
      HolderIff(chans[1..], id);
    }
  }

  /** `op` has been taken: its owner, if it still has one, is released, and it is out of its queue and over,
      or stays pending without an owner. */
  ghost predicate TakenOut(s: State, t: State, op: Op, pending: bool) {
    && t.log.released == s.log.released + (if op.owned then multiset{op.uid} else multiset{})
    && t.log.finished == s.log.finished + (if pending then multiset{} else multiset{op.uid})
    && |t.req| + |t.ind| + |t.write| + Queued(t.chans) == |s.req| + |s.ind| + |s.write| + Queued(s.chans) - (if pending then 0 else 1)
  }

  /** How many operations the bearers' own queues hold. */
  function Queued(chans: seq<Chan>): nat {
    if chans == [] then 0 else |chans[0].queue| + Queued(chans[1..])
  }

  lemma {:induction false} QueuedUpdate(chans: seq<Chan>, c: nat, ch: Chan)
    requires c < |chans|
    ensures Queued(chans[c := ch]) == Queued(chans) - |chans[c].queue| + |ch.queue|
  {
    if c > 0 {
      assert chans[c := ch][1..] == chans[1..][c - 1 := ch];
      QueuedUpdate(chans[1..], c - 1, ch);
    } else {
      assert chans[0 := ch][1..] == chans[1..];
    }
  }

  /** Cancelling by identifier takes an operation that has it, wherever it is; if there is none, or the
      identifier is 0, nothing changes. */
  lemma CancelTakes(s: State, id: nat, t: State) returns (op: Op, pending: bool)
    requires t == Step(s, Cancel(id))
    ensures id == 0 || !Anywhere(s, id) ==> t == s
    ensures id != 0 && Anywhere(s, id) ==> op.id == id && TakenOut(s, t, op, pending)
  {
    hide CancelOn, TakenOut, InQ, OnBearer, Finish;
    op, pending := Op(0, 0, 0, 0, false, 0, false), false;
    HolderIff(s.chans, id);
    if id != 0 {
      var c := Holder(s.chans, id);
      if c < |s.chans| {
        op, pending := CancelOnTakes(s, c, id);
      } else {
        op := CommonTakes(s, id);
      }
    }
  }

  lemma CommonTakes(s: State, id: nat) returns (op: Op)
    requires id != 0 && Holder(s.chans, id) == |s.chans|
    ensures var t := OnCancel(s, id);
      if InQ(s.req, id) || InQ(s.ind, id) || InQ(s.write, id) then op.id == id && TakenOut(s, t, op, false) else t == s
  {
    hide TypeOf, Queued;
    QueueLacks(s.req, id);
    QueueLacks(s.ind, id);
    QueueLacks(s.write, id);
    hide InQ;
    var r, i, w := IndexOf(s.req, id), IndexOf(s.ind, id), IndexOf(s.write, id);
    op := Op(0, 0, 0, 0, false, 0, false);
    if r < |s.req| {
      op := s.req[r];
    } else if i < |s.ind| {
      op := s.ind[i];
    } else if w < |s.write| {
      op := s.write[w];
    }
  }

  lemma QueueLacks(q: seq<Op>, id: nat)
    ensures IndexOf(q, id) < |q| <==> InQ(q, id)
  {
  }

  lemma CancelOnTakes(s: State, c: nat, id: nat) returns (op: Op, pending: bool)
    requires c < |s.chans| && Holds(s.chans[c], id)
    ensures op.id == id && TakenOut(s, CancelOn(s, c, id), op, pending)
  {
    var ch, t := s.chans[c], CancelOn(s, c, id);
    QueuedUpdate(s.chans, c, t.chans[c]);
    hide TypeOf, Queued;
    if ch.req.Some? && ch.req.value.id == id {
      op, pending := ch.req.value, true;
    } else if ch.ind.Some? && ch.ind.value.id == id {
      op, pending := ch.ind.value, true;
    } else {
      op, pending := ch.queue[IndexOf(ch.queue, id)], false;
    }
  }

  /** Cancelling on one bearer looks there only. */
  lemma ChanCancelTakes(s: State, c: nat, id: nat, t: State) returns (op: Op, pending: bool)
    requires c < |s.chans| && t == Step(s, ChanCancel(c, id))
    ensures !OnBearer(s.chans[c], id) ==> t == s
    ensures OnBearer(s.chans[c], id) ==> op.id == id && TakenOut(s, t, op, pending)
  {
    op, pending := Op(0, 0, 0, 0, false, 0, false), false;
    HoldsIff(s.chans[c], id);
    if Holds(s.chans[c], id) {
      op, pending := CancelOnTakes(s, c, id);
    }
  }

  /** Cancelling everything empties the queues in common and leaves what is pending without owners. */
  lemma CancelAllTakes(s: State, t: State)
    requires t == Step(s, CancelAll)
    ensures t.req == t.ind == t.write == [] && |t.chans| == |s.chans|
    ensures forall c :: 0 <= c < |t.chans| ==>
      && t.chans[c].queue == s.chans[c].queue
      && (t.chans[c].req.Some? <==> s.chans[c].req.Some?) && (t.chans[c].req.Some? ==> !t.chans[c].req.value.owned)
      && (t.chans[c].ind.Some? <==> s.chans[c].ind.Some?) && (t.chans[c].ind.Some? ==> !t.chans[c].ind.value.owned)
  {
    hide FinishAll, ReleaseAll;
  }

  // ------------------------------------------------------------------ what is submitted and what goes out

  /** A fresh operation as it is queued. */
  ghost predicate IsFresh(s: State, op: Op, opcode: int, len: nat) {
    op == Op(s.nextUid, s.nextId, opcode, len, true, 0, false)
  }

  /** With a bearer, an operation of a known kind goes to the tail of the queue of its kind; anything
      else is refused. */
  lemma SubmittedIsQueued(s: State, opcode: int, len: nat, t: State)
    requires t == Step(s, Send(opcode, len))
    ensures s.chans == [] || TypeOf(opcode) == Unknown ==> t == s
    ensures s.chans != [] && TypeOf(opcode) != Unknown ==>
      && t.chans == s.chans && t.log == s.log && t.nextId == s.nextId + 1 && t.nextUid == s.nextUid + 1
      && |t.req| + |t.ind| + |t.write| == |s.req| + |s.ind| + |s.write| + 1
      && s.req <= t.req && s.ind <= t.ind && s.write <= t.write
      && (IsRequest(opcode) ==> |t.req| == |s.req| + 1 && IsFresh(s, t.req[|s.req|], opcode, len))
      && (opcode == 0x1D ==> |t.ind| == |s.ind| + 1 && IsFresh(s, t.ind[|s.ind|], opcode, len))
      && (!IsRequest(opcode) && opcode != 0x1D ==> |t.write| == |s.write| + 1 && IsFresh(s, t.write[|s.write|], opcode, len))
  {
    OpcodesAreKnown(opcode);
    hide TypeOf;
  }

  /** Nothing longer than a bearer can carry is taken from the queues in common, and something goes
      out whenever something that fits waits in front with its slot free. */
  lemma SomethingGoesOutIff(s: State, c: nat)
    requires c < |s.chans|
    ensures var ch := s.chans[c];
      && (Pick(s, c) != Nothing <==>
            || ch.queue != []
            || (s.write != [] && s.write[0].len <= ch.mtu)
            || (s.req != [] && s.req[0].len <= ch.mtu && ch.req.None?)
            || (s.ind != [] && s.ind[0].len <= ch.mtu && ch.ind.None?))
      && (Pick(s, c) != Nothing && ch.queue == [] ==> Popped(s, c).1.len <= ch.mtu)
  {
  }

  /** A new bearer has nothing waiting or pending, and comes before the others. */
  lemma AttachedIsEmpty(s: State, mtu: nat, local: bool, auto: bool, level: nat, t: State)
    requires level <= FIPS && t == Step(s, Attach(mtu, local, auto, level))
    ensures |t.chans| == |s.chans| + 1 && t.chans[1..] == s.chans && t.(chans := s.chans, bearers := s.bearers) == s
    ensures var ch := t.chans[0];
      && ch.mtu == mtu && ch.queue == [] && ch.req.None? && ch.ind.None? && !ch.inReq && ch.local == local && ch.auto == auto
      && ch.retries == 0 && ch.level == if local && auto then 0 else level
  {
  }

  /** A bearer takes one request of the other side at a time: another only once a response has gone out. */
  lemma RequestsAlternate(s: State, c: nat, t: State)
    requires c < |s.chans| && !s.chans[c].inReq && t == Step(s, Request(c))
    ensures t.chans == s.chans[c := s.chans[c].(inReq := true)] && !Enabled(t, Request(c))
  {
  }

  lemma ResponseEndsRequest(s: State, c: nat, ret: int, t: State)
    requires c < |s.chans| && s.chans[c].queue != [] && TypeOf(s.chans[c].queue[0].opcode) in {RspType, Conf}
    requires ret != 0 && t == Step(s, CanWrite(c, ret))
    ensures |t.chans| == |s.chans| && t.chans[c].queue == s.chans[c].queue[1..]
    ensures t.chans[c].inReq == (s.chans[c].inReq && TypeOf(s.chans[c].queue[0].opcode) == Conf)
  {
    hide TypeOf;
  }

  /** Setting the security level: of the bearer attached first, up to level 3, when the system grants it
      or the bearer is a local one; nothing else ever changes by it. */
  lemma SecurityIsSetIff(s: State, level: nat, granted: bool, t: State)
    requires t == Step(s, SetSecurity(level, granted))
    ensures var n := |s.chans|;
      if n > 0 && level <= 3 && (granted || s.chans[n - 1].local) then
        && t.(chans := s.chans) == s && |t.chans| == n && t.chans[..n - 1] == s.chans[..n - 1]
        && t.chans[n - 1].level == level && t.chans[n - 1].auto == (if s.chans[n - 1].local then level == 0 else s.chans[n - 1].auto)
      else t == s
  {
  }

  // ------------------------------------------------------------------ along runs

  lemma AfterOneMore(es: seq<Event>, e: Event)
    ensures After(es + [e]) == if Enabled(After(es), e) then Step(After(es), e) else After(es)
  {
    hide Step, Enabled;
    assert (es + [e])[..|es|] == es;
  }

  lemma ShapeAlong(es: seq<Event>)
    ensures Shape(After(es))
  {
    hide Shape;
    EveryRunKeeps(es);
  }

  /** In every run, the pending request's own response is told to its owner, and any other response
      as a failure. */
  lemma RunTellsResponse(es: seq<Event>, c: nat, opcode: int, named: int, ecode: int, sized: bool, granted: bool)
    requires var s := After(es); c < |s.chans| && s.chans[c].req.Some? && TypeOf(opcode) == RspType && opcode != 1
    ensures var s, t := After(es), After(es + [Response(c, opcode, named, ecode, sized, granted)]);
      var op := s.chans[c].req.value;
      && t.chans[c].req.None?
      && Told(s.log, t.log, op, if opcode == op.opcode + 1 then opcode else 1)
  {
    hide After, Step, Shape, TypeOf;
    var e := Response(c, opcode, named, ecode, sized, granted);
    ShapeAlong(es);
    AfterOneMore(es, e);
    ResponseIsTold(After(es), c, opcode, named, ecode, sized, granted, Step(After(es), e));
  }

  /** Request `i` of the common queue and all before it fit bearer `c`. */
  ghost predicate Fits(s: State, c: nat, i: nat) {
    c < |s.chans| && i < |s.req| && forall j :: 0 <= j <= i ==> s.req[j].len <= s.chans[c].mtu
  }

  /** The steps by which bearer `c` comes to send request `i`: own operations, commands, an answer to
      what is pending, the requests in front. */
  lemma OneStepCloser(s: State, c: nat, i: nat) returns (e: Event)
    requires Shape(s) && Fits(s, c, i)
    ensures Enabled(s, e)
    ensures var t, ch := Step(s, e), s.chans[c];
      && |t.chans| == |s.chans| && t.chans[c].mtu == ch.mtu
      && if ch.queue != [] || (s.write != [] && s.write[0].len <= ch.mtu) then
           && t.req == s.req && t.chans[c].req == ch.req && |t.chans[c].queue| + |t.write| == |ch.queue| + |s.write| - 1
         else if ch.req.Some? then
           t.req == s.req && t.chans[c].req.None? && t.chans[c].queue == ch.queue && t.write == s.write
         else
           t.req == s.req[1..] && t.chans[c].req == Some(s.req[0].(tries := s.req[0].tries + 1, timer := true))
  {
    var ch := s.chans[c];
    assert ChanOk(ch);
    if ch.queue == [] && (s.write == [] || s.write[0].len > ch.mtu) && ch.req.Some? {
      e := Response(c, ch.req.value.opcode + 1, 0, 0, false, false);
      OpcodesAreKnown(ch.req.value.opcode);
      OpcodesAreKnown(ch.req.value.opcode + 1);
      hide TypeOf, RequestOf;
    } else {
      e := CanWrite(c, 1);
      OpcodesAreKnown(s.req[0].opcode);
      hide RequestOf, Finish;
    }
  }

  /** No request waits in vain: after every run, a request whose owner has not been released and that,
      like all before it, fits some bearer, can still be answered. Some events more, and the last
      thing anybody has heard is that its own response came. */
  lemma {:induction false} RequestCanBeAnswered(es: seq<Event>, c: nat, i: nat) returns (es': seq<Event>)
    requires Fits(After(es), c, i) && After(es).req[i].owned
    ensures es <= es'
    ensures var op, calls := After(es).req[i], After(es').log.calls;
      calls != [] && calls[|calls| - 1] == Call(op.uid, op.opcode, op.opcode + 1)
    decreases i, |After(es).chans[c].queue| + |After(es).write|, After(es).chans[c].req.Some?
  {
    hide After, Step, Enabled, Shape, TypeOf;
    var s := After(es);
    ShapeAlong(es);
    var e := OneStepCloser(s, c, i);
    AfterOneMore(es, e);
    var es1 := es + [e];
    var t, ch := After(es1), s.chans[c];
    if ch.queue != [] || (s.write != [] && s.write[0].len <= ch.mtu) || ch.req.Some? {
      es' := RequestCanBeAnswered(es1, c, i);
    } else if i > 0 {
      assert t.req[i - 1] == s.req[i] && forall j :: 0 <= j <= i - 1 ==> t.req[j] == s.req[j + 1];
      es' := RequestCanBeAnswered(es1, c, i - 1);
    } else {
      es' := PendingIsAnswered(es1, c);
    }
  }

  lemma PendingIsAnswered(es: seq<Event>, c: nat) returns (es': seq<Event>)
    requires var s := After(es); c < |s.chans| && s.chans[c].req.Some? && s.chans[c].req.value.owned
    ensures es <= es'
    ensures var op, calls := After(es).chans[c].req.value, After(es').log.calls;
      calls != [] && calls[|calls| - 1] == Call(op.uid, op.opcode, op.opcode + 1)
  {
    hide After, TypeOf;
    ShapeAlong(es);
    var s := After(es);
    assert ChanOk(s.chans[c]);
    var op := s.chans[c].req.value;
    OpcodesAreKnown(op.opcode);
    OpcodesAreKnown(op.opcode + 1);
    es' := es + [Response(c, op.opcode + 1, 0, 0, false, false)];
    RunTellsResponse(es, c, op.opcode + 1, 0, 0, false, false);
  }
}
