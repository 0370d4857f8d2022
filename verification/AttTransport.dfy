/**
 The attribute transport as the program keeps it: one object per bearer and one that holds
 the common queues. Every event handler is proved to be the corresponding step of module Att.
 */
module AttTransport {
  import opened Bytes
  import opened Att

  class Channel {
    const mtu: nat
    const local: bool
    var queue: seq<Op>
    var pendingReq: Option<Op>
    var pendingInd: Option<Op>
    var inReq: bool
    var auto: bool
    var level: nat
    var retries: nat
    ghost var settings: nat

    ghost function Value(): Chan
      reads this
    {
      Chan(mtu, queue, pendingReq, pendingInd, inReq, local, auto, level, retries, settings)
    }

    constructor (m: nat, l: bool, a: bool, lev: nat)
      ensures Value() == Chan(m, [], None, None, false, l, a, lev, 0, 0)
    {
      mtu, local, queue, pendingReq, pendingInd, inReq, auto, level, retries, settings := m, l, [], None, None, false, a, lev, 0, 0;
    }

    /** Raises the security level when the error asks for it. */
    method ChangeSecurity(ecode: int, granted: bool) returns (changed: bool)
      modifies this`level, this`auto
      ensures var r := old(Raised(Value(), ecode));
        && changed == (r.Some? && (granted || local))
        && Value() == (if changed then old(Value()).(level := r.value, auto := old(auto) && !local) else old(Value()))
    {
      if !auto {
        return false;
      }
      var security := level;
      if ecode == INSUFFICIENT_ENCRYPTION && security < MEDIUM {
        security := MEDIUM;
      } else if ecode == AUTHENTICATION {
        if security < MEDIUM {
          security := MEDIUM;
        } else if security < HIGH {
          security := HIGH;
        } else if security < FIPS {
          security := FIPS;
        } else {
          return false;
        }
      } else {
        return false;
      }
      if local {
        level, auto := security, false;
        return true;
      }
      if !granted {
        return false;
      }
      level := security;
      return true;
    }

    /** Sets the security level. */
    method SetSecurity(lev: nat, granted: bool) returns (ok: bool)
      modifies this`level, this`auto, this`settings
      ensures ok == (local || granted)
      ensures Value() == if ok then old(Value()).(level := lev, auto := if local then lev == 0 else old(auto), settings := old(settings) + 1) else old(Value())
    {
      if local {
        level, auto, settings := lev, lev == 0, settings + 1;
        return true;
      }
      if !granted {
        return false;
      }
      level, settings := lev, settings + 1;
      return true;
    }
  }

  /** What the bearers hold, in order. */
  ghost function Values(chans: seq<Channel>): (vs: seq<Chan>)
    reads chans
    ensures |vs| == |chans|
  {
    if chans == [] then [] else [chans[0].Value()] + Values(chans[1..])
  }

  lemma {:induction false} ValuesAt(chans: seq<Channel>, c: nat)
    requires c < |chans|
    ensures Values(chans)[c] == chans[c].Value()
  {
    if c > 0 {
      ValuesAt(chans[1..], c - 1);
    }
  }

  lemma ValuesEqual(chans: seq<Channel>, vs: seq<Chan>)
    requires |vs| == |chans| && forall c :: 0 <= c < |chans| ==> vs[c] == chans[c].Value()
    ensures Values(chans) == vs
  {
    forall c | 0 <= c < |chans|
      ensures Values(chans)[c] == vs[c]
    {
      ValuesAt(chans, c);
    }
  }

  lemma ValuesAll(chans: seq<Channel>)
    ensures forall c :: 0 <= c < |chans| ==> Values(chans)[c] == chans[c].Value()
  {
    forall c | 0 <= c < |chans|
      ensures Values(chans)[c] == chans[c].Value()
    {
      ValuesAt(chans, c);
    }
  }

  /** Takes the first operation with `id` out of a queue. */
  method RemoveIf(q: seq<Op>, id: nat) returns (left: seq<Op>, op: Option<Op>)
    ensures var i := IndexOf(q, id);
      if i < |q| then op == Some(q[i]) && left == Without(q, i) else op == None && left == q
  {
    var i := 0;
    while i < |q|
      invariant i <= |q| && IndexOf(q, id) == i + IndexOf(q[i..], id)
    {
      assert q[i..][1..] == q[i + 1..];
      if q[i].id == id {
        return q[..i] + q[i + 1..], Some(q[i]);
      }
      i := i + 1;
    }
    return q, None;
  }

  lemma ReleaseUnfolds(g: Log, cs: seq<Chan>)
    ensures ReleaseAll(g, cs) == if cs == [] then g else ReleaseAll(ReleaseSlot(ReleaseSlot(g, cs[0].req), cs[0].ind), cs[1..])
  {
  }

  /** Is the operation with `id` pending here? */
  predicate Waits(slot: Option<Op>, id: nat) { slot.Some? && slot.value.id == id }

  class Transport {
    var reqQueue: seq<Op>
    var indQueue: seq<Op>
    var writeQueue: seq<Op>
    var chans: seq<Channel>
    var nextSendId: nat
    var nextUid: nat
    var bearers: nat
    ghost var log: Log

    /** No bearer is listed twice. */
    ghost predicate Valid()
      reads this
    {
      forall c, d :: 0 <= c < d < |chans| ==> chans[c] != chans[d]
    }

    ghost function Value(): State
      reads this, chans
    {
      State(reqQueue, indQueue, writeQueue, Values(chans), nextSendId, nextUid, bearers, log)
    }

    constructor ()
      ensures Valid() && Value() == Init()
    {
      reqQueue, indQueue, writeQueue, chans, nextSendId, nextUid, bearers := [], [], [], [], 1, 0, 0;
      log := Init().log;
    }

    method Attach(chan: Channel)
      requires Valid() && chan !in chans && chan.level <= FIPS && (chan.local && chan.auto ==> chan.level == 0)
      requires chan.Value() == Chan(chan.mtu, [], None, None, false, chan.local, chan.auto, chan.level, 0, 0)
      modifies this
      ensures Valid() && Value() == Step(old(Value()), Event.Attach(chan.mtu, chan.local, chan.auto, chan.level))
    {
      chans, bearers := [chan] + chans, bearers + 1;
      assert Values(chans) == [chan.Value()] + Values(old(chans));
    }

    method Send(opcode: int, len: nat)
      requires Valid()
      modifies this
      ensures Valid() && Value() == OnSend(old(Value()), opcode, len)
    {
      hide TypeOf;
      if |chans| == 0 || TypeOf(opcode) == Unknown {
        return;
      }
      var op := Op(nextUid, nextSendId, opcode, len, true, 0, false);
      nextUid, nextSendId := nextUid + 1, nextSendId + 1;
      if TypeOf(opcode) == Req {
        reqQueue := reqQueue + [op];
      } else if TypeOf(opcode) == Ind {
        indQueue := indQueue + [op];
      } else {
        writeQueue := writeQueue + [op];
      }
    }

    /** Takes the next operation to send on a bearer off its queue. */
    method PickNextSendOp(chan: Channel, ghost c: nat) returns (op: Option<Op>)
      requires Valid() && c < |chans| && chans[c] == chan
      modifies this`reqQueue, this`indQueue, this`writeQueue, chan`queue
      ensures Valid() && chans == old(chans)
      ensures var s := old(Value());
        if Pick(s, c) == Nothing then op == None && Value() == s
        else op == Some(Popped(s, c).1) && Value() == Popped(s, c).0
    {
      ghost var before := Values(chans);
      ValuesAll(chans);
      if chan.queue != [] {
        op := Some(chan.queue[0]);
        chan.queue := chan.queue[1..];
        ValuesEqual(chans, before[c := chan.Value()]);
        return;
      }
      if writeQueue != [] && writeQueue[0].len <= chan.mtu {
        op := Some(writeQueue[0]);
        writeQueue := writeQueue[1..];
        return;
      }
      if chan.pendingReq == None && reqQueue != [] && reqQueue[0].len <= chan.mtu {
        op := Some(reqQueue[0]);
        reqQueue := reqQueue[1..];
        return;
      }
      if chan.pendingInd == None && indQueue != [] && indQueue[0].len <= chan.mtu {
        op := Some(indQueue[0]);
        indQueue := indQueue[1..];
        return;
      }
      return None;
    }

    /** A bearer can be written; `ret` is what the write returns. */
    method CanWriteData(chan: Channel, ghost c: nat, ret: int) returns (more: bool)
      requires Valid() && c < |chans| && chans[c] == chan
      modifies this, chan
      ensures Valid() && Value() == OnCanWrite(old(Value()), c, ret)
      ensures more <==> Pick(old(Value()), c) != Nothing
    {
      hide Pick, Popped, Values, Finish, OnSent;
      var picked := PickNextSendOp(chan, c);
      if picked == None {
        return false;
      }
      more := true;
      ValuesAll(chans);
      if ret == 0 {
        log := Finish(log, picked.value, Some(ERROR_RSP));
        return;
      }
      Sent(chan, c, picked.value);
    }

    /** An operation has gone out. */
    method Sent(chan: Channel, ghost c: nat, op: Op)
      requires Valid() && c < |chans| && chans[c] == chan
      modifies this`log, chan
      ensures Valid() && Value() == OnSent(old(Value()), c, op)
    {
      hide TypeOf, Values, Finish;
      ghost var before := Values(chans);
      ValuesAll(chans);
      if TypeOf(op.opcode) == Req {
        chan.pendingReq := Some(op.(tries := op.tries + 1, timer := true));
        log := log.(sent := if op.tries == 0 then log.sent + [op.uid] else log.sent, out := log.out + [op.uid]);
      } else if TypeOf(op.opcode) == Ind {
        chan.pendingInd := Some(op.(tries := op.tries + 1, timer := true));
      } else {
        if TypeOf(op.opcode) == RspType {
          chan.inReq := false;
        }
        log := Finish(log, op, None);
      }
      ValuesEqual(chans, before[c := chan.Value()]);
      assert before[c := before[c]] == before;
    }

    /** An error response: the request is tried again when the security level can be raised
        for it; otherwise the result is the request the response names. */
    method HandleErrorRsp(chan: Channel, ghost c: nat, named: int, ecode: int, sized: bool, granted: bool)
      returns (retried: bool, reqOpcode: int)
      requires Valid() && c < |chans| && chans[c] == chan && chan.pendingReq.Some?
      modifies this`reqQueue, chan
      ensures Valid() && reqOpcode == (if sized then named else 0)
      ensures retried == (sized && old(Raised(chan.Value(), ecode)).Some? && (granted || chan.local))
      ensures Value() == if retried then OnResponse(old(Value()), c, ERROR_RSP, named, ecode, sized, granted) else old(Value())
    {
      hide Values, Raised, RequestOf, Finish;
      ghost var before := Values(chans);
      ValuesAll(chans);
      if !sized {
        return false, 0;
      }
      reqOpcode := named;
      retried := chan.ChangeSecurity(ecode, granted);
      if retried {
        var op := chan.pendingReq.value;
        chan.pendingReq := None;
        chan.retries := chan.retries + 1;
        reqQueue := [op.(timer := false)] + reqQueue;
      }
      ValuesEqual(chans, before[c := chan.Value()]);
      assert before[c := before[c]] == before;
    }

    /** A response arrives: `named` is the request an error response names. One that nothing
        waits for shuts the bearer down. */
    method HandleRsp(chan: Channel, ghost c: nat, opcode: int, named: int, ecode: int, sized: bool, granted: bool)
      returns (shutdown: bool)
      requires Valid() && c < |chans| && chans[c] == chan
      modifies this, chan
      ensures shutdown <==> old(chan.pendingReq) == None
      ensures Valid() && Value() == OnResponse(old(Value()), c, opcode, named, ecode, sized, granted)
    {
      hide RequestOf, Values, Raised, Finish;
      ghost var before := Values(chans);
      ValuesAll(chans);
      if chan.pendingReq == None {
        return true;
      }
      shutdown := false;
      var reqOpcode := RequestOf(opcode);
      if opcode == ERROR_RSP {
        var retried;
        retried, reqOpcode := HandleErrorRsp(chan, c, named, ecode, sized, granted);
        if retried {
          return;
        }
        ValuesAll(chans);
      }
      var op := chan.pendingReq.value;
      log := Finish(log, op, Some(if reqOpcode == op.opcode then opcode else ERROR_RSP));
      chan.pendingReq := None;
      ValuesEqual(chans, before[c := chan.Value()]);
    }

    /** A confirmation arrives. One that nothing waits for, or that is not empty, shuts the
        bearer down. */
    method HandleConf(chan: Channel, ghost c: nat, len: nat) returns (shutdown: bool)
      requires Valid() && c < |chans| && chans[c] == chan
      modifies this, chan
      ensures shutdown <==> old(chan.pendingInd) == None || len > 0
      ensures Valid() && Value() == OnConfirmation(old(Value()), c, len)
    {
      hide Values;
      ghost var before := Values(chans);
      ValuesAll(chans);
      if chan.pendingInd == None || len > 0 {
        return true;
      }
      shutdown := false;
      log := Finish(log, chan.pendingInd.value, Some(HANDLE_CONF));
      chan.pendingInd := None;
      ValuesEqual(chans, before[c := chan.Value()]);
    }

    /** The time for an answer is over. If the operation is still pending, it ends in an error and
        the bearer is shut down. */
    method TimeoutCb(chan: Channel, ghost c: nat, id: nat) returns (shutdown: bool)
      requires Valid() && c < |chans| && chans[c] == chan
      modifies this, chan
      ensures shutdown <==> Waits(old(chan.pendingReq), id) || Waits(old(chan.pendingInd), id)
      ensures Valid() && Value() == OnTimeout(old(Value()), c, id)
    {
      hide Values, Finish;
      ghost var before := Values(chans);
      ValuesAll(chans);
      shutdown := true;
      if chan.pendingReq.Some? && chan.pendingReq.value.id == id {
        log := Finish(log, chan.pendingReq.value, Some(ERROR_RSP));
        chan.pendingReq := None;
      } else if chan.pendingInd.Some? && chan.pendingInd.value.id == id {
        log := Finish(log, chan.pendingInd.value, Some(ERROR_RSP));
        chan.pendingInd := None;
      } else {
        shutdown := false;
      }
      ValuesEqual(chans, before[c := chan.Value()]);
      assert before[c := before[c]] == before;
    }

    /** Cancels on one bearer, if the operation is there. */
    method ChanCancel(chan: Channel, ghost c: nat, id: nat) returns (found: bool)
      requires Valid() && c < |chans| && chans[c] == chan
      modifies this`log, chan`queue, chan`pendingReq, chan`pendingInd
      ensures old(Value()).chans[c] == old(chan.Value())
      ensures Valid() && found == Holds(old(chan.Value()), id)
      ensures Value() == OnChanCancel(old(Value()), c, id)
    {
      hide Values, Finish, Without;
      ghost var before := Values(chans);
      ValuesAll(chans);
      if chan.pendingReq.Some? && chan.pendingReq.value.id == id {
        log := ReleaseOwner(log, chan.pendingReq.value);
        chan.pendingReq := Some(Disown(chan.pendingReq.value));
        ValuesEqual(chans, before[c := chan.Value()]);
        return true;
      }
      if chan.pendingInd.Some? && chan.pendingInd.value.id == id {
        log := ReleaseOwner(log, chan.pendingInd.value);
        chan.pendingInd := Some(Disown(chan.pendingInd.value));
        ValuesEqual(chans, before[c := chan.Value()]);
        return true;
      }
      var left, op := RemoveIf(chan.queue, id);
      if op == None {
        return false;
      }
      chan.queue := left;
      log := Finish(log, op.value, None);
      ValuesEqual(chans, before[c := chan.Value()]);
      return true;
    }

    method Cancel(id: nat) returns (found: bool)
      requires Valid()
      modifies this, chans
      ensures Valid() && Value() == OnCancel(old(Value()), id)
    {
      hide Without, Holds, CancelOn, IndexOf, Values, Finish;
      if id == 0 {
        return false;
      }
      var c := 0;
      while c < |chans|
        invariant c <= |chans| && chans == old(chans) && Value() == old(Value())
        invariant Holder(Values(chans), id) == c + Holder(Values(chans)[c..], id)
      {
        ghost var vs := Values(chans);
        assert vs[c..][0] == vs[c] && vs[c..][1..] == vs[c + 1..];
        ValuesAt(chans, c);
        found := ChanCancel(chans[c], c, id);
        if found {
          return;
        }
        c := c + 1;
      }
      var left, op := RemoveIf(reqQueue, id);
      if op.Some? {
        reqQueue, log := left, Finish(log, op.value, None);
        return true;
      }
      left, op := RemoveIf(indQueue, id);
      if op.Some? {
        indQueue, log := left, Finish(log, op.value, None);
        return true;
      }
      left, op := RemoveIf(writeQueue, id);
      if op.Some? {
        writeQueue, log := left, Finish(log, op.value, None);
        return true;
      }
      return false;
    }

    method DisownPending(chan: Channel)
      modifies this`log, chan`pendingReq, chan`pendingInd
      ensures log == ReleaseSlot(ReleaseSlot(old(log), old(chan.pendingReq)), old(chan.pendingInd))
      ensures chan.Value() == Disowned(old(chan.Value()))
    {
      if chan.pendingReq.Some? {
        log := ReleaseOwner(log, chan.pendingReq.value);
        chan.pendingReq := Some(Disown(chan.pendingReq.value));
      }
      if chan.pendingInd.Some? {
        log := ReleaseOwner(log, chan.pendingInd.value);
        chan.pendingInd := Some(Disown(chan.pendingInd.value));
      }
    }

    /** Drops the common queues and disowns what is pending. */
    method CancelAll()
      requires Valid()
      modifies this, chans
      ensures Valid() && Value() == OnCancelAll(old(Value()))
    {
      hide FinishAll, Values, ReleaseSlot, Disowned, ReleaseAll;
      ghost var before := Values(chans);
      ValuesAll(chans);
      log := FinishAll(FinishAll(FinishAll(log, reqQueue, None), indQueue, None), writeQueue, None);
      ghost var g := log;
      reqQueue, indQueue, writeQueue := [], [], [];
      var c := 0;
      while c < |chans|
        invariant c <= |chans| && chans == old(chans) && Valid()
        invariant reqQueue == indQueue == writeQueue == []
        invariant nextSendId == old(nextSendId) && nextUid == old(nextUid) && bearers == old(bearers)
        invariant forall d :: 0 <= d < c ==> chans[d].Value() == DisownAll(before)[d]
        invariant forall d :: c <= d < |chans| ==> chans[d].Value() == before[d]
        invariant ReleaseAll(log, before[c..]) == ReleaseAll(g, before)
      {
        var chan := chans[c];
        assert before[c..][0] == before[c] == chan.Value() && before[c..][1..] == before[c + 1..];
        ReleaseUnfolds(log, before[c..]);
        DisownPending(chan);
        c := c + 1;
      }
      ValuesEqual(chans, DisownAll(before));
      assert before[|chans|..] == [];
      ReleaseUnfolds(log, []);
    }

    method DropPending(chan: Channel)
      modifies this`log, chan`pendingReq, chan`pendingInd
      ensures chan.pendingReq == chan.pendingInd == None
      ensures var err := Some(ERROR_RSP); log == FinishSlot(FinishSlot(old(log), old(chan.pendingReq), err), old(chan.pendingInd), err)
    {
      hide Finish;
      if chan.pendingReq.Some? {
        log := Finish(log, chan.pendingReq.value, Some(ERROR_RSP));
        chan.pendingReq := None;
      }
      if chan.pendingInd.Some? {
        log := Finish(log, chan.pendingInd.value, Some(ERROR_RSP));
        chan.pendingInd := None;
      }
    }

    /** A bearer is lost. */
    method DisconnectCb(chan: Channel, c: nat)
      requires Valid() && c < |chans| && chans[c] == chan
      modifies this, chan
      ensures Valid() && Value() == OnDisconnect(old(Value()), c)
    {
      hide FinishAll, Values, FinishSlot;
      ghost var err := Some(ERROR_RSP);
      ghost var before := Values(chans);
      ValuesAll(chans);
      chans := chans[..c] + chans[c + 1..];
      log := FinishAll(FinishAll(FinishAll(log, reqQueue, err), indQueue, err), writeQueue, err);
      reqQueue, indQueue, writeQueue := [], [], [];
      DropPending(chan);
      log := FinishAll(log, chan.queue, None);
      ValuesEqual(chans, Without(before, c));
    }

    /** Sets the security level of the bearer at the tail of the list. */
    method SetSecurity(lev: nat, granted: bool) returns (ok: bool)
      requires Valid()
      modifies chans
      ensures Valid() && Value() == OnSetSecurity(old(Value()), lev, granted)
      ensures ok ==> lev <= HIGH
    {
      hide Values;
      if lev > HIGH {
        return false;
      }
      if |chans| == 0 {
        return true;
      }
      ghost var before := Values(chans);
      ValuesAll(chans);
      var chan := chans[|chans| - 1];
      ok := chan.SetSecurity(lev, granted);
      ValuesEqual(chans, before[|chans| - 1 := chan.Value()]);
      assert before[|chans| - 1 := before[|chans| - 1]] == before;
    }
  }
}
