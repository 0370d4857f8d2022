/**
 The attribute protocol's operations: queued, sent, answered, retried, cancelled, timed out
 or dropped. The state machine over all these events, and what every run of it keeps: no
 operation is lost or duplicated, its owner is told at most once and released exactly once,
 each bearer has one request and one indication outstanding at most, and requests leave in
 the order they were submitted.
 */
module Att {
  import opened Bytes

  // ------------------------------------------------------------------ opcodes

  datatype OpType = Req | RspType | Cmd | Ind | Nfy | Conf | Unknown

  const ERROR_RSP := 0x01
  const HANDLE_NFY := 0x1B
  const HANDLE_IND := 0x1D
  const HANDLE_CONF := 0x1E
  const HANDLE_NFY_MULT := 0x23

  /** The request a response answers, 0 for anything that is no response to a request. */
  function RequestOf(rsp: int): int {
    if rsp in {0x03, 0x05, 0x07, 0x09, 0x0B, 0x0D, 0x0F, 0x11, 0x13, 0x17, 0x19} then rsp - 1 else 0
  }

  function TypeOf(opcode: int): OpType {
    if opcode in {0x02, 0x04, 0x06, 0x08, 0x0A, 0x0C, 0x0E, 0x10, 0x12, 0x16, 0x18} then Req
    else if opcode == ERROR_RSP || RequestOf(opcode) != 0 then RspType
    else if opcode == HANDLE_NFY || opcode == HANDLE_NFY_MULT then Nfy
    else if opcode == HANDLE_IND then Ind
    else if opcode == HANDLE_CONF then Conf
    else if (opcode / 0x40) % 2 == 1 then Cmd
    else Unknown
  }

  // ------------------------------------------------------------------ the state

  /** `uid` tells operations apart. `id` is what the caller gets to cancel it by, 0 for an
      operation of one bearer only. `owned` until the owner has been released; `tries` is how
      often it has been sent; `timer` while its response is timed. */
  datatype Op = Op(uid: nat, id: nat, opcode: int, len: nat, owned: bool, tries: nat, timer: bool)

  /** A bearer. `auto` says that the security level is raised on demand; `level` is the level
      in force; `retries` counts the requests tried again, `settings` how often the level was
      set from above. */
  datatype Chan = Chan(mtu: nat, queue: seq<Op>, req: Option<Op>, ind: Option<Op>, inReq: bool,
                       local: bool, auto: bool, level: nat, retries: nat, settings: nat)

  /** An answer: what the owner's callback was told about the operation sent with `opcode`. */
  datatype Call = Call(uid: nat, opcode: int, told: int)

  /** `finished` are the operations taken out of everything, `released` those whose owner's
      destroy function has run, `sent` the requests in the order they went out for the first
      time, `out` every transmission of a request. */
  datatype Log = Log(finished: multiset<nat>, released: multiset<nat>, calls: seq<Call>, sent: seq<nat>, out: seq<nat>)

  /** `bearers` counts the bearers there have been. */
  datatype State = State(req: seq<Op>, ind: seq<Op>, write: seq<Op>, chans: seq<Chan>,
                         nextId: nat, nextUid: nat, bearers: nat, log: Log)

  // ------------------------------------------------------------------ taking operations out

  predicate HasCallback(op: Op) { op.owned && (TypeOf(op.opcode) == Req || TypeOf(op.opcode) == Ind) }

  /** An operation is done with: its owner is told when `told` is an opcode, and released. */
  function Finish(g: Log, op: Op, told: Option<int>): Log {
    g.(finished := g.finished + multiset{op.uid},
       released := if op.owned then g.released + multiset{op.uid} else g.released,
       calls := if told.Some? && HasCallback(op) then g.calls + [Call(op.uid, op.opcode, told.value)] else g.calls)
  }

  function FinishAll(g: Log, q: seq<Op>, told: Option<int>): Log
    decreases |q|
  {
    if q == [] then g else FinishAll(Finish(g, q[0], told), q[1..], told)
  }

  function FinishSlot(g: Log, slot: Option<Op>, told: Option<int>): Log {
    if slot.Some? then Finish(g, slot.value, told) else g
  }

  /** A pending operation loses its owner but stays pending. */
  function Disown(op: Op): Op { op.(owned := false) }

  function ReleaseOwner(g: Log, op: Op): Log {
    if op.owned then g.(released := g.released + multiset{op.uid}) else g
  }

  // ------------------------------------------------------------------ events

  datatype Event =
    | Attach(mtu: nat, local: bool, auto: bool, level: nat)
    | Send(opcode: int, len: nat)
    | ChanSend(c: nat, opcode: int, len: nat)
    | CanWrite(c: nat, ret: int)
    | Response(c: nat, opcode: int, named: int, ecode: int, sized: bool, granted: bool)
    | Confirmation(c: nat, len: nat)
    | Timeout(c: nat, id: nat)
    | Cancel(id: nat)
    | ChanCancel(c: nat, id: nat)
    | CancelAll
    | Disconnect(c: nat)
    | Request(c: nat)
    | SetSecurity(level: nat, granted: bool)

  /** Submits an operation. Without a bearer it is not accepted. */
  function OnSend(s: State, opcode: int, len: nat): State {
    if s.chans == [] || TypeOf(opcode) == Unknown then s
    else
      var op := Op(s.nextUid, s.nextId, opcode, len, true, 0, false);
      var t := s.(nextId := s.nextId + 1, nextUid := s.nextUid + 1);
      if TypeOf(opcode) == Req then t.(req := t.req + [op])
      else if TypeOf(opcode) == Ind then t.(ind := t.ind + [op])
      else t.(write := t.write + [op])
  }

  /** Submits a response or confirmation to one bearer. */
  function OnChanSend(s: State, c: nat, opcode: int, len: nat): State
    requires c < |s.chans|
  {
    var op := Op(s.nextUid, 0, opcode, len, true, 0, false);
    s.(nextUid := s.nextUid + 1, chans := s.chans[c := s.chans[c].(queue := s.chans[c].queue + [op])])
  }

  datatype Source = FromChan | FromWrite | FromReq | FromInd | Nothing

  /** Where the next operation to send on a bearer comes from. */
  function Pick(s: State, c: nat): Source
    requires c < |s.chans|
  {
    var ch := s.chans[c];
    if ch.queue != [] then FromChan
    else if s.write != [] && s.write[0].len <= ch.mtu then FromWrite
    else if ch.req.None? && s.req != [] && s.req[0].len <= ch.mtu then FromReq
    else if ch.ind.None? && s.ind != [] && s.ind[0].len <= ch.mtu then FromInd
    else Nothing
  }

  /** Takes the picked operation off its queue. */
  function Popped(s: State, c: nat): (State, Op)
    requires c < |s.chans| && Pick(s, c) != Nothing
  {
    match Pick(s, c)
    case FromChan => (s.(chans := s.chans[c := s.chans[c].(queue := s.chans[c].queue[1..])]), s.chans[c].queue[0])
    case FromWrite => (s.(write := s.write[1..]), s.write[0])
    case FromReq => (s.(req := s.req[1..]), s.req[0])
    case FromInd => (s.(ind := s.ind[1..]), s.ind[0])
  }

  /** An operation has gone out: one that waits for an answer takes its slot, any other is done. */
  function OnSent(t: State, c: nat, op: Op): State
    requires c < |t.chans|
  {
    var ch, out := t.chans[c], op.(tries := op.tries + 1, timer := true);
    match TypeOf(op.opcode)
    case Req =>
      t.(chans := t.chans[c := ch.(req := Some(out))],
         log := t.log.(sent := if op.tries == 0 then t.log.sent + [op.uid] else t.log.sent, out := t.log.out + [op.uid]))
    case Ind => t.(chans := t.chans[c := ch.(ind := Some(out))])
    case RspType => t.(chans := t.chans[c := ch.(inReq := false)], log := Finish(t.log, op, None))
    case _ => t.(log := Finish(t.log, op, None))
  }

  /** The bearer can be written: one operation goes out. Only a write of nothing counts as a
      failure; a negative result is taken for success. */
  function OnCanWrite(s: State, c: nat, ret: int): State
    requires c < |s.chans|
  {
    if Pick(s, c) == Nothing then s
    else
      var (t, op) := Popped(s, c);
      if ret == 0 then t.(log := Finish(t.log, op, Some(ERROR_RSP))) else OnSent(t, c, op)
  }

  const INSUFFICIENT_ENCRYPTION := 0x0F
  const AUTHENTICATION := 0x05
  const MEDIUM := 2
  const HIGH := 3
  const FIPS := 4

  /** The level an error asks for, if the bearer's level can be raised for it. */
  function Raised(ch: Chan, ecode: int): Option<nat> {
    if !ch.auto then None
    else if ecode == INSUFFICIENT_ENCRYPTION && ch.level < MEDIUM then Some(MEDIUM)
    else if ecode == AUTHENTICATION then
      if ch.level < MEDIUM then Some(MEDIUM)
      else if ch.level < HIGH then Some(HIGH)
      else if ch.level < FIPS then Some(FIPS)
      else None
    else None
  }

  /** A response. An error may raise the security level; then the request goes back to the
      head of its queue. Otherwise the request is over: successfully only when the response
      is one to this request. */
  function OnResponse(s: State, c: nat, opcode: int, named: int, ecode: int, sized: bool, granted: bool): State
    requires c < |s.chans|
  {
    var ch := s.chans[c];
    if ch.req.None? then s
    else
      var op := ch.req.value;
      if opcode == ERROR_RSP && sized && Raised(ch, ecode).Some? && (granted || ch.local) then
        s.(req := [op.(timer := false)] + s.req,
           chans := s.chans[c := ch.(req := None, level := Raised(ch, ecode).value, retries := ch.retries + 1,
                                     auto := ch.auto && !ch.local)])
      else
        var req := if opcode == ERROR_RSP then (if sized then named else 0) else RequestOf(opcode);
        var told := if req == op.opcode then opcode else ERROR_RSP;
        s.(chans := s.chans[c := ch.(req := None)], log := Finish(s.log, op, Some(told)))
  }

  function OnConfirmation(s: State, c: nat, len: nat): State
    requires c < |s.chans|
  {
    var ch := s.chans[c];
    if ch.ind.None? || len > 0 then s
    else s.(chans := s.chans[c := ch.(ind := None)], log := Finish(s.log, ch.ind.value, Some(HANDLE_CONF)))
  }

  function OnTimeout(s: State, c: nat, id: nat): State
    requires c < |s.chans|
  {
    var ch := s.chans[c];
    if ch.req.Some? && ch.req.value.id == id then
      s.(chans := s.chans[c := ch.(req := None)], log := Finish(s.log, ch.req.value, Some(ERROR_RSP)))
    else if ch.ind.Some? && ch.ind.value.id == id then
      s.(chans := s.chans[c := ch.(ind := None)], log := Finish(s.log, ch.ind.value, Some(ERROR_RSP)))
    else s
  }

  /** Position of the first operation with `id`, or the length of the queue. */
  function IndexOf(q: seq<Op>, id: nat): (i: nat)
    ensures i <= |q| && (i < |q| ==> q[i].id == id) && forall j :: 0 <= j < i ==> q[j].id != id
  {
    if q == [] || q[0].id == id then 0 else IndexOf(q[1..], id) + 1
  }

  /** The first bearer on which `id` is pending or queued, or the number of bearers. */
  function Holder(chans: seq<Chan>, id: nat): (c: nat)
    ensures c <= |chans| && (c < |chans| ==> Holds(chans[c], id))
  {
    if chans == [] || Holds(chans[0], id) then 0 else Holder(chans[1..], id) + 1
  }

  predicate Holds(ch: Chan, id: nat) {
    (ch.req.Some? && ch.req.value.id == id) || (ch.ind.Some? && ch.ind.value.id == id) || IndexOf(ch.queue, id) < |ch.queue|
  }

  /** Cancels on one bearer: what is pending stays pending without its owner. */
  function CancelOn(s: State, c: nat, id: nat): State
    requires c < |s.chans| && Holds(s.chans[c], id)
  {
    var ch := s.chans[c];
    if ch.req.Some? && ch.req.value.id == id then
      s.(chans := s.chans[c := ch.(req := Some(Disown(ch.req.value)))], log := ReleaseOwner(s.log, ch.req.value))
    else if ch.ind.Some? && ch.ind.value.id == id then
      s.(chans := s.chans[c := ch.(ind := Some(Disown(ch.ind.value)))], log := ReleaseOwner(s.log, ch.ind.value))
    else
      var i := IndexOf(ch.queue, id);
      s.(chans := s.chans[c := ch.(queue := Without(ch.queue, i))], log := Finish(s.log, ch.queue[i], None))
  }

  /** Cancels on one bearer, if the operation is there. */
  function OnChanCancel(s: State, c: nat, id: nat): State
    requires c < |s.chans|
  {
    if Holds(s.chans[c], id) then CancelOn(s, c, id) else s
  }

  function OnCancel(s: State, id: nat): State {
    if id == 0 then s
    else if Holder(s.chans, id) < |s.chans| then CancelOn(s, Holder(s.chans, id), id)
    else
      var r, i, w := IndexOf(s.req, id), IndexOf(s.ind, id), IndexOf(s.write, id);
      if r < |s.req| then s.(req := Without(s.req, r), log := Finish(s.log, s.req[r], None))
      else if i < |s.ind| then s.(ind := Without(s.ind, i), log := Finish(s.log, s.ind[i], None))
      else if w < |s.write| then s.(write := Without(s.write, w), log := Finish(s.log, s.write[w], None))
      else s
  }

  function DisownSlot(slot: Option<Op>): Option<Op> { if slot.Some? then Some(Disown(slot.value)) else None }

  function ReleaseSlot(g: Log, slot: Option<Op>): Log { if slot.Some? then ReleaseOwner(g, slot.value) else g }

  /** A bearer whose pending operations have lost their owners. */
  function Disowned(ch: Chan): Chan { ch.(req := DisownSlot(ch.req), ind := DisownSlot(ch.ind)) }

  function DisownAll(chans: seq<Chan>): (ds: seq<Chan>)
    ensures |ds| == |chans|
    ensures forall c :: 0 <= c < |ds| ==> ds[c] == Disowned(chans[c])
  {
    if chans == [] then [] else [Disowned(chans[0])] + DisownAll(chans[1..])
  }

  function ReleaseAll(g: Log, chans: seq<Chan>): Log
    decreases |chans|
  {
    if chans == [] then g else ReleaseAll(ReleaseSlot(ReleaseSlot(g, chans[0].req), chans[0].ind), chans[1..])
  }

  /** Everything queued for the bearers in common is dropped, everything pending disowned. */
  function OnCancelAll(s: State): State {
    var g := FinishAll(FinishAll(FinishAll(s.log, s.req, None), s.ind, None), s.write, None);
    s.(req := [], ind := [], write := [], chans := DisownAll(s.chans), log := ReleaseAll(g, s.chans))
  }

  /** A bearer is lost: what is queued in common and what is pending on it ends in an error,
      what is queued on it is dropped. */
  function OnDisconnect(s: State, c: nat): State
    requires c < |s.chans|
  {
    var ch, err := s.chans[c], Some(ERROR_RSP);
    var g := FinishAll(FinishAll(FinishAll(s.log, s.req, err), s.ind, err), s.write, err);
    s.(req := [], ind := [], write := [], chans := Without(s.chans, c),
       log := FinishAll(FinishSlot(FinishSlot(g, ch.req, err), ch.ind, err), ch.queue, None))
  }

  /** Sets the security level of the bearer attached first. `granted` is the system's answer,
      which a local bearer does without. */
  function OnSetSecurity(s: State, level: nat, granted: bool): State {
    if level > HIGH || s.chans == [] then s
    else
      var c := |s.chans| - 1;
      var ch := s.chans[c];
      if !ch.local && !granted then s
      else s.(chans := s.chans[c := ch.(level := level, auto := if ch.local then level == 0 else ch.auto, settings := ch.settings + 1)])
  }

  predicate Enabled(s: State, e: Event) {
    match e
    case Attach(_, _, _, level) => level <= FIPS
    case Send(_, _) => true
    case ChanSend(c, opcode, _) => c < |s.chans| && (TypeOf(opcode) == RspType || TypeOf(opcode) == Conf)
    case CanWrite(c, _) => c < |s.chans|
    case Response(c, opcode, _, _, _, _) => c < |s.chans| && TypeOf(opcode) == RspType
    case Confirmation(c, _) => c < |s.chans|
    case Timeout(c, _) => c < |s.chans|
    case Cancel(_) => true
    case ChanCancel(c, _) => c < |s.chans|
    case CancelAll => true
    case Disconnect(c) => c < |s.chans|
    case Request(c) => c < |s.chans| && !s.chans[c].inReq
    case SetSecurity(_, _) => true
  }

  function Step(s: State, e: Event): State
    requires Enabled(s, e)
  {
    match e
    case Attach(mtu, local, auto, level) =>
      s.(bearers := s.bearers + 1,
         chans := [Chan(mtu, [], None, None, false, local, auto, if local && auto then 0 else level, 0, 0)] + s.chans)
    case Send(opcode, len) => OnSend(s, opcode, len)
    case ChanSend(c, opcode, len) => OnChanSend(s, c, opcode, len)
    case CanWrite(c, ret) => OnCanWrite(s, c, ret)
    case Response(c, opcode, named, ecode, sized, granted) => OnResponse(s, c, opcode, named, ecode, sized, granted)
    case Confirmation(c, len) => OnConfirmation(s, c, len)
    case Timeout(c, id) => OnTimeout(s, c, id)
    case Cancel(id) => OnCancel(s, id)
    case ChanCancel(c, id) => OnChanCancel(s, c, id)
    case CancelAll => OnCancelAll(s)
    case Disconnect(c) => OnDisconnect(s, c)
    case Request(c) => s.(chans := s.chans[c := s.chans[c].(inReq := true)])
    case SetSecurity(level, granted) => OnSetSecurity(s, level, granted)
  }

  function Init(): State { State([], [], [], [], 1, 0, 0, Log(multiset{}, multiset{}, [], [], [])) }

  /** The state after a run; an event that cannot happen when its turn comes is passed over. */
  function After(es: seq<Event>): State {
    if es == [] then Init()
    else
      var s, e := After(es[..|es| - 1]), es[|es| - 1];
      if Enabled(s, e) then Step(s, e) else s
  }
}
