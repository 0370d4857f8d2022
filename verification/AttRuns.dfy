/** What every run of the attribute protocol's operations keeps. */
module AttRuns {
  import opened Bytes
  import opened Att

  // ------------------------------------------------------------------ counting operations

  /** 1 when the operation is number `u`, and still has its owner when only those count. */
  function One(op: Op, owned: bool, u: nat): nat { if op.uid == u && (!owned || op.owned) then 1 else 0 }

  function InQueue(q: seq<Op>, owned: bool, u: nat): nat {
    if q == [] then 0 else One(q[0], owned, u) + InQueue(q[1..], owned, u)
  }

  function InSlot(slot: Option<Op>, owned: bool, u: nat): nat {
    if slot.Some? then One(slot.value, owned, u) else 0
  }

  function OnChan(ch: Chan, owned: bool, u: nat): nat {
    InQueue(ch.queue, owned, u) + InSlot(ch.req, owned, u) + InSlot(ch.ind, owned, u)
  }

  function OnChans(chans: seq<Chan>, owned: bool, u: nat): nat {
    if chans == [] then 0 else OnChan(chans[0], owned, u) + OnChans(chans[1..], owned, u)
  }

  /** In how many queues and pending slots operation `u` is. */
  function Places(s: State, owned: bool, u: nat): nat {
    InQueue(s.req, owned, u) + InQueue(s.ind, owned, u) + InQueue(s.write, owned, u) + OnChans(s.chans, owned, u)
  }

  function Calls(calls: seq<Call>, u: nat): nat {
    if calls == [] then 0
    else Calls(calls[..|calls| - 1], u) + if calls[|calls| - 1].uid == u then 1 else 0
  }

  /** The books balance for operation `u`, of `n` submitted so far: it is in one place or
      finished; its owner waits in one place or has been released, once; its callback has run
      once at most, and not before it was finished. */
  ghost predicate Balanced(here: nat, waiting: nat, g: Log, n: nat, u: nat) {
    && here + g.finished[u] == (if u < n then 1 else 0)
    && waiting + g.released[u] == (if u < n then 1 else 0)
    && Calls(g.calls, u) <= g.finished[u]
  }

  ghost predicate BooksBalance(s: State, u: nat) { Balanced(Places(s, false, u), Places(s, true, u), s.log, s.nextUid, u) }

  ghost predicate Conserved(s: State) { forall u: nat :: BooksBalance(s, u) }

  lemma {:induction false} QueueAppend(q: seq<Op>, op: Op, owned: bool, u: nat)
    ensures InQueue(q + [op], owned, u) == InQueue(q, owned, u) + One(op, owned, u)
  {
    if q == [] {
      assert q + [op] == [op];
      assert InQueue([op], owned, u) == One(op, owned, u) + InQueue([], owned, u);
    } else {
      assert (q + [op])[1..] == q[1..] + [op];
      QueueAppend(q[1..], op, owned, u);
    }
  }

  lemma QueueCons(op: Op, q: seq<Op>, owned: bool, u: nat)
    ensures InQueue([op] + q, owned, u) == One(op, owned, u) + InQueue(q, owned, u)
  {
    assert ([op] + q)[1..] == q;
  }

  lemma {:induction false} QueueWithout(q: seq<Op>, i: nat, owned: bool, u: nat)
    requires i < |q|
    ensures InQueue(q, owned, u) == InQueue(Without(q, i), owned, u) + One(q[i], owned, u)
  {
    if i == 0 {
      assert Without(q, 0) == q[1..];
    } else {
      QueueWithout(q[1..], i - 1, owned, u);
      assert Without(q, i) == [q[0]] + Without(q[1..], i - 1);
      QueueCons(q[0], Without(q[1..], i - 1), owned, u);
    }
  }

  lemma {:induction false} ChansUpdate(chans: seq<Chan>, c: nat, ch: Chan, owned: bool, u: nat)
    requires c < |chans|
    ensures OnChans(chans[c := ch], owned, u) + OnChan(chans[c], owned, u) == OnChans(chans, owned, u) + OnChan(ch, owned, u)
  {
    hide OnChan;
    if c == 0 {
      assert chans[0 := ch][1..] == chans[1..];
    } else {
      ChansUpdate(chans[1..], c - 1, ch, owned, u);
      assert chans[c := ch][1..] == chans[1..][c - 1 := ch];
    }
  }

  lemma {:induction false} ChansWithout(chans: seq<Chan>, c: nat, owned: bool, u: nat)
    requires c < |chans|
    ensures OnChans(chans, owned, u) == OnChans(Without(chans, c), owned, u) + OnChan(chans[c], owned, u)
  {
    hide OnChan;
    if c == 0 {
      assert Without(chans, 0) == chans[1..];
    } else {
      ChansWithout(chans[1..], c - 1, owned, u);
      assert Without(chans, c)[1..] == Without(chans[1..], c - 1);
    }
  }

  // ------------------------------------------------------------------ the books under each entry

  lemma FinishBalances(here: nat, waiting: nat, g: Log, op: Op, told: Option<int>, n: nat, u: nat)
    requires Balanced(here + One(op, false, u), waiting + One(op, true, u), g, n, u)
    ensures Balanced(here, waiting, Finish(g, op, told), n, u)
  {
    hide TypeOf;
    if told.Some? && HasCallback(op) {
      CallsAppend(g.calls, Call(op.uid, op.opcode, told.value), u);
    }
  }

  lemma CallsAppend(calls: seq<Call>, c: Call, u: nat)
    ensures Calls(calls + [c], u) == Calls(calls, u) + if c.uid == u then 1 else 0
  {
    assert (calls + [c])[..|calls|] == calls;
  }

  lemma {:induction false} FinishAllBalances(here: nat, waiting: nat, g: Log, q: seq<Op>, told: Option<int>, n: nat, u: nat)
    requires Balanced(here + InQueue(q, false, u), waiting + InQueue(q, true, u), g, n, u)
    ensures Balanced(here, waiting, FinishAll(g, q, told), n, u)
    decreases |q|
  {
    hide Balanced, Finish, One;
    if q != [] {
      FinishBalances(here + InQueue(q[1..], false, u), waiting + InQueue(q[1..], true, u), g, q[0], told, n, u);
      FinishAllBalances(here, waiting, Finish(g, q[0], told), q[1..], told, n, u);
    }
  }

  lemma FinishSlotBalances(here: nat, waiting: nat, g: Log, slot: Option<Op>, told: Option<int>, n: nat, u: nat)
    requires Balanced(here + InSlot(slot, false, u), waiting + InSlot(slot, true, u), g, n, u)
    ensures Balanced(here, waiting, FinishSlot(g, slot, told), n, u)
  {
    hide Balanced, Finish, One;
    if slot.Some? {
      FinishBalances(here, waiting, g, slot.value, told, n, u);
    }
  }

  lemma ReleaseSlotBalances(here: nat, waiting: nat, g: Log, slot: Option<Op>, n: nat, u: nat)
    requires Balanced(here, waiting + InSlot(slot, true, u), g, n, u)
    ensures Balanced(here, waiting, ReleaseSlot(g, slot), n, u)
  {
  }

  // ------------------------------------------------------------------ who may be where

  /** Bearers queue responses and confirmations only; an operation is timed exactly while it is
      pending. */
  ghost predicate ChanOk(ch: Chan) {
    && (forall i :: 0 <= i < |ch.queue| ==> TypeOf(ch.queue[i].opcode) in {RspType, Conf} && !ch.queue[i].timer)
    && (ch.req.Some? ==> TypeOf(ch.req.value.opcode) == Req && ch.req.value.timer && ch.req.value.tries >= 1)
    && (ch.ind.Some? ==> TypeOf(ch.ind.value.opcode) == Ind && ch.ind.value.timer)
  }

  ghost predicate ReqOk(q: seq<Op>) { forall i :: 0 <= i < |q| ==> TypeOf(q[i].opcode) == Req && !q[i].timer }

  ghost predicate IndOk(q: seq<Op>) { forall i :: 0 <= i < |q| ==> TypeOf(q[i].opcode) == Ind && !q[i].timer }

  ghost predicate WriteOk(q: seq<Op>) {
    forall i :: 0 <= i < |q| ==> TypeOf(q[i].opcode) !in {Req, Ind} && !q[i].timer
  }

  ghost predicate Shape(s: State) {
    ReqOk(s.req) && IndOk(s.ind) && WriteOk(s.write) && forall c :: 0 <= c < |s.chans| ==> ChanOk(s.chans[c])
  }

  /** A picked operation that waits for an answer finds its slot free. */
  lemma PickedFitsSlot(s: State, c: nat)
    requires Shape(s) && c < |s.chans| && Pick(s, c) != Nothing
    ensures var op := Popped(s, c).1;
      && !op.timer
      && (TypeOf(op.opcode) == Req ==> s.chans[c].req.None? && Pick(s, c) == FromReq)
      && (TypeOf(op.opcode) == Ind ==> s.chans[c].ind.None? && Pick(s, c) == FromInd)
  {
    hide TypeOf;
    assert ChanOk(s.chans[c]);
  }

  // ------------------------------------------------------------------ the books under each event

  lemma AttachConserves(s: State, mtu: nat, local: bool, auto: bool, level: nat, u: nat)
    requires BooksBalance(s, u) && level <= FIPS
    ensures BooksBalance(Step(s, Attach(mtu, local, auto, level)), u)
  {
    var t := Step(s, Attach(mtu, local, auto, level));
    assert t.chans[1..] == s.chans;
  }

  lemma SendConserves(s: State, opcode: int, len: nat, u: nat)
    requires BooksBalance(s, u)
    ensures BooksBalance(OnSend(s, opcode, len), u)
  {
    hide InQueue, OnChans, TypeOf, Calls;
    var op := Op(s.nextUid, s.nextId, opcode, len, true, 0, false);
    forall owned: bool
      ensures InQueue(s.req + [op], owned, u) == InQueue(s.req, owned, u) + One(op, owned, u)
      ensures InQueue(s.ind + [op], owned, u) == InQueue(s.ind, owned, u) + One(op, owned, u)
      ensures InQueue(s.write + [op], owned, u) == InQueue(s.write, owned, u) + One(op, owned, u)
    {
      QueueAppend(s.req, op, owned, u);
      QueueAppend(s.ind, op, owned, u);
      QueueAppend(s.write, op, owned, u);
    }
  }

  lemma ChanSendConserves(s: State, c: nat, opcode: int, len: nat, u: nat)
    requires BooksBalance(s, u) && c < |s.chans|
    ensures BooksBalance(OnChanSend(s, c, opcode, len), u)
  {
    hide InQueue, OnChans, Calls;
    var op, ch := Op(s.nextUid, 0, opcode, len, true, 0, false), s.chans[c];
    forall owned: bool
      ensures Places(OnChanSend(s, c, opcode, len), owned, u) == Places(s, owned, u) + One(op, owned, u)
    {
      QueueAppend(ch.queue, op, owned, u);
      ChansUpdate(s.chans, c, ch.(queue := ch.queue + [op]), owned, u);
    }
  }

  lemma PoppedTakes(s: State, c: nat, owned: bool, u: nat)
    requires c < |s.chans| && Pick(s, c) != Nothing
    ensures var (t, op) := Popped(s, c);
      && Places(s, owned, u) == Places(t, owned, u) + One(op, owned, u)
      && t.log == s.log && t.nextUid == s.nextUid && |t.chans| == |s.chans|
      && t.chans[c].req == s.chans[c].req && t.chans[c].ind == s.chans[c].ind
  {
    hide OnChans, One;
    if Pick(s, c) == FromChan {
      ChansUpdate(s.chans, c, s.chans[c].(queue := s.chans[c].queue[1..]), owned, u);
    }
  }

  /** The popped operation goes into the free slot it waits in, or is done with. */
  lemma PoppedConserves(s: State, t: State, c: nat, op: Op, ch: Chan, g: Log, u: nat)
    requires BooksBalance(s, u) && c < |t.chans| && t.log == s.log && t.nextUid == s.nextUid
    requires Places(s, false, u) == Places(t, false, u) + One(op, false, u)
    requires Places(s, true, u) == Places(t, true, u) + One(op, true, u)
    requires ch.queue == t.chans[c].queue
    requires
      || (g.finished == t.log.finished && g.released == t.log.released && g.calls == t.log.calls
          && ((t.chans[c].req.None? && Moved(op, ch.req) && ch.ind == t.chans[c].ind)
              || (t.chans[c].ind.None? && Moved(op, ch.ind) && ch.req == t.chans[c].req)))
      || ((exists told :: g == Finish(t.log, op, told)) && ch.req == t.chans[c].req && ch.ind == t.chans[c].ind)
    ensures BooksBalance(t.(chans := t.chans[c := ch], log := g), u)
  {
    hide InQueue, OnChans, Finish, Calls;
    ChansUpdate(t.chans, c, ch, false, u);
    ChansUpdate(t.chans, c, ch, true, u);
    if told :| g == Finish(t.log, op, told) {
      FinishBalances(Places(t, false, u), Places(t, true, u), s.log, op, told, s.nextUid, u);
    }
  }

  predicate Moved(op: Op, slot: Option<Op>) { slot.Some? && slot.value.uid == op.uid && slot.value.owned == op.owned }

  lemma CanWriteConserves(s: State, c: nat, ret: int, u: nat)
    requires BooksBalance(s, u) && Shape(s) && c < |s.chans|
    ensures BooksBalance(OnCanWrite(s, c, ret), u)
  {
    if Pick(s, c) != Nothing {
      hide BooksBalance, Shape, Pick, Popped, TypeOf, Places, Finish;
      PickedFitsSlot(s, c);
      var (t, op) := Popped(s, c);
      PoppedTakes(s, c, false, u);
      PoppedTakes(s, c, true, u);
      var r := OnCanWrite(s, c, ret);
      assert t.chans[c := t.chans[c]] == t.chans;
      assert r == t.(chans := t.chans[c := r.chans[c]], log := r.log);
      PoppedConserves(s, t, c, op, r.chans[c], r.log, u);
    }
  }

  /** An operation leaves a bearer's slot. */
  lemma SlotEmptied(chans: seq<Chan>, c: nat, ch: Chan, req: bool, owned: bool, u: nat)
    requires c < |chans| && (if req then chans[c].req.Some? else chans[c].ind.Some?)
    requires ch.queue == chans[c].queue
    requires if req then ch.req.None? && ch.ind == chans[c].ind else ch.ind.None? && ch.req == chans[c].req
    ensures OnChans(chans, owned, u) ==
      OnChans(chans[c := ch], owned, u) + One(if req then chans[c].req.value else chans[c].ind.value, owned, u)
  {
    hide OnChans, One, InQueue;
    ChansUpdate(chans, c, ch, owned, u);
  }

  lemma SlotFinishConserves(s: State, c: nat, req: bool, told: int, u: nat)
    requires BooksBalance(s, u) && c < |s.chans| && (if req then s.chans[c].req.Some? else s.chans[c].ind.Some?)
    ensures var ch := s.chans[c]; var op := if req then ch.req.value else ch.ind.value;
      BooksBalance(s.(chans := s.chans[c := if req then ch.(req := None) else ch.(ind := None)], log := Finish(s.log, op, Some(told))), u)
  {
    hide InQueue, OnChans, Calls, Finish;
    var ch := s.chans[c];
    var op, ch' := if req then ch.req.value else ch.ind.value, if req then ch.(req := None) else ch.(ind := None);
    SlotEmptied(s.chans, c, ch', req, false, u);
    SlotEmptied(s.chans, c, ch', req, true, u);
    var t := s.(chans := s.chans[c := ch']);
    FinishBalances(Places(t, false, u), Places(t, true, u), s.log, op, Some(told), s.nextUid, u);
  }

  /** A request goes back to the front of the common queue. */
  lemma PushBackConserves(s: State, c: nat, ch: Chan, u: nat)
    requires BooksBalance(s, u) && c < |s.chans| && s.chans[c].req.Some?
    requires ch.req.None? && ch.ind == s.chans[c].ind && ch.queue == s.chans[c].queue
    ensures BooksBalance(s.(req := [s.chans[c].req.value.(timer := false)] + s.req, chans := s.chans[c := ch]), u)
  {
    hide InQueue, OnChans, Calls;
    var op := s.chans[c].req.value;
    SlotEmptied(s.chans, c, ch, true, false, u);
    SlotEmptied(s.chans, c, ch, true, true, u);
    QueueCons(op.(timer := false), s.req, false, u);
    QueueCons(op.(timer := false), s.req, true, u);
  }

  lemma ResponseConserves(s: State, c: nat, opcode: int, named: int, ecode: int, sized: bool, granted: bool, u: nat)
    requires BooksBalance(s, u) && c < |s.chans|
    ensures BooksBalance(OnResponse(s, c, opcode, named, ecode, sized, granted), u)
  {
    hide BooksBalance, Finish, Raised, RequestOf;
    var ch := s.chans[c];
    if ch.req.Some? {
      if opcode == ERROR_RSP && sized && Raised(ch, ecode).Some? && (granted || ch.local) {
        PushBackConserves(s, c, OnResponse(s, c, opcode, named, ecode, sized, granted).chans[c], u);
      } else {
        var req := if opcode == ERROR_RSP then (if sized then named else 0) else RequestOf(opcode);
        SlotFinishConserves(s, c, true, if req == ch.req.value.opcode then opcode else ERROR_RSP, u);
      }
    }
  }

  lemma CancelOnConserves(s: State, c: nat, id: nat, u: nat)
    requires BooksBalance(s, u) && c < |s.chans| && Holds(s.chans[c], id)
    ensures BooksBalance(CancelOn(s, c, id), u)
  {
    hide OnChans, Calls, InQueue, Finish;
    var ch, t := s.chans[c], CancelOn(s, c, id);
    forall owned: bool
      ensures OnChans(t.chans, owned, u) + OnChan(ch, owned, u) == OnChans(s.chans, owned, u) + OnChan(t.chans[c], owned, u)
    {
      ChansUpdate(s.chans, c, t.chans[c], owned, u);
      assert t.chans == s.chans[c := t.chans[c]];
    }
    if (ch.req.Some? && ch.req.value.id == id) || (ch.ind.Some? && ch.ind.value.id == id) {
    } else {
      var i := IndexOf(ch.queue, id);
      QueueWithout(ch.queue, i, false, u);
      QueueWithout(ch.queue, i, true, u);
      FinishBalances(Places(t, false, u), Places(t, true, u), s.log, ch.queue[i], None, s.nextUid, u);
    }
  }

  /** An operation taken out of a queue in common. */
  lemma TakenOutConserves(s: State, t: State, op: Op, u: nat)
    requires BooksBalance(s, u) && t.log == Finish(s.log, op, None) && t.nextUid == s.nextUid
    requires Places(s, false, u) == Places(t, false, u) + One(op, false, u)
    requires Places(s, true, u) == Places(t, true, u) + One(op, true, u)
    ensures BooksBalance(t, u)
  {
    hide Finish, Calls, Places;
    FinishBalances(Places(t, false, u), Places(t, true, u), s.log, op, None, s.nextUid, u);
  }

  lemma CancelConserves(s: State, id: nat, u: nat)
    requires BooksBalance(s, u)
    ensures BooksBalance(OnCancel(s, id), u)
  {
    hide OnChans, InQueue, Finish, Without, BooksBalance, CancelOn;
    var t := OnCancel(s, id);
    var r, i, w := IndexOf(s.req, id), IndexOf(s.ind, id), IndexOf(s.write, id);
    if id == 0 {
    } else if Holder(s.chans, id) < |s.chans| {
      CancelOnConserves(s, Holder(s.chans, id), id, u);
    } else if r < |s.req| {
      QueueWithout(s.req, r, false, u);
      QueueWithout(s.req, r, true, u);
      TakenOutConserves(s, t, s.req[r], u);
    } else if i < |s.ind| {
      QueueWithout(s.ind, i, false, u);
      QueueWithout(s.ind, i, true, u);
      TakenOutConserves(s, t, s.ind[i], u);
    } else if w < |s.write| {
      QueueWithout(s.write, w, false, u);
      QueueWithout(s.write, w, true, u);
      TakenOutConserves(s, t, s.write[w], u);
    }
  }

  lemma {:induction false} DisownBalances(chans: seq<Chan>, here: nat, waiting: nat, g: Log, n: nat, u: nat)
    requires Balanced(here, waiting + OnChans(chans, true, u), g, n, u)
    ensures Balanced(here, waiting + OnChans(DisownAll(chans), true, u), ReleaseAll(g, chans), n, u)
    ensures OnChans(DisownAll(chans), false, u) == OnChans(chans, false, u)
    decreases |chans|
  {
    hide Balanced, ReleaseSlot, Disowned, OnChan, InSlot, OnChans, DisownAll, ReleaseAll;
    if chans == [] {
      DisownNone(g, u);
    } else {
      var ch, rest := chans[0], chans[1..];
      var d := Disowned(ch);
      DisownUnfolds(chans, g, u);
      DisownedChan(ch, u);
      var w, i := waiting + OnChan(d, true, u), InSlot(ch.ind, true, u);
      ReleaseSlotBalances(here, w + OnChans(rest, true, u) + i, g, ch.req, n, u);
      ReleaseSlotBalances(here, w + OnChans(rest, true, u), ReleaseSlot(g, ch.req), ch.ind, n, u);
      DisownBalances(rest, here, w, ReleaseSlot(ReleaseSlot(g, ch.req), ch.ind), n, u);
    }
  }

  lemma DisownNone(g: Log, u: nat)
    ensures ReleaseAll(g, []) == g && DisownAll([]) == [] && forall owned :: OnChans([], owned, u) == 0
  {
  }

  lemma DisownUnfolds(chans: seq<Chan>, g: Log, u: nat)
    requires chans != []
    ensures var ch, rest := chans[0], chans[1..];
      && ReleaseAll(g, chans) == ReleaseAll(ReleaseSlot(ReleaseSlot(g, ch.req), ch.ind), rest)
      && (forall owned :: OnChans(chans, owned, u) == OnChan(ch, owned, u) + OnChans(rest, owned, u))
      && forall owned :: OnChans(DisownAll(chans), owned, u) == OnChan(Disowned(ch), owned, u) + OnChans(DisownAll(rest), owned, u)
  {
    hide Disowned, OnChan, ReleaseSlot;
    assert DisownAll(chans) == [Disowned(chans[0])] + DisownAll(chans[1..]);
    assert DisownAll(chans)[1..] == DisownAll(chans[1..]);
  }

  lemma DisownedChan(ch: Chan, u: nat)
    ensures var d := Disowned(ch);
      && OnChan(ch, true, u) == OnChan(d, true, u) + InSlot(ch.req, true, u) + InSlot(ch.ind, true, u)
      && OnChan(ch, false, u) == OnChan(d, false, u)
  {
  }

  lemma CancelAllConserves(s: State, u: nat)
    requires BooksBalance(s, u)
    ensures BooksBalance(OnCancelAll(s), u)
  {
    hide OnChans, Calls, InQueue, FinishAll, ReleaseAll, DisownAll, Balanced;
    var h, w := OnChans(s.chans, false, u), OnChans(s.chans, true, u);
    var g := FinishQueues(s, None, h, w, u);
    DisownBalances(s.chans, h, 0, g, s.nextUid, u);
    EmptyQueue(u);
  }

  lemma EmptyQueue(u: nat)
    ensures InQueue([], false, u) == InQueue([], true, u) == 0
  {
  }

  /** The queues in common are dropped. */
  lemma FinishQueues(s: State, told: Option<int>, h: nat, w: nat, u: nat) returns (g: Log)
    requires BooksBalance(s, u) && h == OnChans(s.chans, false, u) && w == OnChans(s.chans, true, u)
    ensures g == FinishAll(FinishAll(FinishAll(s.log, s.req, told), s.ind, told), s.write, told)
    ensures Balanced(h, w, g, s.nextUid, u)
  {
    hide InQueue, OnChans, Balanced, FinishAll;
    var g1, i, r := FinishAll(s.log, s.req, told), InQueue(s.ind, false, u), InQueue(s.write, false, u);
    var i', r' := InQueue(s.ind, true, u), InQueue(s.write, true, u);
    FinishAllBalances(h + i + r, w + i' + r', s.log, s.req, told, s.nextUid, u);
    var g2 := FinishAll(g1, s.ind, told);
    FinishAllBalances(h + r, w + r', g1, s.ind, told, s.nextUid, u);
    g := FinishAll(g2, s.write, told);
    FinishAllBalances(h, w, g2, s.write, told, s.nextUid, u);
  }

  lemma DisconnectConserves(s: State, c: nat, u: nat)
    requires BooksBalance(s, u) && c < |s.chans|
    ensures BooksBalance(OnDisconnect(s, c), u)
  {
    hide OnChans, Calls, InQueue, FinishAll, Finish, FinishSlot, Balanced, InSlot, Without;
    var ch, err, n := s.chans[c], Some(ERROR_RSP), s.nextUid;
    var g := FinishQueues(s, err, OnChans(s.chans, false, u), OnChans(s.chans, true, u), u);
    ChansWithout(s.chans, c, false, u);
    ChansWithout(s.chans, c, true, u);
    var h, w := OnChans(Without(s.chans, c), false, u), OnChans(Without(s.chans, c), true, u);
    var q, q', i, i' := InQueue(ch.queue, false, u), InQueue(ch.queue, true, u), InSlot(ch.ind, false, u), InSlot(ch.ind, true, u);
    FinishSlotBalances(h + q + i, w + q' + i', g, ch.req, err, n, u);
    FinishSlotBalances(h + q, w + q', FinishSlot(g, ch.req, err), ch.ind, err, n, u);
    FinishAllBalances(h, w, FinishSlot(FinishSlot(g, ch.req, err), ch.ind, err), ch.queue, None, n, u);
    EmptyQueue(u);
  }

  lemma RequestConserves(s: State, c: nat, u: nat)
    requires BooksBalance(s, u) && Enabled(s, Request(c))
    ensures BooksBalance(Step(s, Request(c)), u)
  {
    hide OnChans, InQueue, Calls;
    ChansUpdate(s.chans, c, s.chans[c].(inReq := true), false, u);
    ChansUpdate(s.chans, c, s.chans[c].(inReq := true), true, u);
  }

  lemma SettingConserves(s: State, level: nat, granted: bool, u: nat)
    requires BooksBalance(s, u)
    ensures BooksBalance(OnSetSecurity(s, level, granted), u)
  {
    hide OnChans, InQueue, Calls;
    var t := OnSetSecurity(s, level, granted);
    if t != s {
      var c := |s.chans| - 1;
      ChansUpdate(s.chans, c, t.chans[c], false, u);
      ChansUpdate(s.chans, c, t.chans[c], true, u);
    }
  }

  lemma StepConserves(s: State, e: Event, u: nat)
    requires BooksBalance(s, u) && Shape(s) && Enabled(s, e)
    ensures BooksBalance(Step(s, e), u)
  {
    hide BooksBalance, Shape;
    match e {
      case Attach(mtu, local, auto, level) => AttachConserves(s, mtu, local, auto, level, u);
      case Send(opcode, len) => SendConserves(s, opcode, len, u);
      case ChanSend(c, opcode, len) => ChanSendConserves(s, c, opcode, len, u);
      case CanWrite(c, ret) => CanWriteConserves(s, c, ret, u);
      case Response(c, opcode, named, ecode, sized, granted) => ResponseConserves(s, c, opcode, named, ecode, sized, granted, u);
      case Confirmation(c, len) =>
        if s.chans[c].ind.Some? && len == 0 {
          SlotFinishConserves(s, c, false, HANDLE_CONF, u);
        }
      case Timeout(c, id) =>
        if s.chans[c].req.Some? && s.chans[c].req.value.id == id {
          SlotFinishConserves(s, c, true, ERROR_RSP, u);
        } else if s.chans[c].ind.Some? && s.chans[c].ind.value.id == id {
          SlotFinishConserves(s, c, false, ERROR_RSP, u);
        }
      case Cancel(id) => CancelConserves(s, id, u);
      case ChanCancel(c, id) =>
        if Holds(s.chans[c], id) {
          CancelOnConserves(s, c, id, u);
        }
      case CancelAll => CancelAllConserves(s, u);
      case Disconnect(c) => DisconnectConserves(s, c, u);
      case Request(c) => RequestConserves(s, c, u);
      case SetSecurity(level, granted) => SettingConserves(s, level, granted, u);
    }
  }

  // ------------------------------------------------------------------ shape

  lemma WithoutIndex<T>(q: seq<T>, i: nat, j: nat)
    requires i < |q| && j < |q| - 1
    ensures Without(q, i)[j] == q[if j < i then j else j + 1]
  {
  }

  lemma WithoutIsPart<T>(q: seq<T>, i: nat)
    requires i < |q|
    ensures |Without(q, i)| == |q| - 1
    ensures forall j :: 0 <= j < |q| - 1 ==> Without(q, i)[j] == q[if j < i then j else j + 1]
  {
    forall j | 0 <= j < |q| - 1
      ensures Without(q, i)[j] == q[if j < i then j else j + 1]
    {
      WithoutIndex(q, i, j);
    }
  }

  /** What a bearer may look like after an event. */
  ghost predicate ChansOk(chans: seq<Chan>) { forall c :: 0 <= c < |chans| ==> ChanOk(chans[c]) }

  lemma ChanReplaced(chans: seq<Chan>, c: nat, ch: Chan)
    requires ChansOk(chans) && c < |chans| && ChanOk(ch)
    ensures ChansOk(chans[c := ch])
  {
  }

  lemma CancelOnKeepsShape(s: State, c: nat, id: nat)
    requires Shape(s) && c < |s.chans| && Holds(s.chans[c], id)
    ensures Shape(CancelOn(s, c, id))
  {
    hide TypeOf, Without, Finish;
    var ch := s.chans[c];
    assert ChanOk(ch);
    if IndexOf(ch.queue, id) < |ch.queue| {
      WithoutIsPart(ch.queue, IndexOf(ch.queue, id));
    }
    var t := CancelOn(s, c, id);
    assert ChanOk(t.chans[c]);
    ChanReplaced(s.chans, c, t.chans[c]);
  }

  lemma CancelKeepsShape(s: State, id: nat)
    requires Shape(s)
    ensures Shape(OnCancel(s, id))
  {
    hide TypeOf, Without, Finish, ChanOk, CancelOn;
    if id != 0 {
      if Holder(s.chans, id) < |s.chans| {
        CancelOnKeepsShape(s, Holder(s.chans, id), id);
      } else {
        var r, i, w := IndexOf(s.req, id), IndexOf(s.ind, id), IndexOf(s.write, id);
        if r < |s.req| { WithoutIsPart(s.req, r); }
        if i < |s.ind| { WithoutIsPart(s.ind, i); }
        if w < |s.write| { WithoutIsPart(s.write, w); }
      }
    }
  }

  lemma CanWriteKeepsShape(s: State, c: nat, ret: int)
    requires Shape(s) && c < |s.chans|
    ensures Shape(OnCanWrite(s, c, ret))
  {
    if Pick(s, c) != Nothing {
      hide TypeOf, Finish;
      PickedFitsSlot(s, c);
      var (t, op) := Popped(s, c);
      assert ChanOk(s.chans[c]) && ChanOk(t.chans[c]);
      ChanReplaced(s.chans, c, t.chans[c]);
      assert Shape(t);
      hide Pick, Popped;
      var r := OnCanWrite(s, c, ret);
      assert t.chans[c := t.chans[c]] == t.chans;
      assert ChanOk(r.chans[c]);
      ChanReplaced(t.chans, c, r.chans[c]);
    }
  }

  lemma ResponseKeepsShape(s: State, c: nat, opcode: int, named: int, ecode: int, sized: bool, granted: bool)
    requires Shape(s) && c < |s.chans|
    ensures Shape(OnResponse(s, c, opcode, named, ecode, sized, granted))
  {
    hide TypeOf, Finish, Raised, RequestOf;
    var ch := s.chans[c];
    assert ChanOk(ch);
    if ch.req.Some? {
      var t := OnResponse(s, c, opcode, named, ecode, sized, granted);
      assert ch.queue == t.chans[c].queue && ChanOk(t.chans[c]);
      ChanReplaced(s.chans, c, t.chans[c]);
      assert t.chans == s.chans[c := t.chans[c]];
    }
  }

  lemma DisconnectKeepsShape(s: State, c: nat)
    requires Shape(s) && c < |s.chans|
    ensures Shape(OnDisconnect(s, c))
  {
    hide ChanOk, FinishAll, FinishSlot, Without;
    WithoutIsPart(s.chans, c);
  }

  lemma StepKeepsShape(s: State, e: Event)
    requires Shape(s) && Enabled(s, e)
    ensures Shape(Step(s, e))
  {
    match e {
      case CanWrite(c, ret) => CanWriteKeepsShape(s, c, ret);
      case Response(c, opcode, named, ecode, sized, granted) => ResponseKeepsShape(s, c, opcode, named, ecode, sized, granted);
      case Cancel(id) => CancelKeepsShape(s, id);
      case ChanCancel(c, id) =>
        if Holds(s.chans[c], id) {
          CancelOnKeepsShape(s, c, id);
        }
      case Disconnect(c) => DisconnectKeepsShape(s, c);
      case _ => OtherStepKeepsShape(s, e);
    }
  }

  lemma AttachKeepsShape(s: State, e: Event)
    requires Shape(s) && Enabled(s, e) && e.Attach?
    ensures Shape(Step(s, e))
  {
    hide ChanOk, TypeOf;
    var t := Step(s, e);
    NewChanOk(s, e);
    forall c | 0 <= c < |t.chans|
      ensures ChanOk(t.chans[c])
    {
      assert c > 0 ==> t.chans[c] == s.chans[c - 1];
    }
  }

  lemma NewChanOk(s: State, e: Event)
    requires Enabled(s, e) && e.Attach?
    ensures ChanOk(Step(s, e).chans[0])
  {
  }

  lemma OtherStepKeepsShape(s: State, e: Event)
    requires Shape(s) && Enabled(s, e) && !e.CanWrite? && !e.Response? && !e.Cancel? && !e.ChanCancel? && !e.Disconnect?
    ensures Shape(Step(s, e))
  {
    hide TypeOf, Finish, FinishAll, ReleaseAll;
    if e.Attach? {
      AttachKeepsShape(s, e);
    } else {
      var t := Step(s, e);
      forall c | 0 <= c < |t.chans|
        ensures ChanOk(t.chans[c])
      {
        assert ChanOk(s.chans[c]);
      }
    }
  }
}
