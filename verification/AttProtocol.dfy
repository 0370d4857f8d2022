/**
 The sequential protocol: the order in which requests leave, how often one is tried, and what
 its callback is told.
 */
module AttProtocol {
  import opened Bytes
  import opened Att
  import opened AttRuns

  // ------------------------------------------------------------------ order

  ghost predicate Ascending(q: seq<nat>) { forall i, j :: 0 <= i < j < |q| ==> q[i] < q[j] }

  ghost predicate NonDescending(q: seq<nat>) { forall i, j :: 0 <= i < j < |q| ==> q[i] <= q[j] }

  /** Requests to be tried again stand before the fresh ones; the fresh ones stand in the order
      they were submitted, and after everything sent so far. */
  ghost predicate Ordered(req: seq<Op>, sent: seq<nat>) {
    && (forall i, j :: 0 <= i < j < |req| && req[i].tries == 0 ==> req[j].tries == 0 && req[i].uid < req[j].uid)
    && (forall i, k :: 0 <= i < |req| && req[i].tries == 0 && 0 <= k < |sent| ==> sent[k] < req[i].uid)
    && Ascending(sent)
  }

  /** Every number given so far is below the next one. */
  ghost predicate Numbered(s: State) {
    && (forall i :: 0 <= i < |s.req| ==> s.req[i].uid < s.nextUid)
    && (forall k :: 0 <= k < |s.log.sent| ==> s.log.sent[k] < s.nextUid)
    && (forall k :: 0 <= k < |s.log.out| ==> s.log.out[k] < s.nextUid)
    && forall c :: 0 <= c < |s.chans| && s.chans[c].req.Some? ==> s.chans[c].req.value.uid < s.nextUid
  }

  ghost predicate InOrder(s: State) { Numbered(s) && Ordered(s.req, s.log.sent) }

  /** Removing a request keeps the order. */
  lemma WithoutKeepsOrder(req: seq<Op>, sent: seq<nat>, i: nat)
    requires Ordered(req, sent) && i < |req|
    ensures Ordered(Without(req, i), sent)
  {
    hide Without;
    WithoutIsPart(req, i);
  }

  lemma {:induction false} FinishAllKeeps(g: Log, q: seq<Op>, told: Option<int>)
    ensures FinishAll(g, q, told).sent == g.sent && FinishAll(g, q, told).out == g.out
    decreases |q|
  {
    if q != [] {
      FinishAllKeeps(Finish(g, q[0], told), q[1..], told);
    }
  }

  lemma {:induction false} ReleaseAllKeeps(g: Log, chans: seq<Chan>)
    ensures ReleaseAll(g, chans).sent == g.sent && ReleaseAll(g, chans).out == g.out
    decreases |chans|
  {
    if chans != [] {
      ReleaseAllKeeps(ReleaseSlot(ReleaseSlot(g, chans[0].req), chans[0].ind), chans[1..]);
    }
  }

  /** What an event does to the requests: nothing, or one of six things. */
  datatype Effect = Same | Submitted | SentOut(c: nat) | Unsent | Retried(c: nat) | Removed(i: nat) | Dropped

  ghost predicate Follows(s: State, t: State, x: Effect) {
    match x
    case Same => t.req == s.req && t.log.sent == s.log.sent && t.log.out == s.log.out && Pending(s, t)
    case Submitted =>
      && |t.req| == |s.req| + 1 && t.req[..|s.req|] == s.req && t.req[|s.req|].uid == s.nextUid && t.req[|s.req|].tries == 0
      && t.log.sent == s.log.sent && t.log.out == s.log.out && t.nextUid == s.nextUid + 1 && Pending(s, t) && s.chans != []
    case SentOut(c) =>
      && s.req != [] && t.req == s.req[1..] && c < |s.chans| == |t.chans| && s.chans[c].req.None?
      && t.chans[c].req == Some(s.req[0].(tries := s.req[0].tries + 1, timer := true)) && t.chans[c].retries == s.chans[c].retries
      && (forall d :: 0 <= d < |s.chans| && d != c ==> t.chans[d] == s.chans[d])
      && t.log.out == s.log.out + [s.req[0].uid]
      && t.log.sent == (if s.req[0].tries == 0 then s.log.sent + [s.req[0].uid] else s.log.sent)
    case Unsent => s.req != [] && t.req == s.req[1..] && t.log.sent == s.log.sent && t.log.out == s.log.out && Pending(s, t)
    case Retried(c) =>
      && c < |s.chans| == |t.chans| && s.chans[c].req.Some? && t.chans[c].req.None?
      && t.req == [s.chans[c].req.value.(timer := false)] + s.req && t.chans[c].retries == s.chans[c].retries + 1
      && (forall d :: 0 <= d < |s.chans| && d != c ==> t.chans[d] == s.chans[d])
      && t.log.sent == s.log.sent && t.log.out == s.log.out
    case Removed(i) => i < |s.req| && t.req == Without(s.req, i) && t.log.sent == s.log.sent && t.log.out == s.log.out && Pending(s, t)
    case Dropped => t.req == [] && t.log.sent == s.log.sent && t.log.out == s.log.out
  }

  /** Pending requests stay where they are, perhaps without their owner, or end. */
  ghost predicate Pending(s: State, t: State) {
    && |t.chans| == |s.chans|
    && forall c :: 0 <= c < |s.chans| ==>
         && t.chans[c].retries == s.chans[c].retries
         && (t.chans[c].req.Some? ==>
              && s.chans[c].req.Some? && t.chans[c].req.value.uid == s.chans[c].req.value.uid
              && t.chans[c].req.value.tries == s.chans[c].req.value.tries)
  }

  /** A request taken off the queue. */
  lemma RequestGoesOut(s: State, c: nat, ret: int) returns (x: Effect)
    requires c < |s.chans| && Pick(s, c) == FromReq && TypeOf(s.req[0].opcode) == Req
    ensures Follows(s, OnCanWrite(s, c, ret), x) && x in {SentOut(c), Unsent} && OnCanWrite(s, c, ret).nextUid == s.nextUid
  {
    hide TypeOf;
    x := if ret == 0 then Unsent else SentOut(c);
  }

  lemma OtherGoesOut(s: State, c: nat, ret: int)
    requires c < |s.chans| && Pick(s, c) !in {Nothing, FromReq} && TypeOf(Popped(s, c).1.opcode) != Req
    ensures Follows(s, OnCanWrite(s, c, ret), Same) && OnCanWrite(s, c, ret).nextUid == s.nextUid
  {
    hide TypeOf, Pick;
  }

  lemma CanWriteEffect(s: State, c: nat, ret: int) returns (x: Effect)
    requires Shape(s) && c < |s.chans|
    ensures Follows(s, OnCanWrite(s, c, ret), x) && x in {Same, SentOut(c), Unsent} && OnCanWrite(s, c, ret).nextUid == s.nextUid
  {
    x := Same;
    if Pick(s, c) != Nothing {
      PickedFitsSlot(s, c);
      PickedIsRequest(s, c);
      hide TypeOf, Shape, Follows;
      if Pick(s, c) == FromReq {
        x := RequestGoesOut(s, c, ret);
      } else {
        OtherGoesOut(s, c, ret);
      }
    }
  }

  lemma PickedIsRequest(s: State, c: nat)
    requires Shape(s) && c < |s.chans| && Pick(s, c) != Nothing
    ensures TypeOf(Popped(s, c).1.opcode) == Req <==> Pick(s, c) == FromReq
  {
    hide TypeOf;
    assert ChanOk(s.chans[c]);
  }

  lemma ResponseEffect(s: State, c: nat, opcode: int, named: int, ecode: int, sized: bool, granted: bool) returns (x: Effect)
    requires c < |s.chans|
    ensures var t := OnResponse(s, c, opcode, named, ecode, sized, granted);
      Follows(s, t, x) && x in {Same, Retried(c)} && t.nextUid == s.nextUid
  {
    hide Raised, RequestOf;
    x := if s.chans[c].req.Some? && opcode == ERROR_RSP && sized && Raised(s.chans[c], ecode).Some? && (granted || s.chans[c].local)
      then Retried(c) else Same;
  }

  lemma CancelOnEffect(s: State, c: nat, id: nat)
    requires c < |s.chans| && Holds(s.chans[c], id)
    ensures Follows(s, CancelOn(s, c, id), Same) && CancelOn(s, c, id).nextUid == s.nextUid
  {
    hide Without;
  }

  lemma ChanCancelEffect(s: State, c: nat, id: nat)
    requires c < |s.chans|
    ensures Follows(s, OnChanCancel(s, c, id), Same) && OnChanCancel(s, c, id).nextUid == s.nextUid
  {
    if Holds(s.chans[c], id) {
      CancelOnEffect(s, c, id);
      hide CancelOn, Follows;
    }
  }

  lemma CancelEffect(s: State, id: nat) returns (x: Effect)
    ensures var t := OnCancel(s, id); Follows(s, t, x) && (x == Same || x.Removed?) && t.nextUid == s.nextUid
  {
    hide Without, CancelOn, Holds;
    x := Same;
    if id != 0 {
      var r := IndexOf(s.req, id);
      if Holder(s.chans, id) < |s.chans| {
        CancelOnEffect(s, Holder(s.chans, id), id);
      } else if r < |s.req| {
        x := Removed(r);
      }
    }
  }

  lemma DropEffect(s: State, e: Event)
    requires Enabled(s, e) && (e == CancelAll || e.Disconnect?)
    ensures Follows(s, Step(s, e), Dropped) && Step(s, e).nextUid == s.nextUid
  {
    hide FinishAll, ReleaseAll;
    forall g: Log, q: seq<Op>, told: Option<int>
      ensures FinishAll(g, q, told).sent == g.sent && FinishAll(g, q, told).out == g.out
    {
      FinishAllKeeps(g, q, told);
    }
    forall g: Log, chans: seq<Chan>
      ensures ReleaseAll(g, chans).sent == g.sent && ReleaseAll(g, chans).out == g.out
    {
      ReleaseAllKeeps(g, chans);
    }
  }

  lemma SendEffect(s: State, opcode: int, len: nat) returns (x: Effect)
    ensures var t := OnSend(s, opcode, len); Follows(s, t, x) && x in {Same, Submitted} && s.nextUid <= t.nextUid
  {
    hide TypeOf;
    x := if s.chans != [] && TypeOf(opcode) == Req then Submitted else Same;
  }

  lemma SlotEffect(s: State, e: Event)
    requires Enabled(s, e) && (e.Confirmation? || e.Timeout? || e.Request? || e.ChanSend?)
    ensures Follows(s, Step(s, e), Same) && s.nextUid <= Step(s, e).nextUid
  {
  }

  lemma SettingEffect(s: State, level: nat, granted: bool)
    ensures Follows(s, OnSetSecurity(s, level, granted), Same) && OnSetSecurity(s, level, granted).nextUid == s.nextUid
  {
  }

  /** Every event but the attachment of a bearer has one of the effects. */
  lemma EffectOf(s: State, e: Event) returns (x: Effect)
    requires Shape(s) && Enabled(s, e) && !e.Attach?
    ensures Follows(s, Step(s, e), x) && s.nextUid <= Step(s, e).nextUid
    ensures x == Dropped <==> e == CancelAll || e.Disconnect?
  {
    hide Follows, Shape;
    match e {
      case Send(opcode, len) => x := SendEffect(s, opcode, len);
      case CanWrite(c, ret) => x := CanWriteEffect(s, c, ret);
      case Response(c, opcode, named, ecode, sized, granted) =>
        x := ResponseEffect(s, c, opcode, named, ecode, sized, granted);
      case Cancel(id) => x := CancelEffect(s, id);
      case ChanCancel(c, id) =>
        x := Same;
        ChanCancelEffect(s, c, id);
      case CancelAll => DropEffect(s, e); x := Dropped;
      case Disconnect(c) => DropEffect(s, e); x := Dropped;
      case SetSecurity(level, granted) => SettingEffect(s, level, granted); x := Same;
      case _ => SlotEffect(s, e); x := Same;
    }
  }

  // ------------------------------------------------------------------ first transmissions

  lemma EffectKeepsNumbers(s: State, t: State, x: Effect)
    requires Numbered(s) && Follows(s, t, x) && s.nextUid <= t.nextUid && x != Dropped
    ensures Numbered(t)
  {
    if x.Removed? {
      hide Without;
      WithoutIsPart(s.req, x.i);
    }
    forall c | 0 <= c < |t.chans| && t.chans[c].req.Some?
      ensures t.chans[c].req.value.uid < t.nextUid
    {
      assert c < |s.chans|;
    }
  }

  lemma DropKeepsNumbers(s: State, e: Event)
    requires Numbered(s) && Enabled(s, e) && (e == CancelAll || e.Disconnect?)
    ensures Numbered(Step(s, e))
  {
    DropEffect(s, e);
    hide FinishAll, ReleaseAll, FinishSlot;
    if e.Disconnect? {
      WithoutIsPart(s.chans, e.c);
      hide Without;
    }
  }

  lemma AppendedInOrder(req: seq<Op>, sent: seq<nat>, op: Op)
    requires Ordered(req, sent) && op.tries == 0
    requires (forall i :: 0 <= i < |req| ==> req[i].uid < op.uid) && forall k :: 0 <= k < |sent| ==> sent[k] < op.uid
    ensures Ordered(req + [op], sent)
  {
  }

  lemma PoppedInOrder(req: seq<Op>, sent: seq<nat>)
    requires Ordered(req, sent) && req != []
    ensures Ordered(req[1..], sent) && Ordered(req[1..], if req[0].tries == 0 then sent + [req[0].uid] else sent)
  {
  }

  lemma EffectKeepsOrder(s: State, t: State, x: Effect)
    requires InOrder(s) && Follows(s, t, x)
    requires x.Retried? ==> x.c < |s.chans| && s.chans[x.c].req.Some? && s.chans[x.c].req.value.tries >= 1
    ensures Ordered(t.req, t.log.sent)
  {
    hide Pending, Without;
    match x {
      case Submitted =>
        AppendedInOrder(s.req, s.log.sent, t.req[|s.req|]);
        assert t.req == s.req + [t.req[|s.req|]];
      case SentOut(c) => PoppedInOrder(s.req, s.log.sent);
      case Unsent => PoppedInOrder(s.req, s.log.sent);
      case Retried(c) => 
      case Removed(i) => WithoutKeepsOrder(s.req, s.log.sent, i);
      case _ =>
    }
  }

  /** The first transmissions of requests are in the order of submission, whatever is tried
      again, cancelled or lost in between, and however many bearers share the queue. */
  lemma StepKeepsOrder(s: State, e: Event)
    requires Shape(s) && InOrder(s) && Enabled(s, e)
    ensures InOrder(Step(s, e))
  {
    var t := Step(s, e);
    if e.Attach? {
      forall c | 0 <= c < |t.chans| && t.chans[c].req.Some?
        ensures t.chans[c].req.value.uid < t.nextUid
      {
        assert t.chans[c] == s.chans[c - 1];
      }
    } else {
      hide Step, Follows, Ordered, Numbered;
      var x := EffectOf(s, e);
      if x.Retried? {
        RetriedWasTried(s, t, x);
      }
      EffectKeepsOrder(s, t, x);
      if x == Dropped {
        DropKeepsNumbers(s, e);
      } else {
        EffectKeepsNumbers(s, t, x);
      }
    }
  }

  lemma RetriedWasTried(s: State, t: State, x: Effect)
    requires Shape(s) && Follows(s, t, x) && x.Retried?
    ensures x.c < |s.chans| && s.chans[x.c].req.Some? && s.chans[x.c].req.value.tries >= 1
  {
    assert ChanOk(s.chans[x.c]);
  }

  // ------------------------------------------------------------------ retries

  /** How often the level of a bearer can still rise. */
  function Rises(ch: Chan): nat {
    if !ch.auto then 0 else if ch.level < MEDIUM then 3 else if ch.level < HIGH then 2 else if ch.level < FIPS then 1 else 0
  }

  /** Three retries for the level in force at the beginning, and three more for every time the
      level is set from above. */
  function RetryLimit(ch: Chan): nat { 3 + 3 * ch.settings }

  ghost predicate RetriesOk(s: State) { forall c :: 0 <= c < |s.chans| ==> s.chans[c].retries + Rises(s.chans[c]) <= RetryLimit(s.chans[c]) }

  lemma RaisedRises(ch: Chan, ecode: int)
    requires Raised(ch, ecode).Some?
    ensures ch.level < Raised(ch, ecode).value <= FIPS && Rises(ch.(level := Raised(ch, ecode).value)) < Rises(ch)
  {
  }

  lemma ResponseKeepsRetries(s: State, c: nat, opcode: int, named: int, ecode: int, sized: bool, granted: bool)
    requires RetriesOk(s) && c < |s.chans|
    ensures RetriesOk(OnResponse(s, c, opcode, named, ecode, sized, granted))
  {
    hide Finish, RequestOf, Raised, Rises;
    var ch := s.chans[c];
    if Raised(ch, ecode).Some? {
      RaisedRises(ch, ecode);
    }
    RisesOf(ch, Raised(ch, ecode), ch.auto && !ch.local);
    var t := OnResponse(s, c, opcode, named, ecode, sized, granted);
    forall d | 0 <= d < |t.chans|
      ensures t.chans[d].retries + Rises(t.chans[d]) <= RetryLimit(t.chans[d])
    {
      assert d != c ==> t.chans[d] == s.chans[d];
    }
  }

  lemma RisesOf(ch: Chan, level: Option<nat>, auto: bool)
    ensures Rises(ch.(req := None)) == Rises(ch)
    ensures level.Some? && (auto ==> ch.auto) ==>
      Rises(ch.(req := None, level := level.value, retries := ch.retries + 1, auto := auto)) <= Rises(ch.(level := level.value))
  {
  }

  /** A bearer tries requests again three times at most, because every time its security level
      rises, and three times more for every time the level is set from above. */
  lemma StepKeepsRetries(s: State, e: Event)
    requires RetriesOk(s) && Enabled(s, e)
    ensures RetriesOk(Step(s, e))
  {
    match e {
      case Response(c, opcode, named, ecode, sized, granted) => ResponseKeepsRetries(s, c, opcode, named, ecode, sized, granted);
      case Disconnect(c) => DisconnectKeepsRetries(s, c);
      case SetSecurity(level, granted) => SettingKeepsRetries(s, level, granted);
      case _ => OtherStepKeepsRetries(s, e);
    }
  }

  lemma DisconnectKeepsRetries(s: State, c: nat)
    requires RetriesOk(s) && c < |s.chans|
    ensures RetriesOk(OnDisconnect(s, c))
  {
    hide FinishAll, FinishSlot, Rises, Without;
    WithoutIsPart(s.chans, c);
  }

  lemma SettingKeepsRetries(s: State, level: nat, granted: bool)
    requires RetriesOk(s)
    ensures RetriesOk(OnSetSecurity(s, level, granted))
  {
    var t := OnSetSecurity(s, level, granted);
    forall d | 0 <= d < |t.chans|
      ensures t.chans[d].retries + Rises(t.chans[d]) <= RetryLimit(t.chans[d])
    {
      assert s.chans[d].retries <= RetryLimit(s.chans[d]);
    }
  }

  lemma OtherStepKeepsRetries(s: State, e: Event)
    requires RetriesOk(s) && Enabled(s, e) && !e.Response? && !e.Disconnect? && !e.SetSecurity?
    ensures RetriesOk(Step(s, e))
  {
    var t := Step(s, e);
    if e.Attach? {
      forall c | 0 <= c < |t.chans|
        ensures t.chans[c].retries + Rises(t.chans[c]) <= RetryLimit(t.chans[c])
      {
        assert c > 0 ==> t.chans[c] == s.chans[c - 1];
      }
    } else {
      LevelsStay(s, e);
      hide Step, Enabled;
    }
  }

  ghost predicate SameLevels(s: State, t: State) {
    && |t.chans| == |s.chans|
    && forall c :: 0 <= c < |s.chans| ==>
         t.chans[c].level == s.chans[c].level && t.chans[c].auto == s.chans[c].auto && t.chans[c].retries == s.chans[c].retries
         && t.chans[c].settings == s.chans[c].settings
  }

  /** Apart from setting it, only responses change a bearer's security level. */
  lemma LevelsStay(s: State, e: Event)
    requires Enabled(s, e) && !e.Response? && !e.Disconnect? && !e.Attach? && !e.SetSecurity?
    ensures SameLevels(s, Step(s, e))
  {
    match e {
      case CanWrite(c, ret) => WritingKeepsLevels(s, c, ret);
      case Cancel(id) => CancelKeepsLevels(s, id);
      case ChanCancel(c, id) => ChanCancelKeepsLevels(s, c, id);
      case CancelAll => CancelAllKeepsLevels(s);
      case _ => OthersKeepLevels(s, e);
    }
  }

  lemma PoppedKeepsLevels(s: State, c: nat)
    requires c < |s.chans| && Pick(s, c) != Nothing
    ensures SameLevels(s, Popped(s, c).0)
  {
  }

  lemma WritingKeepsLevels(s: State, c: nat, ret: int)
    requires c < |s.chans|
    ensures SameLevels(s, OnCanWrite(s, c, ret))
  {
    hide Finish, TypeOf, Pick, Popped;
    if Pick(s, c) != Nothing {
      PoppedKeepsLevels(s, c);
    }
  }

  lemma ChanCancelKeepsLevels(s: State, c: nat, id: nat)
    requires c < |s.chans|
    ensures SameLevels(s, OnChanCancel(s, c, id))
  {
    hide Finish, Without;
  }

  lemma CancelKeepsLevels(s: State, id: nat)
    ensures SameLevels(s, OnCancel(s, id))
  {
    hide Finish, Without;
  }

  lemma CancelAllKeepsLevels(s: State)
    ensures SameLevels(s, OnCancelAll(s))
  {
    hide FinishAll, ReleaseAll;
  }

  lemma OthersKeepLevels(s: State, e: Event)
    requires Enabled(s, e) && (e.Send? || e.ChanSend? || e.Confirmation? || e.Timeout? || e.Request?)
    ensures SameLevels(s, Step(s, e))
  {
    hide Finish, TypeOf;
  }

  // ------------------------------------------------------------------ a single bearer

  /** With one bearer, everything queued comes after what is pending, which comes after
      everything sent before it; and a request has been sent once more than tried again. */
  ghost predicate SingleOrder(s: State) {
    && (forall i, j :: 0 <= i < j < |s.req| ==> s.req[i].uid < s.req[j].uid)
    && NonDescending(s.log.out)
    && (forall k, i :: 0 <= k < |s.log.out| && 0 <= i < |s.req| ==> s.log.out[k] <= s.req[i].uid)
    && (s.chans != [] ==> SingleChan(s.req, s.chans[0], s.log.out))
  }

  ghost predicate SingleChan(req: seq<Op>, ch: Chan, out: seq<nat>) {
    && (forall i :: 0 <= i < |req| ==> req[i].tries <= ch.retries)
    && (ch.req.Some? ==>
         && ch.req.value.tries <= ch.retries + 1
         && (forall i :: 0 <= i < |req| ==> ch.req.value.uid < req[i].uid)
         && forall k :: 0 <= k < |out| ==> out[k] <= ch.req.value.uid)
  }

  ghost predicate SingleOk(s: State) {
    && |s.chans| <= s.bearers && (s.chans == [] ==> s.req == [])
    && (s.bearers <= 1 ==> SingleOrder(s))
  }

  lemma PendingKeepsChan(s: State, t: State, req: seq<Op>)
    requires Pending(s, t) && s.chans != [] && SingleChan(req, s.chans[0], s.log.out)
    ensures SingleChan(req, t.chans[0], s.log.out)
  {
  }

  lemma SubmittedKeepsSingle(s: State, t: State)
    requires SingleOrder(s) && Numbered(s) && Follows(s, t, Submitted)
    ensures SingleOrder(t)
  {
    forall i | 0 <= i < |s.req|
      ensures t.req[i] == s.req[i]
    {
      assert t.req[..|s.req|][i] == s.req[i];
    }
    assert SingleChan(t.req, s.chans[0], s.log.out);
    PendingKeepsChan(s, t, t.req);
  }

  lemma SentKeepsSingle(s: State, t: State, c: nat)
    requires SingleOrder(s) && Follows(s, t, SentOut(c)) && |s.chans| == 1
    ensures SingleOrder(t)
  {
    var out := s.log.out;
    forall k, i | 0 <= k < |t.log.out| && 0 <= i < |t.req|
      ensures t.log.out[k] < t.req[i].uid || k < |out|
    {
      assert t.req[i] == s.req[i + 1];
    }
  }

  lemma RetriedKeepsSingle(s: State, t: State, c: nat)
    requires SingleOrder(s) && Follows(s, t, Retried(c)) && |s.chans| == 1
    ensures SingleOrder(t)
  {
    assert forall i :: 0 <= i < |s.req| ==> t.req[i + 1] == s.req[i];
  }

  lemma UnsentKeepsSingle(s: State, t: State)
    requires SingleOrder(s) && Follows(s, t, Unsent)
    ensures SingleOrder(t)
  {
    if s.chans != [] {
      assert SingleChan(t.req, s.chans[0], s.log.out);
      PendingKeepsChan(s, t, t.req);
    }
  }

  lemma RemovedKeepsSingle(s: State, t: State, i: nat)
    requires SingleOrder(s) && i < |s.req| && Follows(s, t, Removed(i))
    ensures SingleOrder(t)
  {
    hide Without;
    WithoutIsPart(s.req, i);
    if s.chans != [] {
      assert SingleChan(t.req, s.chans[0], s.log.out);
      PendingKeepsChan(s, t, t.req);
    }
  }

  lemma SameKeepsSingle(s: State, t: State)
    requires SingleOrder(s) && Follows(s, t, Same)
    ensures SingleOrder(t)
  {
    if s.chans != [] {
      PendingKeepsChan(s, t, s.req);
    }
  }

  lemma EffectKeepsSingle(s: State, t: State, x: Effect)
    requires SingleOk(s) && Numbered(s) && Follows(s, t, x) && x != Dropped && t.bearers == s.bearers
    ensures SingleOk(t)
  {
    EffectKeepsChans(s, t, x);
    if s.bearers <= 1 {
      hide SingleOrder, Follows, Numbered;
      match x {
        case Same => SameKeepsSingle(s, t);
        case Submitted => SubmittedKeepsSingle(s, t);
        case SentOut(c) => SentKeepsSingle(s, t, c);
        case Unsent => UnsentKeepsSingle(s, t);
        case Retried(c) => RetriedKeepsSingle(s, t, c);
        case Removed(i) => RemovedKeepsSingle(s, t, i);
      }
    }
  }

  lemma EffectKeepsChans(s: State, t: State, x: Effect)
    requires Follows(s, t, x) && x != Dropped && (s.chans == [] ==> s.req == [])
    ensures |t.chans| == |s.chans| && (t.chans == [] ==> t.req == [])
    ensures x.SentOut? || x.Retried? ==> |s.chans| >= 1
    ensures x.Removed? ==> x.i < |s.req|
  {
    hide Without;
  }

  lemma DropKeepsSingle(s: State, e: Event)
    requires SingleOk(s) && Enabled(s, e) && (e == CancelAll || e.Disconnect?)
    ensures SingleOk(Step(s, e))
  {
    DropEffect(s, e);
    hide FinishAll, ReleaseAll, FinishSlot;
    if e.Disconnect? {
      WithoutIsPart(s.chans, e.c);
      hide Without;
    }
  }

  lemma AttachKeepsSingle(s: State, e: Event)
    requires SingleOk(s) && Enabled(s, e) && e.Attach?
    ensures SingleOk(Step(s, e))
  {
  }

  lemma BearersStay(s: State, e: Event)
    requires Enabled(s, e) && !e.Attach?
    ensures Step(s, e).bearers == s.bearers
  {
    hide Finish, FinishAll, ReleaseAll, TypeOf, Without, Raised, RequestOf;
  }

  lemma StepKeepsSingle(s: State, e: Event)
    requires Shape(s) && SingleOk(s) && Numbered(s) && Enabled(s, e)
    ensures SingleOk(Step(s, e))
  {
    hide Step, Follows, Shape, SingleOk, Numbered;
    if e.Attach? {
      AttachKeepsSingle(s, e);
    } else if e == CancelAll || e.Disconnect? {
      DropKeepsSingle(s, e);
    } else {
      BearersStay(s, e);
      var x := EffectOf(s, e);
      EffectKeepsSingle(s, Step(s, e), x);
    }
  }

  // ------------------------------------------------------------------ answers

  /** A callback hears of success only by the response that belongs to its request, or by the
      confirmation of its indication. */
  ghost predicate AnswerOk(opcode: int, told: int) {
    told != ERROR_RSP ==> RequestOf(told) == opcode || (told == HANDLE_CONF && TypeOf(opcode) == Ind)
  }

  ghost predicate AnswersOk(g: Log) { forall i :: 0 <= i < |g.calls| ==> AnswerOk(g.calls[i].opcode, g.calls[i].told) }

  lemma FinishAnswers(g: Log, op: Op, told: Option<int>)
    requires AnswersOk(g) && (told.Some? ==> AnswerOk(op.opcode, told.value))
    ensures AnswersOk(Finish(g, op, told))
  {
    hide AnswerOk, TypeOf;
  }

  lemma {:induction false} FinishAllAnswers(g: Log, q: seq<Op>, told: Option<int>)
    requires AnswersOk(g) && (told.Some? ==> told.value == ERROR_RSP)
    ensures AnswersOk(FinishAll(g, q, told))
    decreases |q|
  {
    hide AnswersOk, Finish;
    if q != [] {
      FinishAnswers(g, q[0], told);
      FinishAllAnswers(Finish(g, q[0], told), q[1..], told);
    }
  }

  lemma {:induction false} ReleaseAllAnswers(g: Log, chans: seq<Chan>)
    requires AnswersOk(g)
    ensures AnswersOk(ReleaseAll(g, chans))
    decreases |chans|
  {
    if chans != [] {
      ReleaseAllAnswers(ReleaseSlot(ReleaseSlot(g, chans[0].req), chans[0].ind), chans[1..]);
    }
  }

  lemma StepKeepsAnswers(s: State, e: Event)
    requires Shape(s) && AnswersOk(s.log) && Enabled(s, e)
    ensures AnswersOk(Step(s, e).log)
  {
    match e {
      case CanWrite(c, ret) =>
        if Pick(s, c) != Nothing {
          WritingAnswers(s, c, ret);
        }
      case Response(c, opcode, named, ecode, sized, granted) => ResponseAnswers(s, c, opcode, named, ecode, sized, granted);
      case Confirmation(c, len) =>
        assert ChanOk(s.chans[c]);
        SlotAnswers(s.log, s.chans[c].ind, HANDLE_CONF);
        hide AnswersOk, Finish, TypeOf;
      case Timeout(c, id) =>
        SlotAnswers(s.log, s.chans[c].req, ERROR_RSP);
        SlotAnswers(s.log, s.chans[c].ind, ERROR_RSP);
        hide AnswersOk, TypeOf, Finish;
      case Cancel(id) => hide AnswersOk, TypeOf, Finish, Without; CancelAnswers(s, id);
      case ChanCancel(c, id) => hide AnswersOk, TypeOf, Finish, Without;
      case CancelAll => CancelAllAnswers(s);
      case Disconnect(c) => DisconnectAnswers(s, c);
      case _ => hide AnswersOk, TypeOf;
    }
  }

  lemma SlotAnswers(g: Log, slot: Option<Op>, told: int)
    requires AnswersOk(g) && (slot.Some? ==> AnswerOk(slot.value.opcode, told))
    ensures slot.Some? ==> AnswersOk(Finish(g, slot.value, Some(told)))
  {
    if slot.Some? {
      FinishAnswers(g, slot.value, Some(told));
    }
  }

  lemma ResponseAnswers(s: State, c: nat, opcode: int, named: int, ecode: int, sized: bool, granted: bool)
    requires AnswersOk(s.log) && c < |s.chans|
    ensures AnswersOk(OnResponse(s, c, opcode, named, ecode, sized, granted).log)
  {
    if s.chans[c].req.Some? {
      var op := s.chans[c].req.value;
      FinishAnswers(s.log, op, Some(ERROR_RSP));
      if RequestOf(opcode) == op.opcode {
        FinishAnswers(s.log, op, Some(opcode));
      }
    }
    hide AnswersOk, TypeOf, Finish, Raised;
  }

  lemma WritingAnswers(s: State, c: nat, ret: int)
    requires AnswersOk(s.log) && c < |s.chans| && Pick(s, c) != Nothing
    ensures AnswersOk(OnCanWrite(s, c, ret).log)
  {
    var (t, op) := Popped(s, c);
    FinishAnswers(s.log, op, Some(ERROR_RSP));
    FinishAnswers(s.log, op, None);
    assert t.log == s.log;
    hide Popped, Pick, TypeOf, Finish;
  }

  lemma CancelAnswers(s: State, id: nat)
    requires AnswersOk(s.log)
    ensures AnswersOk(OnCancel(s, id).log)
  {
    hide TypeOf, Without, AnswerOk, Finish;
    forall op: Op
      ensures AnswersOk(Finish(s.log, op, None))
    {
      FinishAnswers(s.log, op, None);
    }
  }

  lemma CancelAllAnswers(s: State)
    requires AnswersOk(s.log)
    ensures AnswersOk(OnCancelAll(s).log)
  {
    hide AnswersOk, FinishAll, ReleaseAll;
    FinishAllAnswers(s.log, s.req, None);
    FinishAllAnswers(FinishAll(s.log, s.req, None), s.ind, None);
    FinishAllAnswers(FinishAll(FinishAll(s.log, s.req, None), s.ind, None), s.write, None);
    ReleaseAllAnswers(FinishAll(FinishAll(FinishAll(s.log, s.req, None), s.ind, None), s.write, None), s.chans);
  }

  lemma DisconnectAnswers(s: State, c: nat)
    requires AnswersOk(s.log) && c < |s.chans|
    ensures AnswersOk(OnDisconnect(s, c).log)
  {
    hide AnswersOk, FinishAll, Finish;
    var ch, err := s.chans[c], Some(ERROR_RSP);
    FinishAllAnswers(s.log, s.req, err);
    var g1 := FinishAll(s.log, s.req, err);
    FinishAllAnswers(g1, s.ind, err);
    var g2 := FinishAll(g1, s.ind, err);
    FinishAllAnswers(g2, s.write, err);
    var g3 := FinishAll(g2, s.write, err);
    var g4 := FinishSlot(g3, ch.req, err);
    if ch.req.Some? { FinishAnswers(g3, ch.req.value, err); }
    if ch.ind.Some? { FinishAnswers(g4, ch.ind.value, err); }
    FinishAllAnswers(FinishSlot(g4, ch.ind, err), ch.queue, None);
  }

  // ------------------------------------------------------------------ failed writes

  /** Has the owner of `op` heard of the failure since `g`? */
  ghost predicate FailureTold(g: Log, after: Log, op: Op) {
    after.finished == g.finished + multiset{op.uid} && after.calls == g.calls + [Call(op.uid, op.opcode, ERROR_RSP)]
  }

  /** A write that failed ends its operation and tells the owner, if it has a callback, exactly
      when the result was 0; any negative result is an error all the same. */
  lemma FailedWriteIsReportedIff(s: State, c: nat, ret: int)
    requires Shape(s) && c < |s.chans| && Pick(s, c) != Nothing && HasCallback(Popped(s, c).1) && ret <= 0
    ensures FailureTold(s.log, OnCanWrite(s, c, ret).log, Popped(s, c).1) <==> ret == 0
  {
    PoppedKeepsLog(s, c);
    PickedFitsSlot(s, c);
    hide Pick, Popped, Shape;
    var op := Popped(s, c).1;
    if ret < 0 {
      assert OnCanWrite(s, c, ret).log.calls == s.log.calls;
      assert |s.log.calls + [Call(op.uid, op.opcode, ERROR_RSP)]| > |s.log.calls|;
    }
  }

  lemma PoppedKeepsLog(s: State, c: nat)
    requires c < |s.chans| && Pick(s, c) != Nothing
    ensures Popped(s, c).0.log == s.log && |Popped(s, c).0.chans| == |s.chans|
  {
  }

  /** What a negative result leads to is what a success leads to: a request takes its slot and
      counts as sent, anything that needs no answer is released. */
  lemma FailedWriteIsTakenForSent(s: State, c: nat, ret: int, sent: int)
    requires c < |s.chans| && ret < 0 < sent
    ensures OnCanWrite(s, c, ret) == OnCanWrite(s, c, sent)
  {
    hide TypeOf, Pick, Popped, Finish;
  }

  /** The same run with every failed write a success. */
  function AsIfSent(es: seq<Event>): (r: seq<Event>)
    ensures |r| == |es|
  {
    seq(|es|, i requires 0 <= i < |es| => if es[i].CanWrite? && es[i].ret < 0 then CanWrite(es[i].c, 1) else es[i])
  }

  /** Over whole runs: no state, no callback and no order of events tells a run in which writes
      failed with a negative result from the run in which they succeeded. */
  lemma {:induction false} FailedWritesAreInvisible(es: seq<Event>)
    ensures After(AsIfSent(es)) == After(es)
  {
    hide Step;
    if es != [] {
      var n := |es| - 1;
      FailedWritesAreInvisible(es[..n]);
      var s, e, f := After(es[..n]), es[n], AsIfSent(es)[n];
      assert AsIfSent(es)[..n] == AsIfSent(es[..n]);
      if f != e && Enabled(s, e) {
        FailedWriteIsTakenForSent(s, e.c, e.ret, 1);
        StepWrites(s, e.c, e.ret);
        StepWrites(s, e.c, 1);
      }
    }
  }

  lemma StepWrites(s: State, c: nat, ret: int)
    requires c < |s.chans|
    ensures Enabled(s, CanWrite(c, ret)) && Step(s, CanWrite(c, ret)) == OnCanWrite(s, c, ret)
  {
  }

  lemma AfterThree(a: Event, b: Event, c: Event)
    requires Enabled(Init(), a) && Enabled(Step(Init(), a), b) && Enabled(Step(Step(Init(), a), b), c)
    ensures After([a, b, c]) == Step(Step(Step(Init(), a), b), c)
  {
    hide Step, Enabled;
    assert [a, b, c][..2] == [a, b] && [a, b][..1] == [a] && [a][..0] == [];
    assert After([a]) == Step(Init(), a);
    assert After([a, b]) == Step(After([a]), b);
  }

  const ATTACHED := Attach(23, false, true, 1)

  /** A request that never left blocks the bearer: it waits for an answer, with the timer
      running, and stands among the requests sent. */
  lemma LostRequest()
    ensures var s := After([ATTACHED, Send(0x0A, 3), CanWrite(0, -32)]);
      && s.log.sent == [0] && s.log.out == [0] && s.log.calls == [] && s.req == []
      && |s.chans| == 1 && s.chans[0].req == Some(Op(0, 1, 0x0A, 3, true, 1, true))
  {
    hide After;
    AfterThree(ATTACHED, Send(0x0A, 3), CanWrite(0, -32));
  }

  /** A command that never left is gone, and its owner released, as if it had. */
  lemma LostCommand()
    ensures var s := After([ATTACHED, Send(0x52, 3), CanWrite(0, -32)]);
      s.write == [] && s.log.finished == multiset{0} && s.log.released == multiset{0} && s.log.calls == []
  {
    hide After;
    AfterThree(ATTACHED, Send(0x52, 3), CanWrite(0, -32));
  }

  // ------------------------------------------------------------------ every run

  ghost predicate Inv(s: State) {
    Conserved(s) && Shape(s) && InOrder(s) && RetriesOk(s) && SingleOk(s) && AnswersOk(s.log)
  }

  lemma {:induction false} EveryRunKeeps(es: seq<Event>)
    ensures Inv(After(es))
  {
    hide Step, Enabled, Conserved, Shape, Numbered, Ordered, RetriesOk, SingleOk, AnswersOk;
    if es == [] {
      InitiallyInv();
    } else {
      EveryRunKeeps(es[..|es| - 1]);
      var s, e := After(es[..|es| - 1]), es[|es| - 1];
      if Enabled(s, e) {
        StepKeepsBooks(s, e);
        StepKeepsShape(s, e);
        StepKeepsOrder(s, e);
        StepKeepsRetries(s, e);
        StepKeepsSingle(s, e);
        StepKeepsAnswers(s, e);
      }
    }
  }

  lemma InitiallyInv()
    ensures Inv(Init())
  {
  }

  lemma StepKeepsBooks(s: State, e: Event)
    requires Conserved(s) && Shape(s) && Enabled(s, e)
    ensures Conserved(Step(s, e))
  {
    hide Step, Enabled, Shape, BooksBalance;
    forall u: nat
      ensures BooksBalance(Step(s, e), u)
    {
      StepConserves(s, e, u);
    }
  }

  /** Conservation: after every run, every operation submitted is in exactly one queue or
      pending slot, or finished, and never both; its owner has been released exactly once if it
      is finished, at most once if not; its callback has run at most once, and only when it
      finished. */
  lemma OperationsAreConserved(es: seq<Event>, u: nat)
    ensures var s := After(es);
      && (u < s.nextUid ==> Places(s, false, u) + s.log.finished[u] == 1)
      && (u >= s.nextUid ==> Places(s, false, u) == 0 && s.log.finished[u] == 0)
      && (s.log.finished[u] == 1 ==> s.log.released[u] == 1)
      && s.log.released[u] <= 1 && Calls(s.log.calls, u) <= s.log.finished[u]
  {
    EveryRunKeeps(es);
    var s := After(es);
    assert BooksBalance(s, u);
    OwnedAreSome(s, u);
  }

  lemma {:induction false} OwnedInQueue(q: seq<Op>, u: nat)
    ensures InQueue(q, true, u) <= InQueue(q, false, u)
  {
    if q != [] {
      OwnedInQueue(q[1..], u);
    }
  }

  lemma {:induction false} OwnedOnChans(chans: seq<Chan>, u: nat)
    ensures OnChans(chans, true, u) <= OnChans(chans, false, u)
  {
    if chans != [] {
      OwnedInQueue(chans[0].queue, u);
      OwnedOnChans(chans[1..], u);
    }
  }

  lemma OwnedAreSome(s: State, u: nat)
    ensures Places(s, true, u) <= Places(s, false, u)
  {
    hide InQueue, OnChans;
    OwnedInQueue(s.req, u);
    OwnedInQueue(s.ind, u);
    OwnedInQueue(s.write, u);
    OwnedOnChans(s.chans, u);
  }

  /** Sequential protocol: after every run, requests have gone out for the first time in the
      order they were submitted; every bearer has tried again three times at most, and three
      times more for every time its level was set from above; it has one request and one
      indication outstanding at most, and times exactly these; success is only ever reported for
      a matching answer. With a single bearer every transmission of a request, first or again,
      is in the order of submission, and no request is sent more often than once and the
      bearer's retries. */
  lemma {:induction false} ProtocolIsSequential(es: seq<Event>)
    ensures var s := After(es);
      && Ascending(s.log.sent)
      && (forall c :: 0 <= c < |s.chans| ==> s.chans[c].retries <= 3 + 3 * s.chans[c].settings && ChanOk(s.chans[c]))
      && AnswersOk(s.log)
      && (s.bearers <= 1 ==> NonDescending(s.log.out))
      && (s.bearers <= 1 && s.chans != [] ==>
            && (forall i :: 0 <= i < |s.req| ==> s.req[i].tries <= 3 + 3 * s.chans[0].settings)
            && (s.chans[0].req.Some? ==> s.chans[0].req.value.tries <= 4 + 3 * s.chans[0].settings))
  {
    hide Conserved, ChanOk, AnswersOk, After, Rises;
    EveryRunKeeps(es);
    var s := After(es);
    assert s.chans != [] ==> s.chans[0].retries + Rises(s.chans[0]) <= RetryLimit(s.chans[0]);
  }
}
