/**
 What holds after every run of the two sides and the lines between them.
 */
module KermitRuns {
  import opened Bytes
  import opened KermitBytes
  import opened KermitFrame
  import opened KermitParse
  import opened ReceiveWindow
  import opened SequenceNumbers
  import opened SendWindow
  import opened KermitLink
  import opened KermitWire
  import opened KermitDelivery

  lemma StepKeeps(u: Setup, l: Link, n: Labels, e: Event) returns (n': Labels)
    requires ValidSetup(u) && Inv(u, l, n) && Enabled(u, l, e)
    ensures SendWindow.Valid(l.snd) && Inv(u, Step(u, l, e), n')
  {
    hide Inv, Step, Enabled;
    AckedAreSent(u, l, n);
    match e {
      case SenderTimeout => n' := TimeoutKeeps(u, l, n);
      case SenderCall(mem) => n' := SenderCallKeeps(u, l, n, mem);
      case ReceiverCall(mem) => n' := ReceiverCallKeeps(u, l, n, mem);
      case _ => n' := LossKeeps(u, l, n, e);
    }
  }

  /** The link after a run. An event that cannot happen when its turn comes is passed over, so
      that every list of events is a run and every run is such a list. */
  ghost function After(u: Setup, es: seq<Event>): Link
    requires ValidSetup(u)
  {
    if es == [] then Init(u)
    else
      var l, e := After(u, es[..|es| - 1]), es[|es| - 1];
      if SendWindow.Valid(l.snd) && Enabled(u, l, e) then Step(u, l, e) else l
  }

  lemma AfterOneMore(u: Setup, es: seq<Event>, e: Event)
    requires ValidSetup(u) && SendWindow.Valid(After(u, es).snd) && Enabled(u, After(u, es), e)
    ensures After(u, es + [e]) == Step(u, After(u, es), e)
  {
    hide Step, Enabled, SendWindow.Valid;
    assert (es + [e])[..|es|] == es;
  }

  /** A packet end lost between two frames is among the events: two of them make one frame of both. */
  lemma FramesMerge(u: Setup, es: seq<Event>, k: nat, p: int, q: int)
    requires ValidSetup(u) && Origin(u) <= p <= Last(u) && Origin(u) <= q <= Last(u)
    requires var line := After(u, es).toRcv; k + 1 < |line| && line[k] == WireOf(u, p) && line[k + 1] == WireOf(u, q)
    ensures var l := After(u, es);
      After(u, es + [DamageData(k, Merged(u, p, q))] + [LoseData(k + 1)])
      == l.(toRcv := l.toRcv[..k] + [Merged(u, p, q)] + l.toRcv[k + 2..])
  {
    hide After, Inv, SendWindow.Valid, WireOf, Merged, MayBecome;
    var l, e := After(u, es), DamageData(k, Merged(u, p, q));
    var n := EveryRunKeeps(u, es);
    AckedAreSent(u, l, n);
    MergingIsDamage(u, l, k, p, q);
    AfterOneMore(u, es, e);
    AfterOneMore(u, es + [e], LoseData(k + 1));
    assert Without(l.toRcv[k := Merged(u, p, q)], k + 1) == l.toRcv[..k] + [Merged(u, p, q)] + l.toRcv[k + 2..];
  }

  lemma {:induction false} EveryRunKeeps(u: Setup, es: seq<Event>) returns (n: Labels)
    requires ValidSetup(u)
    ensures Inv(u, After(u, es), n)
  {
    hide Inv, Step, Enabled, SendWindow.Valid;
    if es == [] {
      InitiallyInv(u);
      n := Labels([], [], {}, {});
    } else {
      n := EveryRunKeeps(u, es[..|es| - 1]);
      var l, e := After(u, es[..|es| - 1]), es[|es| - 1];
      if SendWindow.Valid(l.snd) && Enabled(u, l, e) {
        n := StepKeeps(u, l, n, e);
      }
    }
  }

  /** In every run with any window size, the packets decoded while the file is open are the
      first packets of the file, in order, each once, and the receive window never meets a
      packet it has no rule for. */
  lemma OpenFileIsPrefix(u: Setup, es: seq<Event>)
    requires ValidSetup(u)
    ensures var r := After(u, es).rcv;
      r.phase != Confused && (!r.closed ==> |r.win.delivered| <= |u.packets| && r.win.delivered == u.packets[..|r.win.delivered|])
  {
    var n := EveryRunKeeps(u, es);
  }

  /** A file that is closed starts with all but its last `size - 1` packets. */
  lemma ClosedLosesAtMostTail(u: Setup, es: seq<Event>)
    requires ValidSetup(u) && After(u, es).rcv.closed
    ensures var d := After(u, es).rcv.win.delivered; var k := |u.packets| - u.size + 1;
      k >= 0 ==> k <= |d| && d[..k] == u.packets[..k]
  {
    hide Range, SenderOk, LinesOk, Kept;
    var n := EveryRunKeeps(u, es);
    var l, m := After(u, es), Last(u) - u.size + 1;
    if m >= Origin(u) {
      forall p | Origin(u) <= p < m
        ensures p in n.got
      {
      }
      KeptStart(u, n.got, m);
    }
  }

  lemma KeptStart(u: Setup, got: set<int>, m: int)
    requires Origin(u) <= m <= Last(u) && forall p :: Origin(u) <= p < m ==> p in got
    ensures Range(Kept(u, got), Origin(u), Last(u)) ==
      u.packets[..m - Origin(u)] + Range(Kept(u, got), m, Last(u))
  {
    hide Range;
    RangeSplits(Kept(u, got), Origin(u), m, Last(u));
    RangeIsSlice(u, Kept(u, got), Origin(u), m);
  }

  lemma KeptAll(u: Setup, got: set<int>)
    requires forall p :: Origin(u) <= p < Last(u) ==> p in got
    ensures Range(Kept(u, got), Origin(u), Last(u)) == u.packets
  {
    hide Range;
    RangeIsSlice(u, Kept(u, got), Origin(u), Last(u));
  }

  /** Once the sender has seen its end-of-file packet acknowledged, the receiver has closed
      the file and decoded every packet of it, in order, each once: for any window size. */
  lemma DoneIsComplete(u: Setup, es: seq<Event>)
    requires ValidSetup(u) && After(u, es).snd.phase == Done
    ensures After(u, es).rcv.closed && After(u, es).rcv.win.delivered == u.packets
  {
    hide Range, LinesOk, Kept;
    var n := EveryRunKeeps(u, es);
    assert Last(u) in n.acked;
    KeptAll(u, n.got);
  }

  /** With a window of one packet, a closed file is complete. */
  lemma {:induction false} ClosedIsCompleteAtOne(u: Setup, es: seq<Event>)
    requires ValidSetup(u) && u.size == 1 && After(u, es).rcv.closed
    ensures After(u, es).rcv.win.delivered == u.packets
  {
    hide Range, SenderOk, LinesOk, Kept;
    var n := EveryRunKeeps(u, es);
    KeptAll(u, n.got);
  }
}
