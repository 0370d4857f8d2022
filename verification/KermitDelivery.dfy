/**
 What the link delivers: whatever the lines lose or damage, and however often sequence
 numbers wrap and packets are sent again, the receiver's data is a prefix of the sender's
 until the file is closed, and all of it once the sender has seen the end acknowledged.
 */
module KermitDelivery {
  import opened Bytes
  import opened KermitBytes
  import opened KermitFrame
  import opened KermitParse
  import opened ReceiveWindow
  import opened SequenceNumbers
  import opened SendWindow
  import opened KermitLink
  import opened KermitWire

  // ------------------------------------------------------------------ numbers on the line

  /** The packet each frame on the lines belongs to, the packets the receiver has taken in
      and those the sender knows to be acknowledged. A reply belongs to the packet whose
      arrival caused it. */
  datatype Labels = Labels(down: seq<int>, up: seq<int>, got: set<int>, acked: set<int>)

  /** Nothing is a full window or more behind something sent before it. */
  ghost predicate Spaced(s: seq<int>, size: nat) {
    forall i, j :: 0 <= i < j < |s| ==> s[j] > s[i] - size
  }

  ghost predicate Beyond(ps: set<int>, s: seq<int>, size: nat) {
    forall p, i :: p in ps && 0 <= i < |s| ==> s[i] > p - size
  }

  ghost predicate Within(s: seq<int>, lo: int, hi: int) {
    forall i :: 0 <= i < |s| ==> lo <= s[i] < hi
  }

  /** Whatever is a full window behind something taken in has been taken in too. */
  ghost predicate Dense(u: Setup, got: set<int>) {
    forall p, q :: p in got && Origin(u) <= q <= p - u.size ==> q in got
  }

  /** The order of packet numbers on the lines, the replies being older than the data. */
  ghost predicate Ordered(u: Setup, base: int, next: int, n: Labels) {
    && Origin(u) <= base <= next <= base + u.size && next <= Last(u) + 1
    && Within(n.up + n.down, Origin(u), next)
    && Spaced(n.up + n.down, u.size) && Beyond(n.acked, n.up + n.down, u.size) && Beyond(n.got, n.down, u.size)
    && n.acked <= n.got && Dense(u, n.got) && (forall p :: p in n.got ==> Origin(u) <= p < next)
    && (forall i :: 0 <= i < |n.up| ==> n.up[i] in n.got)
    && (forall p :: Origin(u) <= p < base ==> p in n.acked)
  }

  /** A new packet, or any packet still in the window again. */
  lemma OrderedSend(u: Setup, base: int, next: int, n: Labels, p: int)
    requires Ordered(u, base, next, n) && base <= p <= next && p < base + u.size && p <= Last(u)
    ensures Ordered(u, base, if p == next then next + 1 else next, n.(down := n.down + [p]))
  {
    assert n.up + (n.down + [p]) == n.up + n.down + [p];
  }

  /** The sender takes a reply off the line, perhaps as an acknowledgement. */
  lemma OrderedAck(u: Setup, base: int, next: int, n: Labels, counts: bool, base': int)
    requires Ordered(u, base, next, n) && n.up != [] && base <= base' <= next
    requires var acked := if counts then n.acked + {n.up[0]} else n.acked; forall p :: base <= p < base' ==> p in acked
    ensures Ordered(u, base', next, n.(up := n.up[1..], acked := if counts then n.acked + {n.up[0]} else n.acked))
  {
    var pipe := n.up + n.down;
    assert n.up[1..] + n.down == pipe[1..];
    assert pipe[0] == n.up[0];
  }

  lemma DropKeepsOrder(s: seq<int>, i: nat, size: nat)
    requires i < |s| && Spaced(s, size)
    ensures Spaced(Without(s, i), size)
  {
    forall j, k | 0 <= j < k < |Without(s, i)|
      ensures Without(s, i)[k] > Without(s, i)[j] - size
    {
    }
  }

  lemma DropIsPart(s: seq<int>, i: nat)
    requires i < |s|
    ensures forall lo, hi :: Within(s, lo, hi) ==> Within(Without(s, i), lo, hi)
    ensures forall ps, size :: Beyond(ps, s, size) ==> Beyond(ps, Without(s, i), size)
  {
    forall j | 0 <= j < |Without(s, i)|
      ensures Without(s, i)[j] == s[if j < i then j else j + 1]
    {
    }
  }

  lemma OrderedLoseData(u: Setup, base: int, next: int, n: Labels, i: nat)
    requires Ordered(u, base, next, n) && i < |n.down|
    ensures Ordered(u, base, next, n.(down := Without(n.down, i)))
  {
    hide Without, Spaced, Beyond, Within;
    DropKeepsOrder(n.up + n.down, |n.up| + i, u.size);
    DropIsPart(n.up + n.down, |n.up| + i);
    DropIsPart(n.down, i);
    DropFromSecond(n.up, n.down, i);
  }

  lemma DropFromSecond(s: seq<int>, t: seq<int>, i: nat)
    requires i < |t|
    ensures s + Without(t, i) == Without(s + t, |s| + i)
  {
  }

  lemma OrderedLoseReply(u: Setup, base: int, next: int, n: Labels, i: nat)
    requires Ordered(u, base, next, n) && i < |n.up|
    ensures Ordered(u, base, next, n.(up := Without(n.up, i)))
  {
    DropKeepsOrder(n.up + n.down, i, u.size);
    assert Without(n.up, i) + n.down == Without(n.up + n.down, i);
  }

  /** Element `t` replaced by `count` copies of itself. */
  function Repeated(s: seq<int>, t: nat, count: nat): seq<int>
    requires t < |s|
  {
    s[..t] + seq(count, i => s[t]) + s[t + 1..]
  }

  lemma RepeatedIndex(s: seq<int>, t: nat, count: nat, i: nat)
    requires t < |s| && i < |Repeated(s, t, count)|
    ensures Repeated(s, t, count)[i] == s[if i < t then i else if i < t + count then t else i - count + 1]
  {
  }

  lemma RepeatedKeepsOrder(s: seq<int>, t: nat, count: nat, size: nat)
    requires t < |s| && Spaced(s, size) && 1 <= size
    ensures Spaced(Repeated(s, t, count), size)
    ensures forall lo, hi :: Within(s, lo, hi) ==> Within(Repeated(s, t, count), lo, hi)
    ensures forall ps :: Beyond(ps, s, size) ==> Beyond(ps, Repeated(s, t, count), size)
  {
    var r := Repeated(s, t, count);
    forall i | 0 <= i < |r|
      ensures r[i] == s[if i < t then i else if i < t + count then t else i - count + 1]
    {
      RepeatedIndex(s, t, count, i);
    }
  }

  lemma ReceivedIsRepeated(n: Labels, count: nat)
    requires n.down != []
    ensures Received(n, count).up + Received(n, count).down == Repeated(n.up + n.down, |n.up|, count)
  {
    var s := n.up + n.down;
    assert s[|n.up|] == n.down[0] && s[..|n.up|] == n.up && s[|n.up| + 1..] == n.down[1..];
  }

  /** The receiver takes a packet off the line and answers it with `count` replies. */
  lemma OrderedReceive(u: Setup, base: int, next: int, n: Labels, count: nat)
    requires Ordered(u, base, next, n) && n.down != [] && 1 <= u.size
    ensures Ordered(u, base, next, Received(n, count))
  {
    hide Spaced, Within, Repeated;
    var r, pipe := n.down[0], n.up + n.down;
    ReceivedIsRepeated(n, count);
    RepeatedKeepsOrder(pipe, |n.up|, count, u.size);
    assert pipe[|n.up|] == r;
    FrontIsInRange(u, base, next, n);
    DownIsBeyond(n, u.size);
  }

  lemma FrontIsInRange(u: Setup, base: int, next: int, n: Labels)
    requires Ordered(u, base, next, n) && n.down != []
    ensures Origin(u) <= n.down[0] < next && forall q :: Origin(u) <= q <= n.down[0] - u.size ==> q in n.got
  {
    assert (n.up + n.down)[|n.up|] == n.down[0];
  }

  lemma DownIsBeyond(n: Labels, size: nat)
    requires n.down != [] && Spaced(n.up + n.down, size) && Beyond(n.got, n.down, size)
    ensures Beyond(n.got + {n.down[0]}, n.down[1..], size)
  {
    var s, t := n.up + n.down, |n.up|;
    forall i | 0 <= i < |n.down[1..]|
      ensures n.down[1..][i] > n.down[0] - size
    {
      assert s[t + 1 + i] == n.down[1..][i] && s[t] == n.down[0];
    }
  }

  function Received(n: Labels, count: nat): Labels
    requires n.down != []
  {
    n.(down := n.down[1..], up := n.up + seq(count, i => n.down[0]), got := n.got + {n.down[0]})
  }

  /** A packet or damaged frame that the receiver does not take in. */
  lemma OrderedIgnore(u: Setup, base: int, next: int, n: Labels)
    requires Ordered(u, base, next, n) && n.down != []
    ensures Ordered(u, base, next, n.(down := n.down[1..]))
  {
    OrderedLoseData(u, base, next, n, 0);
    assert Without(n.down, 0) == n.down[1..];
  }

  /** The receiver's next packet lies within one window of the latest one it has taken in,
      and everything a full window before that packet has been taken in. */
  lemma ArrivalIsNear(u: Setup, base: int, next: int, n: Labels, high: int)
    requires Ordered(u, base, next, n) && n.down != []
    requires high == Origin(u) - 1 || high in n.got
    requires high >= Origin(u) - 1 && forall p :: p in n.got ==> p <= high
    ensures high - u.size < n.down[0] <= high + u.size
    ensures forall p :: Origin(u) <= p <= n.down[0] - u.size ==> p in n.got
  {
    assert (n.up + n.down)[|n.up|] == n.down[0];
    assert base > Origin(u) ==> base - 1 in n.acked;
  }

  /** An acknowledgement lies close enough to the sender's window to be told apart. */
  lemma AckIsNear(u: Setup, base: int, next: int, n: Labels)
    requires Ordered(u, base, next, n) && n.up != []
    ensures base - u.size <= n.up[0] < next
  {
    assert (n.up + n.down)[0] == n.up[0];
    assert base > Origin(u) ==> base - 1 in n.acked;
  }

  // ------------------------------------------------------------------ the sender

  /** The number the next new packet will have. */
  function NextOf(s: Sending): int { s.base + |s.win| }

  ghost predicate OutOk(u: Setup, s: Sending, acked: set<int>, i: nat)
    requires 1 <= u.bct <= 3 && i < |s.win| && Origin(u) <= s.base && NextOf(s) <= Last(u) + 1
  {
    s.win[i].wire == WireOf(u, s.base + i) && (s.win[i].acked <==> s.base + i in acked)
  }

  /** The sender's window holds the frames of consecutive packets and knows which of them are
      acknowledged; what is left to send is the rest of the file. */
  ghost predicate SenderOk(u: Setup, s: Sending, acked: set<int>)
    requires ValidSetup(u)
  {
    && SendWindow.Valid(s) && s.size == u.size && s.bct == u.bct
    && Origin(u) <= s.base && NextOf(s) <= Last(u) + 1
    && (forall i :: 0 <= i < |s.win| ==> OutOk(u, s, acked, i))
    && (s.phase == Data ==> NextOf(s) <= Last(u) && s.todo == u.packets[NextOf(s) - Origin(u)..])
    && (s.phase == Eof ==> NextOf(s) == Last(u) + 1)
    && (s.phase == Done ==> s.win == [] && s.base == Last(u) + 1)
  }

  /** What a call of the sender puts on the line: nothing, or the frame of packet `q`. */
  ghost predicate Sends(u: Setup, r: Result, next: int, q: int)
    requires ValidSetup(u)
  {
    if r.sent == [] then NextOf(r.snd) == next
    else
      && Origin(u) <= r.snd.base <= q <= next && q <= Last(u) && q < r.snd.base + u.size
      && r.sent == [WireOf(u, q)] && NextOf(r.snd) == (if q == next then next + 1 else next)
  }

  lemma SenderTransmits(u: Setup, s: Sending, acked: set<int>)
    requires ValidSetup(u) && SenderOk(u, s, acked) && s.phase == Data && |s.win| < s.size
    requires forall p :: p in acked ==> p < NextOf(s)
    ensures SenderOk(u, Transmit(s).snd, acked) && Sends(u, Transmit(s), NextOf(s), NextOf(s))
    ensures Transmit(s).snd.base == s.base && Transmit(s).sent != []
  {
    hide Frame;
    TransmitKeeps(s);
    NextNumber(s.base, |s.win|);
    var r := Transmit(s);
    assert r.sent == [WireOf(u, NextOf(s))];
    forall i | 0 <= i < |r.snd.win|
      ensures OutOk(u, r.snd, acked, i)
    {
      assert i < |s.win| ==> OutOk(u, s, acked, i);
    }
  }

  lemma SenderRepeats(u: Setup, s: Sending, acked: set<int>, i: nat, lenient: bool)
    requires ValidSetup(u) && SenderOk(u, s, acked) && (s.phase == Data || s.phase == Eof) && i < |s.win|
    ensures SenderOk(u, Resend(s, i, lenient).snd, acked) && Sends(u, Resend(s, i, lenient), NextOf(s), s.base + i)
    ensures Resend(s, i, lenient).snd.base == s.base
  {
    hide WireOf;
    ResendKeeps(s, i, lenient);
    var r := Resend(s, i, lenient);
    forall j | 0 <= j < |r.snd.win|
      ensures OutOk(u, r.snd, acked, j)
    {
      assert OutOk(u, s, acked, j);
    }
    assert OutOk(u, s, acked, i);
  }

  /** An acknowledgement is credited to the packet it was sent for. */
  lemma AckFindsItsPacket(s: Sending, p: int)
    requires SendWindow.Valid(s) && s.base - s.size <= p < NextOf(s)
    ensures Find(s.win, p % 64) == if p >= s.base then p - s.base else -1
  {
    forall j | 0 <= j < |s.win| && s.win[j].sq == p % 64
      ensures s.base + j == p
    {
      if s.base + j != p {
        NearAreDistinct(s.base + j, p);
      }
    }
    assert p >= s.base ==> s.win[p - s.base].sq == p % 64;
  }

  /** Freeing cuts acknowledged packets off the front and keeps the rest in place. */
  lemma FreedIsSuffix(s: Sending, marked: seq<Out>)
    requires |marked| == |s.win|
    ensures var t := Freed(s, marked); var d := t.base - s.base;
      && t == s.(base := t.base, win := t.win) && 0 <= d && NextOf(t) == NextOf(s)
      && (forall j :: 0 <= j < |t.win| ==> t.win[j] == marked[d + j])
      && forall j :: 0 <= j < d ==> marked[j].acked
  {
  }

  lemma MarkedOut(u: Setup, s: Sending, acked: set<int>, p: int, j: nat)
    requires ValidSetup(u) && SenderOk(u, s, acked) && s.base <= p < NextOf(s) && j < |s.win|
    ensures var o := s.win[p - s.base := s.win[p - s.base].(acked := true)][j];
      o.wire == WireOf(u, s.base + j) && (o.acked <==> s.base + j in acked + {p})
  {
    hide WireOf;
    assert OutOk(u, s, acked, j);
  }

  lemma FreedWereAcked(u: Setup, s: Sending, acked: set<int>, p: int)
    requires ValidSetup(u) && SenderOk(u, s, acked) && s.base <= p < NextOf(s)
    ensures forall q :: s.base <= q < Freed(s, s.win[p - s.base := s.win[p - s.base].(acked := true)]).base ==> q in acked + {p}
  {
    hide Freed, WireOf, SenderOk;
    assert |s.win| == NextOf(s) - s.base;
    var marked := s.win[p - s.base := s.win[p - s.base].(acked := true)];
    FreedIsSuffix(s, marked);
    forall q | s.base <= q < Freed(s, marked).base
      ensures q in acked + {p}
    {
      MarkedOut(u, s, acked, p, q - s.base);
    }
  }

  lemma SenderFrees(u: Setup, s: Sending, acked: set<int>, p: int)
    requires ValidSetup(u) && SenderOk(u, s, acked) && (s.phase == Data || s.phase == Eof) && s.base <= p < NextOf(s)
    ensures var t := Freed(s, s.win[p - s.base := s.win[p - s.base].(acked := true)]);
      && SenderOk(u, if t.win == [] && t.phase == Eof then t.(phase := Done) else t, acked + {p})
      && s.base <= t.base && NextOf(t) == NextOf(s) && t.phase == s.phase
      && forall q :: s.base <= q < t.base ==> q in acked + {p}
  {
    hide Freed, WireOf;
    var marked := s.win[p - s.base := s.win[p - s.base].(acked := true)];
    FreedKeeps(s, p - s.base);
    FreedIsSuffix(s, marked);
    var t := Freed(s, marked);
    forall j | 0 <= j < |t.win|
      ensures OutOk(u, t, acked + {p}, j)
    {
      MarkedOut(u, s, acked, p, t.base - s.base + j);
    }
    FreedWereAcked(u, s, acked, p);
  }

  lemma SenderHearsAck(u: Setup, s: Sending, acked: set<int>, p: int) returns (q: int)
    requires ValidSetup(u) && SenderOk(u, s, acked) && (s.phase == Data || s.phase == Eof)
    requires s.base - s.size <= p < NextOf(s) && forall x :: x in acked ==> x < NextOf(s)
    requires p < s.base ==> p in acked
    ensures var r := OnAck(s, p % 64);
      && SenderOk(u, r.snd, acked + {p}) && Sends(u, r, NextOf(s), q) && s.base <= r.snd.base
      && forall x :: s.base <= x < r.snd.base ==> x in acked + {p}
  {
    hide Freed, Transmit, Find, WireOf;
    AckFindsItsPacket(s, p);
    q := NextOf(s);
    if p < s.base {
      assert acked + {p} == acked;
    } else {
      SenderFrees(u, s, acked, p);
      var t := Freed(s, s.win[p - s.base := s.win[p - s.base].(acked := true)]);
      FreedFrame(s, s.win[p - s.base := s.win[p - s.base].(acked := true)]);
      if t.phase == Data && |t.win| < t.size {
        SenderTransmits(u, t, acked + {p});
      }
    }
  }

  // ------------------------------------------------------------------ the receiver

  /** The data fields of those packets of the file that are in `got`. */
  function Kept(u: Setup, got: set<int>): map<int, seq<byte>> {
    map p | p in got && Origin(u) <= p < Last(u) :: u.packets[p - Origin(u)]
  }

  /** The first packet not yet handed to the decoder. */
  function Front(u: Setup, w: Window): (c: int)
    ensures c >= Origin(u)
  {
    if w.high - w.size + 1 > Origin(u) then w.high - w.size + 1 else Origin(u)
  }

  ghost predicate TakenIn(u: Setup, w: Window, got: set<int>) {
    forall p :: p in got <==> Origin(u) <= p < Front(u, w) || p in w.table
  }

  ghost predicate Waiting(u: Setup, w: Window) {
    forall p :: p in w.table ==> Origin(u) <= p < Last(u) && w.table[p] == u.packets[p - Origin(u)]
  }

  /** While the file is open: everything before the window has been decoded in order, and the
      table holds what has been taken in since. */
  ghost predicate OpenOk(u: Setup, r: Receiving, got: set<int>) {
    && (r.phase == Attr || r.phase == RData) && Last(u) !in got
    && r.win.size == u.size && ReceiveWindow.Valid(r.win) && Origin(u) - 1 <= r.win.high < Last(u)
    && Front(u, r.win) <= Last(u) && r.win.delivered == u.packets[..Front(u, r.win) - Origin(u)]
    && TakenIn(u, r.win, got) && Waiting(u, r.win)
    && (r.phase == Attr ==> r.win.high == Origin(u) - 1)
    && (r.win.table == map[] <==> r.phase == Attr)
  }

  ghost predicate ReceiverOk(u: Setup, r: Receiving, got: set<int>) {
    if r.closed then
      && (r.phase == File || r.phase == Stopped) && Last(u) in got
      && r.win.delivered == Range(Kept(u, got), Origin(u), Last(u))
    else OpenOk(u, r, got)
  }

  lemma {:induction false} RangeIsSlice(u: Setup, t: map<int, seq<byte>>, lo: int, hi: int)
    requires Origin(u) <= lo <= hi <= Last(u)
    requires forall p :: lo <= p < hi ==> p in t && t[p] == u.packets[p - Origin(u)]
    ensures Range(t, lo, hi) == u.packets[lo - Origin(u)..hi - Origin(u)]
    decreases hi - lo
  {
    hide Range;
    RangeUnfolds(t, lo, hi);
    if lo < hi {
      RangeIsSlice(u, t, lo + 1, hi);
      SliceStarts(u.packets, lo - Origin(u), hi - Origin(u));
    }
  }

  lemma SliceStarts<T>(s: seq<T>, a: nat, b: nat)
    requires a < b <= |s|
    ensures s[a..b] == [s[a]] + s[a + 1..b]
  {
  }

  /** Numbers below all the packets of a table add nothing to a range. */
  lemma RangeFrom(t: map<int, seq<byte>>, lo: int, c: int, hi: int)
    requires lo <= c <= hi && forall p :: p in t ==> p >= c
    ensures Range(t, lo, hi) == Range(t, c, hi)
  {
    hide Range;
    RangeSplits(t, lo, c, hi);
    RangeOfNone(t, lo, c);
    assert [] + Range(t, c, hi) == Range(t, c, hi);
  }

  lemma SliceJoins(s: seq<seq<byte>>, a: nat, b: nat)
    requires a <= b <= |s|
    ensures s[..a] + s[a..b] == s[..b]
  {
  }

  lemma TableIsBehind(u: Setup, r: Receiving, got: set<int>)
    requires OpenOk(u, r, got)
    ensures forall p :: p in got ==> p <= r.win.high
    ensures r.win.high == Origin(u) - 1 || r.win.high in got
  {
  }

  lemma OpenParts(u: Setup, r: Receiving, got: set<int>)
    requires OpenOk(u, r, got)
    ensures r.win.size == u.size && Origin(u) - 1 <= r.win.high < Last(u) && Front(u, r.win) <= Last(u)
    ensures r.win.delivered == u.packets[..Front(u, r.win) - Origin(u)]
  {
  }

  /** What a packet at `p` pushes out of the window continues the file without a gap. */
  lemma PushedOut(u: Setup, r: Receiving, got: set<int>, p: int)
    requires OpenOk(u, r, got) && r.win.high < p < Last(u) && 1 <= u.size
    requires forall q :: Origin(u) <= q <= p - u.size ==> q in got
    ensures Front(u, r.win) <= Front(u, r.win.(high := p)) <= Last(u)
    ensures r.win.delivered + Range(r.win.table, r.win.high - r.win.size + 1, p - r.win.size + 1) ==
      u.packets[..Front(u, r.win.(high := p)) - Origin(u)]
  {
    hide Range, ReceiveWindow.Valid, Waiting;
    var w := r.win;
    var c, c' := Front(u, w), Front(u, w.(high := p));
    TableStartsAtFront(u, r, got);
    WaitingBefore(u, r, got, p);
    OpenParts(u, r, got);
    hide OpenOk;
    if p - w.size + 1 <= Origin(u) {
      RangeOfNone(w.table, w.high - w.size + 1, p - w.size + 1);
      assert w.delivered + [] == w.delivered;
    } else {
      SliceContinues(u, w.table, w.high - w.size + 1, c, c');
    }
  }

  lemma SliceContinues(u: Setup, t: map<int, seq<byte>>, lo: int, c: int, hi: int)
    requires lo <= c <= hi <= Last(u) && Origin(u) <= c && forall q :: q in t ==> q >= c
    requires forall q :: c <= q < hi ==> q in t && t[q] == u.packets[q - Origin(u)]
    ensures u.packets[..c - Origin(u)] + Range(t, lo, hi) == u.packets[..hi - Origin(u)]
  {
    hide Range;
    RangeFrom(t, lo, c, hi);
    RangeIsSlice(u, t, c, hi);
    SliceJoins(u.packets, c - Origin(u), hi - Origin(u));
  }

  /** What lies before the new window and is not decoded yet waits in the table. */
  lemma WaitingBefore(u: Setup, r: Receiving, got: set<int>, p: int)
    requires OpenOk(u, r, got) && r.win.high < p < Last(u) && 1 <= u.size
    requires forall q :: Origin(u) <= q <= p - u.size ==> q in got
    ensures forall q :: Front(u, r.win) <= q < Front(u, r.win.(high := p)) ==>
      q in r.win.table && Origin(u) <= q < Last(u) && r.win.table[q] == u.packets[q - Origin(u)]
    ensures Front(u, r.win) <= Front(u, r.win.(high := p)) <= Last(u)
  {
    hide Range, ReceiveWindow.Valid;
  }

  lemma TableStartsAtFront(u: Setup, r: Receiving, got: set<int>)
    requires OpenOk(u, r, got)
    ensures forall p :: p in r.win.table ==> p >= Front(u, r.win)
  {
  }

  lemma ArriveAhead(u: Setup, r: Receiving, got: set<int>, p: int)
    requires ValidSetup(u) && OpenOk(u, r, got) && r.win.high < p < Last(u) && Origin(u) <= p
    requires forall q :: Origin(u) <= q <= p - u.size ==> q in got
    ensures OpenOk(u, r.(phase := RData, win := Arrive(r.win, p, u.packets[p - Origin(u)])), got + {p})
  {
    hide Range, ReceiveWindow.Valid, From, Waiting, TakenIn;
    var w, data := r.win, u.packets[p - Origin(u)];
    ArriveKeepsValid(w, p, data);
    PushedOut(u, r, got, p);
    AheadTaken(u, w, got, p);
    AheadWaiting(u, w, p);
    assert p in Arrive(w, p, data).table;
  }

  lemma AheadTaken(u: Setup, w: Window, got: set<int>, p: int)
    requires TakenIn(u, w, got) && Waiting(u, w) && w.high < p < Last(u) && Origin(u) <= p && 1 <= w.size
    requires forall q :: Origin(u) <= q <= p - w.size ==> q in got
    requires Front(u, w) <= Front(u, w.(high := p))
    ensures TakenIn(u, Arrive(w, p, u.packets[p - Origin(u)]), got + {p})
  {
    hide Range, From;
    FromKeeps(w.table, p - w.size + 1);
  }

  lemma AheadWaiting(u: Setup, w: Window, p: int)
    requires Waiting(u, w) && w.high < p < Last(u) && Origin(u) <= p
    ensures Waiting(u, Arrive(w, p, u.packets[p - Origin(u)]))
  {
    hide Range, From;
    FromKeeps(w.table, p - w.size + 1);
    FromValues(w.table, p - w.size + 1);
  }

  lemma FromValues(t: map<int, seq<byte>>, n: int)
    ensures forall p :: p in From(t, n) ==> From(t, n)[p] == t[p]
  {
  }

  lemma ArriveBehind(u: Setup, r: Receiving, got: set<int>, p: int)
    requires ValidSetup(u) && OpenOk(u, r, got) && Origin(u) <= p < Last(u)
    requires r.win.high - u.size < p <= r.win.high
    ensures OpenOk(u, r.(phase := RData, win := Arrive(r.win, p, u.packets[p - Origin(u)])), got + {p})
  {
    hide Range, ReceiveWindow.Valid, From;
    var w, data := r.win, u.packets[p - Origin(u)];
    ArriveKeepsValid(w, p, data);
    assert p in Arrive(w, p, data).table;
  }

  /** A data packet within one window of the latest one is taken in, in its place. */
  lemma FirstIsAhead(u: Setup, r: Receiving, got: set<int>, p: int)
    requires ValidSetup(u) && OpenOk(u, r, got) && r.win.table == map[] && Origin(u) <= p
    ensures p > r.win.high
  {
  }

  lemma HearsData(u: Setup, r: Receiving, got: set<int>, p: int)
    requires ValidSetup(u) && OpenOk(u, r, got) && !r.closed && Origin(u) <= p < Last(u)
    requires r.win.high - u.size < p <= r.win.high + u.size
    requires forall q :: Origin(u) <= q <= p - u.size ==> q in got
    ensures var h := Hear(r, Good(TYPE_D, p % 64, u.packets[p - Origin(u)]));
      OpenOk(u, h.rcv, got + {p}) && !h.rcv.closed && h.replies == Replies(r.win, p)
  {
    hide Arrive, Replies, Classify, Placed;
    ClassOfNear(u.size, r.win.high, p);
    if r.win.table == map[] {
      FirstIsAhead(u, r, got, p);
    }
    PlacedIsRight(r.win, p);
    if p > r.win.high {
      ArriveAhead(u, r, got, p);
    } else {
      ArriveBehind(u, r, got, p);
    }
  }

  lemma RepliesAreFor(w: Window, p: int)
    ensures forall i :: 0 <= i < |Replies(w, p)| && Replies(w, p)[i].Ack? ==> Replies(w, p)[i].num == p
  {
  }

  lemma KeptIs(u: Setup, got: set<int>, p: int)
    requires Origin(u) <= p < Last(u)
    ensures p in Kept(u, got) <==> p in got
    ensures p in got ==> Kept(u, got)[p] == u.packets[p - Origin(u)]
  {
  }

  /** What is decoded when the file is closed is every packet taken in, in order. */
  lemma FlushIsKept(u: Setup, r: Receiving, got: set<int>)
    requires ValidSetup(u) && OpenOk(u, r, got)
    ensures FlushAll(r.win).delivered == Range(Kept(u, got + {Last(u)}), Origin(u), Last(u))
  {
    hide Range, Kept, ReceiveWindow.Valid;
    var w, c, o := r.win, Front(u, r.win), Origin(u);
    var all := Kept(u, got + {Last(u)});
    forall p | o <= p < Last(u)
      ensures p in all <==> p in got
      ensures p in all ==> all[p] == u.packets[p - o]
    {
      KeptIs(u, got + {Last(u)}, p);
    }
    if r.phase == Attr {
      RangeOfNone(all, o, Last(u));
      FlushOfNone(w);
    } else {
      FlushWaiting(u, r, got, all);
    }
  }

  lemma FlushWaiting(u: Setup, r: Receiving, got: set<int>, all: map<int, seq<byte>>)
    requires ValidSetup(u) && OpenOk(u, r, got) && r.phase == RData
    requires forall p :: Origin(u) <= p < Last(u) ==>
      (p in all <==> p in got) && (p in all ==> all[p] == u.packets[p - Origin(u)])
    ensures FlushAll(r.win).delivered == Range(all, Origin(u), Last(u))
  {
    hide Range, ReceiveWindow.Valid;
    var w, c, o := r.win, Front(u, r.win), Origin(u);
    FrontIsBelow(u, r, got);
    RangeSplits(all, o, c, Last(u));
    RangeIsSlice(u, all, o, c);
    RangeSplits(all, c, w.high + 1, Last(u));
    RangeAgrees(all, w.table, c, w.high + 1);
    RangeOfNone(all, w.high + 1, Last(u));
    RangeFrom(w.table, w.high - w.size + 1, c, w.high + 1);
    assert Range(all, c, Last(u)) == Range(w.table, c, w.high + 1);
  }

  lemma FrontIsBelow(u: Setup, r: Receiving, got: set<int>)
    requires ValidSetup(u) && OpenOk(u, r, got) && r.phase == RData
    ensures r.win.high - u.size + 1 <= Front(u, r.win) <= r.win.high
    ensures forall p :: p in r.win.table ==> Front(u, r.win) <= p <= r.win.high
  {
  }

  /** The end-of-file packet closes the file, or is acknowledged again. */
  lemma HearsEnd(u: Setup, r: Receiving, got: set<int>)
    requires ValidSetup(u) && ReceiverOk(u, r, got)
    ensures var h := Hear(r, Good(TYPE_Z, Last(u) % 64, []));
      ReceiverOk(u, h.rcv, got + {Last(u)}) && h.rcv.closed && h.replies == (if r.phase == Stopped then [] else [Ack(Last(u) % 64)])
  {
    hide Range;
    if r.closed {
      assert got + {Last(u)} == got;
    } else {
      FlushIsKept(u, r, got);
    }
  }

  /** After the file is closed nothing is decoded any more. */
  lemma HearsNoMore(u: Setup, r: Receiving, got: set<int>, p: Parsed)
    requires ReceiverOk(u, r, got) && r.closed && p.Good? && p.typ == TYPE_D
    ensures ReceiverOk(u, Hear(r, p).rcv, got) && Hear(r, p).rcv.closed && Hear(r, p).replies == []
  {
  }

  // ------------------------------------------------------------------ the whole link

  /** If the receiver finds a good packet in `wire`, it is packet `p`. */
  ghost predicate DataOk(u: Setup, wire: seq<byte>, p: int)
    requires ValidSetup(u)
  {
    && Origin(u) <= p <= Last(u)
    && forall mem :: |mem| >= MEMORY && Receive(RcvConfig(u), wire, mem).Good? ==>
         Receive(RcvConfig(u), wire, mem) == PacketOf(u, p)
  }

  /** If the sender finds a good packet in `wire`, it is `r`, a reply caused by packet `p`. */
  ghost predicate Carries(u: Setup, wire: seq<byte>, p: int, r: Reply)
    requires ValidSetup(u)
  {
    && (r.Ack? ==> r.num % 64 == p % 64)
    && forall mem :: |mem| >= MEMORY && Receive(SndConfig(u), wire, mem).Good? ==>
         Receive(SndConfig(u), wire, mem) == ReplyOf(r)
  }

  ghost predicate ReplyOk(u: Setup, wire: seq<byte>, p: int)
    requires ValidSetup(u)
  {
    exists r: Reply :: Carries(u, wire, p, r)
  }

  lemma SentIsOk(u: Setup, p: int)
    requires ValidSetup(u) && Origin(u) <= p <= Last(u)
    ensures DataOk(u, WireOf(u, p), p)
  {
    hide Receive, WireOf, PacketOf;
    forall mem: seq<byte> | |mem| >= MEMORY
      ensures Receive(RcvConfig(u), WireOf(u, p), mem) == PacketOf(u, p)
    {
      WireIsHeard(u, p, mem);
    }
  }

  lemma RepliedIsOk(u: Setup, p: int, r: Reply)
    requires ValidSetup(u) && (r.Ack? ==> r.num % 64 == p % 64)
    ensures Carries(u, ReplyWire(u, r), p, r) && ReplyOk(u, ReplyWire(u, r), p)
  {
    hide Receive, ReplyWire;
    forall mem: seq<byte> | |mem| >= MEMORY
      ensures Receive(SndConfig(u), ReplyWire(u, r), mem) == ReplyOf(r)
    {
      ReplyIsHeard(u, r, mem);
    }
  }

  ghost predicate LinesOk(u: Setup, toRcv: seq<seq<byte>>, toSnd: seq<seq<byte>>, n: Labels)
    requires ValidSetup(u)
  {
    && |n.down| == |toRcv| && (forall i :: 0 <= i < |toRcv| ==> DataOk(u, toRcv[i], n.down[i]))
    && |n.up| == |toSnd| && (forall i :: 0 <= i < |toSnd| ==> ReplyOk(u, toSnd[i], n.up[i]))
  }

  /** What every step of the link keeps. */
  ghost predicate Inv(u: Setup, l: Link, n: Labels)
    requires ValidSetup(u)
  {
    && SenderOk(u, l.snd, n.acked) && ReceiverOk(u, l.rcv, n.got)
    && Ordered(u, l.snd.base, NextOf(l.snd), n) && LinesOk(u, l.toRcv, l.toSnd, n)
  }

  lemma InitiallyInv(u: Setup)
    requires ValidSetup(u)
    ensures Inv(u, Init(u), Labels([], [], {}, {}))
  {
    var l := Init(u);
    assert l.rcv.win.delivered == u.packets[..0];
    assert (u.last + 1 - 1) % 64 == u.last;
  }

  lemma SenderFails(u: Setup, s: Sending, acked: set<int>)
    requires ValidSetup(u) && SenderOk(u, s, acked)
    ensures SenderOk(u, s.(phase := Failed), acked)
  {
    hide WireOf;
    forall i | 0 <= i < |s.win|
      ensures OutOk(u, s.(phase := Failed), acked, i)
    {
      assert OutOk(u, s, acked, i);
    }
  }

  /** A call of the sender that hears no acknowledgement. */
  lemma SenderRuns(u: Setup, s: Sending, acked: set<int>, input: Input) returns (q: int)
    requires ValidSetup(u) && SenderOk(u, s, acked) && forall p :: p in acked ==> p < NextOf(s)
    requires !(input.Packet? && input.typ == TYPE_Y && Reads(s))
    ensures SenderOk(u, SendWindow.Run(s, input).snd, acked) && Sends(u, SendWindow.Run(s, input), NextOf(s), q)
    ensures SendWindow.Run(s, input).snd.base == s.base
  {
    hide Transmit, Resend, WireOf, Asked;
    q := NextOf(s);
    if s.phase == Data && |s.win| < s.size {
      SenderTransmits(u, s, acked);
    } else if s.phase == Data || s.phase == Eof {
      match input {
        case Silence => SenderRepeats(u, s, acked, 0, false); q := s.base;
        case Damaged => SenderRepeats(u, s, acked, 0, true); q := s.base;
        case Impossible =>
        case Packet(typ, sq) =>
          if typ == TYPE_R || typ == TYPE_E {
            SenderFails(u, s, acked);
          } else if typ != TYPE_G {
            SenderRepeats(u, s, acked, Asked(s, sq), false);
            q := s.base + Asked(s, sq);
          }
      }
    }
  }

  lemma AfterSend(u: Setup, l: Link, n: Labels, r: Result, next: int, q: int) returns (n': Labels)
    requires ValidSetup(u) && SenderOk(u, r.snd, n.acked) && Sends(u, r, next, q) && ReceiverOk(u, l.rcv, n.got)
    requires Ordered(u, r.snd.base, next, n) && LinesOk(u, l.toRcv, l.toSnd, n)
    ensures Inv(u, AfterSender(l, r), n')
  {
    hide WireOf, SenderOk, ReceiverOk, Ordered, DataOk, ReplyOk;
    if r.sent == [] {
      n' := n;
      assert l.toRcv + [] == l.toRcv;
    } else {
      OrderedSend(u, r.snd.base, next, n, q);
      SentIsOk(u, q);
      n' := n.(down := n.down + [q]);
    }
  }

  lemma TimeoutKeeps(u: Setup, l: Link, n: Labels) returns (n': Labels)
    requires ValidSetup(u) && Inv(u, l, n)
    ensures Inv(u, Step(u, l, SenderTimeout), n')
  {
    hide SendWindow.Run, LinesOk, ReceiverOk, SenderOk, WireOf;
    AckedAreSent(u, l, n);
    var q := SenderRuns(u, l.snd, n.acked, Silence);
    n' := AfterSend(u, l, n, SendWindow.Run(l.snd, Silence), NextOf(l.snd), q);
  }

  lemma AckedAreSent(u: Setup, l: Link, n: Labels)
    requires ValidSetup(u) && Inv(u, l, n)
    ensures SendWindow.Valid(l.snd) && l.snd.size == u.size && forall p :: p in n.acked ==> p < NextOf(l.snd)
  {
    hide WireOf, ReceiverOk, LinesOk;
  }

  lemma SenderCallKeeps(u: Setup, l: Link, n: Labels, mem: seq<byte>) returns (n': Labels)
    requires ValidSetup(u) && Inv(u, l, n) && Enabled(u, l, SenderCall(mem))
    ensures SendWindow.Valid(l.snd) && Inv(u, Step(u, l, SenderCall(mem)), n')
  {
    hide SendWindow.Run, ReceiverOk, SenderOk, WireOf, Receive, Scan, Parse, ReplyWire, Ordered, OnAck, DataOk;
    AckedAreSent(u, l, n);
    var s, p, heard := l.snd, n.up[0], Receive(SndConfig(u), l.toSnd[0], mem);
    var input := InputOf(heard);
    var r := SendWindow.Run(s, input);
    assert ReplyOk(u, l.toSnd[0], p);
    var reply: Reply :| Carries(u, l.toSnd[0], p, reply);
    var ack := heard.Good? && reply.Ack?;
    var q;
    if ack {
      q := AckIsCredited(u, s, n, p);
      RunOnAck(s, p % 64);
      OrderedAck(u, s.base, NextOf(s), n, true, r.snd.base);
    } else {
      assert !(input.Packet? && input.typ == TYPE_Y);
      q := SenderRuns(u, s, n.acked, input);
      OrderedAck(u, s.base, NextOf(s), n, false, s.base);
    }
    var n1 := n.(up := n.up[1..], acked := if ack then n.acked + {p} else n.acked);
    var l1 := l.(toSnd := l.toSnd[1..]);
    n' := AfterSend(u, l1, n1, r, NextOf(s), q);
  }

  lemma RunOnAck(s: Sending, sq: int)
    requires SendWindow.Valid(s) && Reads(s) && s.phase != Done && s.phase != Failed
    ensures SendWindow.Run(s, Input.Packet(TYPE_Y, sq)) == OnAck(s, sq)
  {
  }

  lemma AckIsCredited(u: Setup, s: Sending, n: Labels, p: int) returns (q: int)
    requires ValidSetup(u) && SenderOk(u, s, n.acked) && Ordered(u, s.base, NextOf(s), n)
    requires n.up != [] && p == n.up[0] && (s.phase == Data || s.phase == Eof)
    ensures var r := OnAck(s, p % 64);
      && SenderOk(u, r.snd, n.acked + {p}) && Sends(u, r, NextOf(s), q) && s.base <= r.snd.base <= NextOf(s)
      && forall x :: s.base <= x < r.snd.base ==> x in n.acked + {p}
  {
    hide OnAck, WireOf, OutOk;
    AckIsNear(u, s.base, NextOf(s), n);
    assert (n.up + n.down)[0] == p;
    q := SenderHearsAck(u, s, n.acked, p);
  }

  /** The receiver takes a frame off the line. */
  lemma ReceiverCallKeeps(u: Setup, l: Link, n: Labels, mem: seq<byte>) returns (n': Labels)
    requires ValidSetup(u) && Inv(u, l, n) && Enabled(u, l, ReceiverCall(mem))
    ensures SendWindow.Valid(l.snd) && Inv(u, Step(u, l, ReceiverCall(mem)), n')
  {
    hide SenderOk, WireOf, Receive, ReplyWire, Ordered, Hear, ReceiverOk;
    AckedAreSent(u, l, n);
    var p, heard := n.down[0], Receive(RcvConfig(u), l.toRcv[0], mem);
    assert DataOk(u, l.toRcv[0], p);
    var h := Hear(l.rcv, heard);
    if !heard.Good? {
      NothingIsHeard(l.rcv, heard);
      OrderedIgnore(u, l.snd.base, NextOf(l.snd), n);
      n' := n.(down := n.down[1..]);
      assert l.toSnd + ReplyWires(u, []) == l.toSnd;
    } else {
      var counts := HearingCounts(u, l, n, p, heard);
      if counts {
        OrderedReceive(u, l.snd.base, NextOf(l.snd), n, |h.replies|);
        n' := Received(n, |h.replies|);
        LinesAfterData(u, l.toRcv, l.toSnd, n, h.replies, true);
      } else {
        OrderedIgnore(u, l.snd.base, NextOf(l.snd), n);
        n' := n.(down := n.down[1..]);
        LinesAfterData(u, l.toRcv, l.toSnd, n, h.replies, false);
      }
    }
  }

  lemma NothingIsHeard(r: Receiving, p: Parsed)
    requires !p.Good?
    ensures Hear(r, p) == Heard(r, [])
  {
  }

  lemma LinesAfterData(u: Setup, toRcv: seq<seq<byte>>, toSnd: seq<seq<byte>>, n: Labels, rs: seq<Reply>, counts: bool)
    requires ValidSetup(u) && LinesOk(u, toRcv, toSnd, n) && toRcv != []
    requires forall i :: 0 <= i < |rs| && rs[i].Ack? ==> rs[i].num % 64 == n.down[0] % 64
    requires !counts ==> rs == []
    ensures LinesOk(u, toRcv[1..], toSnd + ReplyWires(u, rs), if counts then Received(n, |rs|) else n.(down := n.down[1..]))
  {
    hide DataOk, ReplyOk, Carries, ReplyWire;
    forall i | 0 <= i < |rs|
      ensures ReplyOk(u, ReplyWires(u, rs)[i], n.down[0])
    {
      RepliedIsOk(u, n.down[0], rs[i]);
    }
    assert toSnd + ReplyWires(u, []) == toSnd;
  }

  /** Packet `p` is heard: it counts as taken in, unless it is data after the end of the
      file. */
  lemma HearingCounts(u: Setup, l: Link, n: Labels, p: int, heard: Parsed) returns (counts: bool)
    requires ValidSetup(u) && Inv(u, l, n) && n.down != [] && p == n.down[0] && Origin(u) <= p <= Last(u)
    requires heard == PacketOf(u, p)
    ensures var h := Hear(l.rcv, heard);
      && ReceiverOk(u, h.rcv, if counts then n.got + {p} else n.got)
      && (!counts ==> h.replies == [])
      && forall i :: 0 <= i < |h.replies| && h.replies[i].Ack? ==> h.replies[i].num % 64 == p % 64
  {
    hide SenderOk, Hear, LinesOk, Ordered, ReceiverOk;
    counts := p == Last(u) || !l.rcv.closed;
    if p == Last(u) {
      HearsEnd(u, l.rcv, n.got);
    } else if l.rcv.closed {
      HearsNoMore(u, l.rcv, n.got, heard);
    } else {
      DataCounts(u, l, n, p);
    }
  }

  lemma DataCounts(u: Setup, l: Link, n: Labels, p: int)
    requires ValidSetup(u) && Inv(u, l, n) && n.down != [] && p == n.down[0] && Origin(u) <= p < Last(u) && !l.rcv.closed
    ensures var h := Hear(l.rcv, Good(TYPE_D, p % 64, u.packets[p - Origin(u)]));
      && ReceiverOk(u, h.rcv, n.got + {p}) && !h.rcv.closed && h.rcv.phase != Stopped && h.replies == Replies(l.rcv.win, p)
      && forall i :: 0 <= i < |h.replies| && h.replies[i].Ack? ==> h.replies[i].num % 64 == p % 64
  {
    hide SenderOk, Hear, LinesOk, Replies, Range, Kept;
    TableIsBehind(u, l.rcv, n.got);
    ArrivalIsNear(u, l.snd.base, NextOf(l.snd), n, l.rcv.win.high);
    HearsData(u, l.rcv, n.got, p);
    RepliesAreFor(l.rcv.win, p);
  }

  lemma LossKeeps(u: Setup, l: Link, n: Labels, e: Event) returns (n': Labels)
    requires ValidSetup(u) && Inv(u, l, n) && Enabled(u, l, e) && (e.LoseData? || e.LoseReply? || e.DamageData? || e.DamageReply?)
    ensures SendWindow.Valid(l.snd) && Inv(u, Step(u, l, e), n')
  {
    hide SenderOk, WireOf, ReceiverOk, MayBecome, DataOk, ReplyOk, Ordered;
    AckedAreSent(u, l, n);
    n' := n;
    match e {
      case LoseData(i) =>
        OrderedLoseData(u, l.snd.base, NextOf(l.snd), n, i);
        n' := n.(down := Without(n.down, i));
      case LoseReply(i) =>
        OrderedLoseReply(u, l.snd.base, NextOf(l.snd), n, i);
        n' := n.(up := Without(n.up, i));
      case DamageData(i, wire) => DamageIsOk(u, l.toRcv[i], wire, n.down[i]);
      case DamageReply(i, wire) => DamageIsOk(u, l.toSnd[i], wire, n.up[i]);
    }
  }

  lemma DamageIsOk(u: Setup, was: seq<byte>, wire: seq<byte>, p: int)
    requires ValidSetup(u)
    ensures DataOk(u, was, p) && MayBecome(RcvConfig(u), was, wire) ==> DataOk(u, wire, p)
    ensures ReplyOk(u, was, p) && MayBecome(SndConfig(u), was, wire) ==> ReplyOk(u, wire, p)
  {
    hide Receive;
    if ReplyOk(u, was, p) && MayBecome(SndConfig(u), was, wire) {
      var r: Reply :| Carries(u, was, p, r);
      assert Carries(u, wire, p, r);
    }
  }
}
