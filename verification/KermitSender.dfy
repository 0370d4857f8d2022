/** The sender's packet table: slots, and an array that finds the slot of a sequence number. */
module KermitSender {
  import opened Bytes
  import opened KermitBytes
  import opened KermitFrame
  import opened ReceiveWindow
  import opened SequenceNumbers
  import opened SendWindow

  /** A window slot. `len < 1` marks it as free; `flg` is the acknowledged bit. */
  datatype Slot = Slot(len: int, sq: int, typ: byte, rtr: nat, flg: bool, buf: seq<byte>)

  /** The slot that holds packet `o`. */
  function Holding(o: Out): Slot { Slot(|o.wire|, o.sq, o.typ, o.rtr, o.acked, o.wire) }

  lemma HoldingIs(o: Out)
    ensures Holding(o) == Slot(|o.wire|, o.sq, o.typ, o.rtr, o.acked, o.wire)
  {
  }

  lemma FrameIsNotEmpty(typ: byte, sq: nat, data: seq<byte>, bct: nat)
    requires 1 <= bct <= 3
    ensures Frame(typ, sq, data, bct) != []
  {
  }

  class Sender {
    const wslots: nat
    const retry: nat
    const bct: nat
    const opktinfo: array<Slot>
    const s_pw: array<int>
    var s_seq: int
    var state: Phase
    var todo: seq<seq<byte>>  // the data fields the packetiser has still to deliver
    var txd: seq<seq<byte>>   // what has been put on the line

    ghost var snd: Sending    // the window in order
    ghost var nums: seq<int>  // the absolute number of the packet in each slot

    /** The start of the data phase: packet `last`, the one before the first data packet,
        has been acknowledged. */
    constructor (size: nat, retries: nat, check: nat, last: int, packets: seq<seq<byte>>)
      requires 1 <= size <= MAX_WINDOW && 1 <= check <= 3 && 0 <= last < 64
      ensures Valid() && fresh(opktinfo) && fresh(s_pw) && txd == []
      ensures snd == Sending(size, retries, check, last + 1, last, Data, [], packets)
    {
      wslots, retry, bct := size, retries, check;
      opktinfo := new Slot[size] (_ => Slot(0, -1, SP, 0, false, []));
      s_pw := new int[64] (_ => -1);
      s_seq, state, todo, txd := last, Data, packets, [];
      snd := Sending(size, retries, check, last + 1, last, Data, [], packets);
      nums := seq(size, _ => 0);
    }

    ghost predicate Used(i: int)
      reads opktinfo
      requires 0 <= i < opktinfo.Length
    {
      opktinfo[i].len > 0
    }

    /** Packet `p` is in the window. */
    ghost predicate Inside(p: int)
      reads this`snd
    {
      snd.base <= p < snd.base + |snd.win|
    }

    ghost predicate Shape()
      reads this`snd, this`nums
    {
      && 1 <= wslots <= MAX_WINDOW && opktinfo.Length == wslots && s_pw.Length == 64 && |nums| == wslots
      && snd.size == wslots && snd.retry == retry && snd.bct == bct && 1 <= bct <= 3 && |snd.win| <= wslots
      && forall i :: 0 <= i < |snd.win| ==> snd.win[i].sq == (snd.base + i) % 64 && snd.win[i].wire != []
    }

    ghost predicate SlotOk(i: int)
      reads this`snd, this`nums, opktinfo, s_pw
    {
      && Shape() && 0 <= i < wslots
      && if Used(i) then
           Inside(nums[i]) && opktinfo[i] == Holding(snd.win[nums[i] - snd.base]) && s_pw[nums[i] % 64] == i
         else opktinfo[i].sq == -1
    }

    ghost predicate Found(p: int)
      reads this`snd, this`nums, opktinfo, s_pw
    {
      Shape() && 0 <= s_pw[p % 64] < wslots && Used(s_pw[p % 64]) && nums[s_pw[p % 64]] == p
    }

    ghost predicate FinderOk(s: int)
      reads this`snd, this`nums, opktinfo, s_pw
    {
      && Shape() && 0 <= s < 64
      && (s_pw[s] == -1 || (0 <= s_pw[s] < wslots && Used(s_pw[s]) && nums[s_pw[s]] % 64 == s))
    }

    /** Slots and finder array are inverse to each other and hold exactly the window. */
    ghost predicate Tables()
      reads this`snd, this`nums, opktinfo, s_pw
    {
      && Shape()
      && (forall i :: 0 <= i < wslots ==> SlotOk(i))
      && (forall p :: Inside(p) ==> Found(p))
      && (forall s :: 0 <= s < 64 ==> FinderOk(s))
    }

    ghost predicate Ties()
      reads this`snd, this`s_seq, this`state, this`todo
    {
      s_seq == snd.s_seq && state == snd.phase && todo == snd.todo && SendWindow.Valid(snd)
    }

    ghost predicate Valid()
      reads this`snd, this`nums, this`s_seq, this`state, this`todo, opktinfo, s_pw
    {
      Tables() && Ties()
    }

    // ---------------------------------------------------------------- facts about the tables

    lemma ShapeHolds()
      requires Tables()
      ensures Shape()
    {
    }

    lemma SlotTells(i: int)
      requires Tables() && 0 <= i < wslots
      ensures !Used(i) ==> opktinfo[i].sq == -1
      ensures Used(i) ==> Inside(nums[i]) && opktinfo[i] == Holding(snd.win[nums[i] - snd.base])
      ensures Used(i) ==> opktinfo[i].sq == nums[i] % 64 && s_pw[nums[i] % 64] == i
    {
      assert SlotOk(i);
    }

    lemma SlotOf(p: int)
      requires Tables() && Inside(p)
      ensures 0 <= s_pw[p % 64] < wslots && Used(s_pw[p % 64]) && nums[s_pw[p % 64]] == p
      ensures opktinfo[s_pw[p % 64]] == Holding(snd.win[p - snd.base])
    {
      assert Found(p);
      SlotTells(s_pw[p % 64]);
    }

    /** A sequence number is found exactly when it is in the window. */
    lemma FinderTells(sq: int)
      requires Tables() && 0 <= sq < 64
      ensures var i := Find(snd.win, sq);
        if i >= 0 then 0 <= s_pw[sq] < wslots && Used(s_pw[sq]) && nums[s_pw[sq]] == snd.base + i && (snd.base + i) % 64 == sq
        else s_pw[sq] == -1
    {
      var i := Find(snd.win, sq);
      if i >= 0 {
        SlotOf(snd.base + i);
      } else {
        assert FinderOk(sq);
        if s_pw[sq] != -1 {
          SlotTells(s_pw[sq]);
          assert false;
        }
      }
    }

    /** The finder array has no entry for a packet that is not there. */
    lemma NotFound(r: int)
      requires Tables() && !Inside(r) && forall p :: Inside(p) ==> -64 < p - r < 64
      ensures s_pw[r % 64] == -1
    {
      assert FinderOk(r % 64);
      var n := s_pw[r % 64];
      if n != -1 {
        SlotTells(n);
        NearAreDistinct(nums[n], r);
      }
    }

    /** Different used slots hold different packets. */
    lemma {:induction false} SlotsAreDistinct(n: nat) returns (ps: set<int>)
      requires Tables() && n <= wslots && forall i :: 0 <= i < n ==> Used(i)
      ensures |ps| == n && forall p :: p in ps ==> Inside(p) && 0 <= s_pw[p % 64] < n
    {
      ps := {};
      if n > 0 {
        var qs := SlotsAreDistinct(n - 1);
        SlotTells(n - 1);
        ps := qs + {nums[n - 1]};
      }
    }

    /** Slots are used up exactly when the window is full. */
    lemma FullMeansFull()
      requires Tables()
      ensures (forall i :: 0 <= i < wslots ==> Used(i)) ==> |snd.win| == wslots
    {
      if forall i :: 0 <= i < wslots ==> Used(i) {
        var ps := SlotsAreDistinct(wslots);
        FitsInterval(ps, snd.base, snd.base + |snd.win|);
      }
    }

    // ---------------------------------------------------------------- slots

    /** Sequence number of the earliest packet in the window, or -1: the one whose age, as
        seen from the last one sent, is greatest. */
    method EarliestSseq() returns (oldest: int)
      requires Tables() && s_seq == (snd.base + |snd.win| - 1) % 64
      ensures oldest == if snd.win == [] then -1 else snd.base % 64
    {
      hide Tables, Holding;
      ShapeHolds();
      oldest := -1;
      var oldestAge := -99;
      ghost var top := snd.base + |snd.win| - 1;
      ghost var m := 0;
      var slot := 0;
      while slot < wslots
        invariant 0 <= slot <= wslots
        invariant oldest == -1 ==> oldestAge == -99 && forall i :: 0 <= i < slot ==> !Used(i)
        invariant oldest != -1 ==> Inside(m) && oldest == m % 64 && oldestAge == top - m
        invariant oldest != -1 ==> forall i :: 0 <= i < slot && Used(i) ==> m <= nums[i]
      {
        SlotTells(slot);
        var sq := opktinfo[slot].sq;
        if sq >= 0 && sq < 64 {
          AgeOf(top, nums[slot]);
          var age := s_seq - sq;
          if age < 0 {
            age := age + 64;
          }
          if age > oldestAge {
            oldestAge, oldest, m := age, sq, nums[slot];
          }
        }
        slot := slot + 1;
      }
      if snd.win != [] {
        SlotOf(snd.base);
      }
    }

    lemma AgeOf(top: int, p: int)
      requires 0 <= top - p < 64
      ensures top - p == if top % 64 - p % 64 < 0 then top % 64 - p % 64 + 64 else top % 64 - p % 64
    {
    }

    /** Frees the slot of the earliest packet. */
    method FreeSslot(slot: int)
      requires Tables() && snd.win != [] && slot == s_pw[snd.base % 64]
      modifies this`snd, opktinfo, s_pw
      ensures Tables() && snd == old(snd).(base := old(snd).base + 1, win := old(snd).win[1..])
    {
      hide Holding;
      ghost var m := snd.base;
      SlotOf(m);
      SlotTells(slot);
      snd := snd.(base := snd.base + 1, win := snd.win[1..]);
      s_pw[opktinfo[slot].sq] := -1;
      opktinfo[slot] := Slot(0, -1, NUL, 0, false, []);
      assert Shape();
      forall p | Inside(p)
        ensures Found(p)
      {
        NearAreDistinct(p, m);
        assert old(Inside(p)) && old(Found(p));
      }
      forall i | 0 <= i < wslots
        ensures SlotOk(i)
      {
        assert old(SlotOk(i));
        if i != slot && Used(i) {
          NearAreDistinct(nums[i], m);
        }
      }
      forall s | 0 <= s < 64
        ensures FinderOk(s)
      {
        assert old(FinderOk(s));
      }
    }

    /** Finds a free slot and marks it as allocated but not used; -1 when there is none. */
    method GetSslot() returns (n: int)
      requires Tables()
      modifies opktinfo
      ensures Tables()
      ensures n == -1 <==> |snd.win| == wslots
      ensures n != -1 ==> 0 <= n < wslots && !Used(n) && forall i :: 0 <= i < n ==> Used(i)
    {
      hide Holding;
      var slot := 0;
      while slot < wslots
        invariant 0 <= slot <= wslots && Tables() && unchanged(opktinfo)
        invariant forall i :: 0 <= i < slot ==> old(Used(i))
      {
        if opktinfo[slot].len < 1 {
          SomeRoom(slot);
          opktinfo[slot] := opktinfo[slot].(len := -1, sq := -1, typ := SP, rtr := 0, flg := false);
          forall p | Inside(p)
            ensures Found(p)
          {
            assert old(Found(p)) && old(SlotOk(s_pw[p % 64]));
          }
          forall i | 0 <= i < wslots
            ensures SlotOk(i)
          {
            assert old(SlotOk(i));
          }
          forall s | 0 <= s < 64
            ensures FinderOk(s)
          {
            assert old(FinderOk(s));
          }
          assert forall i :: 0 <= i < slot ==> old(Used(i)) ==> Used(i);
          return slot;
        }
        slot := slot + 1;
      }
      assert forall i :: 0 <= i < slot ==> old(Used(i)) ==> Used(i);
      FullMeansFull();
      return -1;
    }

    /** A free slot means that the window has room. */
    lemma SomeRoom(slot: int)
      requires Tables() && 0 <= slot < wslots && !Used(slot)
      ensures |snd.win| < wslots
    {
      var ps := PlacesOf(|snd.win|);
      FitsInterval(ps + {slot}, 0, wslots);
    }

    /** Different packets are in different slots. */
    lemma {:induction false} PlacesOf(n: nat) returns (ps: set<int>)
      requires Tables() && n <= |snd.win|
      ensures |ps| == n
      ensures forall i :: i in ps ==> 0 <= i < wslots && Used(i) && snd.base <= nums[i] < snd.base + n
    {
      ps := {};
      if n > 0 {
        var qs := PlacesOf(n - 1);
        SlotOf(snd.base + n - 1);
        ps := qs + {s_pw[(snd.base + n - 1) % 64]};
      }
    }

    /** Number of slots in use. */
    method NUsedSslots() returns (n: nat)
      requires Tables()
      ensures n == |snd.win|
    {
      hide Tables, Holding;
      ShapeHolds();
      n := 0;
      var i := 0;
      ghost var ps: set<int> := {};
      while i < wslots
        invariant 0 <= i <= wslots && |ps| == n
        invariant forall p :: p in ps ==> Inside(p) && 0 <= s_pw[p % 64] < i
        invariant forall j :: 0 <= j < i && Used(j) ==> nums[j] in ps
      {
        SlotTells(i);
        if opktinfo[i].len > 0 {
          n := n + 1;
          ps := ps + {nums[i]};
        }
        i := i + 1;
      }
      forall p | Inside(p)
        ensures p in ps
      {
        SlotOf(p);
      }
      WholeInterval(ps, snd.base, snd.base + |snd.win|);
    }

    lemma {:induction false} WholeInterval(ps: set<int>, lo: int, hi: int)
      requires lo <= hi && forall p :: p in ps <==> lo <= p < hi
      ensures |ps| == hi - lo
      decreases hi - lo
    {
      if lo == hi {
        if ps != {} {
          var p :| p in ps;
          assert false;
        }
      } else {
        WholeInterval(ps - {lo}, lo + 1, hi);
      }
    }

    /** Replaces the packet at position `i` of the window, in its slot, by one with the same
        number and bytes. */
    method Update(slot: int, ghost i: int, ghost o: Out, flg: bool, rtr: nat)
      requires Tables() && 0 <= i < |snd.win| && slot == s_pw[(snd.base + i) % 64]
      requires o == snd.win[i].(acked := flg, rtr := rtr)
      modifies this`snd, opktinfo
      ensures Tables() && snd == old(snd).(win := old(snd).win[i := o])
    {
      SlotOf(snd.base + i);
      SlotTells(slot);
      snd := snd.(win := snd.win[i := o]);
      opktinfo[slot] := opktinfo[slot].(flg := flg, rtr := rtr);
      assert Shape();
      forall p | Inside(p)
        ensures Found(p)
      {
        assert old(Found(p)) && old(SlotOk(s_pw[p % 64]));
      }
      forall k | 0 <= k < wslots
        ensures SlotOk(k)
      {
        assert old(SlotOk(k));
      }
      forall s | 0 <= s < 64
        ensures FinderOk(s)
      {
        assert old(FinderOk(s));
      }
    }

    /** Puts a new packet behind the last one, into a free slot. */
    method Append(slot: nat, sq: int, typ: byte, wire: seq<byte>)
      requires Tables() && slot < wslots && !Used(slot) && |snd.win| < wslots
      requires sq == (snd.base + |snd.win|) % 64 && wire != []
      modifies this`snd, this`nums, opktinfo, s_pw
      ensures Tables() && snd == old(snd).(win := old(snd).win + [Out(sq, typ, wire, false, 0)])
    {
      hide Holding;
      ghost var r := snd.base + |snd.win|;
      ghost var o := Out(sq, typ, wire, false, 0);
      NotFound(r);
      HoldingIs(o);
      opktinfo[slot] := Slot(|wire|, sq, typ, 0, false, wire);
      s_pw[sq] := slot;
      nums := nums[slot := r];
      snd := snd.(win := snd.win + [o]);
      assert Shape();
      forall p | Inside(p)
        ensures Found(p)
      {
        if p != r {
          assert old(Inside(p)) && old(Found(p));
          NearAreDistinct(p, r);
        }
      }
      forall i | 0 <= i < wslots
        ensures SlotOk(i)
      {
        assert old(SlotOk(i));
        if i != slot && Used(i) {
          NearAreDistinct(nums[i], r);
        }
      }
      forall s | 0 <= s < 64
        ensures FinderOk(s)
      {
        assert old(FinderOk(s));
      }
    }

    // ---------------------------------------------------------------- acknowledgement

    /** Frees the earliest packet and those that follow it as long as they are acknowledged. */
    method FreeSslotEasca()
      requires Tables() && s_seq == (snd.base + |snd.win| - 1) % 64
      modifies this`snd, opktinfo, s_pw
      ensures Tables() && snd == Freed(old(snd), old(snd).win)
    {
      hide Tables, Holding, Freed;
      ShapeHolds();
      ghost var s := snd;
      var i := 0;
      while i < wslots
        invariant Tables() && s_seq == (snd.base + |snd.win| - 1) % 64
        invariant Freed(snd, snd.win) == Freed(s, s.win) && |snd.win| <= wslots - i
      {
        ShapeHolds();
        var earliest := EarliestSseq();
        if earliest < 0 || earliest > 63 {
          break;
        }
        SlotOf(snd.base);
        HoldingIs(snd.win[0]);
        var slot := s_pw[earliest];
        if slot < 0 || slot >= wslots {
          assert false;
        }
        if !opktinfo[slot].flg {
          break;
        }
        FreedStep(snd);
        FreeSslot(slot);
        i := i + 1;
      }
      FreedEnd(snd);
    }

    // ---------------------------------------------------------------- sending

    /** Builds a packet with the current sequence number in a free slot and sends it. */
    method Spkt(typ: byte, data: seq<byte>) returns (ok: bool)
      requires Tables() && |snd.win| < wslots && s_seq == (snd.base + |snd.win|) % 64
      modifies this`snd, this`nums, this`txd, opktinfo, s_pw
      ensures var w := Frame(typ, s_seq, data, bct);
        ok && Tables() && txd == old(txd) + [w] && snd == old(snd).(win := old(snd).win + [Out(s_seq, typ, w, false, 0)])
    {
      hide Tables, Frame;
      ShapeHolds();
      var slot := GetSslot();
      if slot < 0 || slot >= wslots {
        return false;
      }
      var wire := Frame(typ, s_seq, data, bct);
      FrameIsNotEmpty(typ, s_seq, data, bct);
      Append(slot, s_seq, typ, wire);
      txd := txd + [wire];
      ok := true;
    }

    /** Brings the model of the window up to date with the other fields. */
    ghost method Settle()
      requires Tables() && SendWindow.Valid(snd.(s_seq := s_seq, todo := todo, phase := state))
      modifies this`snd
      ensures Valid() && snd == old(snd).(s_seq := s_seq, todo := todo, phase := state)
    {
      snd := snd.(s_seq := s_seq, todo := todo, phase := state);
      assert forall i :: 0 <= i < wslots ==> old(SlotOk(i)) ==> SlotOk(i);
      assert forall p :: Inside(p) ==> old(Found(p)) ==> Found(p);
      assert forall s :: 0 <= s < 64 ==> old(FinderOk(s)) ==> FinderOk(s);
    }

    /** Sends the next data packet, or the end-of-file packet when there is none, if the
        window has room. */
    method SendNext() returns (ok: bool)
      requires Valid() && state == Data
      modifies this, opktinfo, s_pw
      ensures Valid() && ok
      ensures |old(snd).win| < wslots ==> snd == Transmit(old(snd)).snd && txd == old(txd) + Transmit(old(snd)).sent
      ensures |old(snd).win| == wslots ==> snd == old(snd) && txd == old(txd)
    {
      hide Tables, Frame;
      ghost var s := snd;
      ShapeHolds();
      var slot := GetSslot();
      if slot < 0 {
        return true;
      }
      TransmitKeeps(s);
      NextNumber(s.base, |s.win|);
      s_seq := (s_seq + 1) % 64;
      if todo != [] {
        ok := Spkt(TYPE_D, todo[0]);
        todo := todo[1..];
      } else {
        state := Eof;
        ok := Spkt(TYPE_Z, []);
      }
      Settle();
    }

    /** The sequence number to send again: the one asked for, or the earliest. */
    method WhichToResend(asked: int) returns (sq: int, ghost i: int)
      requires Valid() && snd.win != [] && -1 <= asked < 64
      ensures i == Asked(snd, asked) && sq == (snd.base + i) % 64
    {
      hide Tables, Holding;
      ShapeHolds();
      i := Asked(snd, asked);
      sq := asked;
      if sq < 0 {
        sq := EarliestSseq();
      } else {
        FinderTells(sq);
        if s_pw[sq] < 0 {
          sq := EarliestSseq();
        }
      }
    }

    /** Sends a packet again: the one asked for, or the earliest. `lenient` callers go on
        when it has been sent too often. */
    method ResendSeq(asked: int, lenient: bool) returns (ok: bool)
      requires Valid() && snd.win != [] && -1 <= asked < 64
      requires state == Data || state == Eof
      modifies this`snd, this`txd, this`state, opktinfo
      ensures var r := Resend(old(snd), Asked(old(snd), asked), lenient);
        Valid() && snd == r.snd && txd == old(txd) + r.sent
    {
      hide Tables, Holding, Asked;
      ghost var s := snd;
      var sq;
      ghost var i;
      sq, i := WhichToResend(asked);
      ShapeHolds();
      ResendKeeps(s, i, lenient);
      SlotOf(snd.base + i);
      HoldingIs(s.win[i]);
      var slot := s_pw[sq];
      if slot < 0 {
        assert false;
      }
      var o := opktinfo[slot];
      if o.len == 0 {
        assert false;
      }
      Update(slot, i, s.win[i].(rtr := s.win[i].rtr + 1), o.flg, o.rtr + 1);
      ok := o.rtr + 1 <= retry;
      if ok {
        txd := txd + [o.buf];
      } else {
        state := if lenient then state else Failed;
        Settle();
        assert txd == txd + [];
      }
    }

    /** Marks a packet of the window as acknowledged and slides the window. */
    method MarkAndFree(slot: int, ghost i: int)
      requires Valid() && 0 <= i < |snd.win| && slot == s_pw[(snd.base + i) % 64]
      modifies this`snd, opktinfo, s_pw
      ensures Tables() && snd == Freed(old(snd), old(snd).win[i := old(snd).win[i].(acked := true)])
    {
      hide Tables, Holding, Freed;
      ghost var s := snd;
      ShapeHolds();
      SlotOf(snd.base + i);
      HoldingIs(s.win[i]);
      Update(slot, i, s.win[i].(acked := true), true, opktinfo[slot].rtr);
      FreedOf(s, snd.win);
      FreeSslotEasca();
    }

    /** An acknowledgement with a good block check has arrived. */
    method HandleAck(rseq: int) returns (ok: bool)
      requires Valid() && 0 <= rseq < 64 && snd.win != []
      requires state == Data || state == Eof
      modifies this, opktinfo, s_pw
      ensures Valid() && ok && snd == OnAck(old(snd), rseq).snd && txd == old(txd) + OnAck(old(snd), rseq).sent
    {
      hide Tables, Holding, Freed, Transmit;
      ghost var s := snd;
      ghost var i := Find(s.win, rseq);
      ok := true;
      ShapeHolds();
      FinderTells(rseq);
      assert txd + [] == txd;
      var slot := s_pw[rseq];
      if slot < 0 || slot >= wslots {
        return;
      }
      FreedKeeps(s, i);
      FreedFrame(s, s.win[i := s.win[i].(acked := true)]);
      MarkAndFree(slot, i);
      if state == Data {
        Settle();
        ok := SendNext();
      } else {
        var used := NUsedSslots();
        if used == 0 {
          state := Done;
        }
        Settle();
      }
    }

    lemma FreedOf(s: Sending, marked: seq<Out>)
      ensures Freed(s.(win := marked), marked) == Freed(s, marked)
    {
    }

    /** One call of the protocol engine while it sends a file's data. */
    method KRun(input: Input) returns (ok: bool)
      requires Valid() && (input.Packet? ==> 0 <= input.sq < 64)
      modifies this, opktinfo, s_pw
      ensures Valid() && snd == SendWindow.Run(old(snd), input).snd && txd == old(txd) + SendWindow.Run(old(snd), input).sent
    {
      hide Tables, Holding, Transmit, OnAck, Resend;
      assert txd + [] == txd;
      if state == Done || state == Failed {
        return false;
      }
      ShapeHolds();
      var used := NUsedSslots();
      if state == Data && used != wslots {
        ok := SendNext();
        return;
      }
      match input
      case Silence =>
        ok := ResendSeq(-1, false);
      case Damaged =>
        ok := ResendSeq(-1, true);
      case Impossible =>
        ok := true;
      case Packet(typ, sq) =>
        if typ == TYPE_G {
          ok := true;
        } else if typ == TYPE_R || typ == TYPE_E {
          state := Failed;
          Settle();
          ok := false;
        } else if typ != TYPE_Y {
          if used == 0 {
            assert false;
          }
          ok := ResendSeq(sq, false);
        } else {
          ok := HandleAck(sq);
        }
    }
  }
}
