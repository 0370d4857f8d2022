/** The receiver's packet table: slots, and an array that finds the slot of a sequence number. */
module KermitReceiver {
  import opened Bytes
  import opened KermitBytes
  import opened KermitCheck
  import opened ReceiveWindow
  import opened SequenceNumbers

  /** A window slot. `len < 1` marks it as free. */
  datatype Slot = Slot(len: int, sq: int, flg: bool, crc: bv16, buf: seq<byte>)

  /** The slot that holds data field `d` of packet `p`. */
  function Holding(p: int, d: seq<byte>): Slot { Slot(|d|, p % 64, true, Crc(d), d) }

  lemma OnWireAppend(rs: seq<Reply>, r: Reply)
    ensures OnWire(rs + [r]) == OnWire(rs) + [Replied(r)]
  {
  }

  lemma HoldingIs(p: int, d: seq<byte>)
    ensures Holding(p, d) == Slot(|d|, p % 64, true, Crc(d), d)
  {
  }

  function Replied(r: Reply): Reply {
    match r
    case Ack(n) => Ack(n % 64)
    case Nak(n) => Nak(n % 64)
  }

  /** Replies as they go out: numbers modulo 64. */
  function OnWire(rs: seq<Reply>): seq<Reply> {
    seq(|rs|, i requires 0 <= i < |rs| => Replied(rs[i]))
  }

  class Receiver {
    const wslots: nat
    const ipktinfo: array<Slot>
    const r_pw: array<int>
    var delivered: seq<seq<byte>>  // data fields handed to the decoder
    var replies: seq<Reply>        // acknowledgements and requests sent

    ghost var win: Window      // the window in absolute numbers
    ghost var nums: seq<int>   // the absolute number of the packet in each slot

    constructor (size: nat, ghost high: int)
      requires 1 <= size <= MAX_WINDOW
      ensures Valid() && fresh(ipktinfo) && fresh(r_pw)
      ensures win == Window(size, high, map[], []) && replies == []
    {
      wslots := size;
      ipktinfo := new Slot[size] (_ => Slot(0, -1, false, 0xFFFF, []));
      r_pw := new int[64] (_ => -1);
      delivered, replies := [], [];
      win := Window(size, high, map[], []);
      nums := seq(size, _ => 0);
    }

    ghost predicate Used(i: int)
      reads ipktinfo
      requires 0 <= i < ipktinfo.Length
    {
      ipktinfo[i].len > 0
    }

    ghost predicate Shape()
      reads this`win, this`nums, this`delivered
    {
      && 1 <= wslots <= MAX_WINDOW && ipktinfo.Length == wslots && r_pw.Length == 64 && |nums| == wslots
      && ReceiveWindow.Valid(win) && win.size == wslots && win.delivered == delivered
    }

    /** A used slot holds a packet of the window and is the one found for it. */
    ghost predicate SlotOk(i: int)
      reads this`win, this`nums, this`delivered, ipktinfo, r_pw
    {
      && Shape() && 0 <= i < wslots
      && if Used(i) then
           nums[i] in win.table && ipktinfo[i] == Holding(nums[i], win.table[nums[i]]) && r_pw[nums[i] % 64] == i
         else ipktinfo[i].sq == -1
    }

    /** A packet of the window is found in a slot. */
    ghost predicate Found(p: int)
      reads this`win, this`nums, this`delivered, ipktinfo, r_pw
    {
      Shape() && 0 <= r_pw[p % 64] < wslots && Used(r_pw[p % 64]) && nums[r_pw[p % 64]] == p
    }

    /** The finder array has no other entries. */
    ghost predicate FinderOk(s: int)
      reads this`win, this`nums, this`delivered, ipktinfo, r_pw
    {
      && Shape() && 0 <= s < 64
      && (r_pw[s] == -1 || (0 <= r_pw[s] < wslots && Used(r_pw[s]) && nums[r_pw[s]] % 64 == s))
    }

    /** Slots and finder array are inverse to each other and hold exactly the window. */
    ghost predicate Valid()
      reads this`win, this`nums, this`delivered, ipktinfo, r_pw
    {
      && Shape()
      && (forall i :: 0 <= i < wslots ==> SlotOk(i))
      && (forall p :: p in win.table ==> Found(p))
      && (forall s :: 0 <= s < 64 ==> FinderOk(s))
    }

    // ---------------------------------------------------------------- earliest and latest

    /** Difference of two sequence numbers, brought near zero. */
    function Rotate(sq: int, ref: int): int {
      var d := sq - ref;
      var e := if d < -31 then d + 64 else d;
      if e > 31 then e - 64 else e
    }

    /** Two packets of one window are as far apart as their sequence numbers. */
    lemma RotateIsDifference(p: int, q: int)
      requires -31 < p - q < 31
      ensures Rotate(p % 64, q % 64) == p - q
    {
      var a, b := p / 64, q / 64;
      assert p % 64 - q % 64 == (p - q) - 64 * (a - b);
      assert -1 <= a - b <= 1;
    }

    /** What the sequence number in a slot tells. */
    lemma SlotTells(i: int)
      requires Valid() && 0 <= i < wslots
      ensures ipktinfo[i].sq == (if Used(i) then nums[i] % 64 else -1)
      ensures Used(i) ==> nums[i] in win.table && win.high - wslots < nums[i] <= win.high && r_pw[nums[i] % 64] == i
      ensures Used(i) ==> ipktinfo[i] == Holding(nums[i], win.table[nums[i]])
      ensures !Used(i) ==> ipktinfo[i].sq == -1
    {
      assert SlotOk(i);
    }

    lemma ShapeHolds()
      requires Valid()
      ensures Shape()
    {
    }

    /** Every packet of the window is in some slot. */
    lemma SlotOf(p: int)
      requires Valid() && p in win.table
      ensures 0 <= r_pw[p % 64] < wslots && Used(r_pw[p % 64]) && nums[r_pw[p % 64]] == p
    {
      assert Found(p);
    }

    /** Finds some used slot; the last one, as the table is searched to its end. */
    method Reference() returns (ref: int, ghost at: int)
      requires Valid()
      ensures win.table == map[] <==> ref == -1
      ensures ref != -1 ==> 0 <= at < wslots && Used(at) && ref == nums[at] % 64 && nums[at] in win.table
    {
      hide Valid;
      ShapeHolds();
      ref, at := -1, 0;
      var slot := 0;
      while slot < wslots
        invariant 0 <= slot <= wslots
        invariant ref == -1 ==> forall i :: 0 <= i < slot ==> !Used(i)
        invariant ref != -1 ==> 0 <= at < wslots && Used(at) && ref == nums[at] % 64 && nums[at] in win.table
      {
        SlotTells(slot);
        var sq := ipktinfo[slot].sq;
        if sq >= 0 && sq < 64 {
          ref, at := sq, slot;
        }
        slot := slot + 1;
      }
      if win.table != map[] {
        HighIsThere();
        SlotOf(win.high);
      }
    }

    /** Sequence number of the earliest packet in the table, or -1. */
    method EarliestRseq() returns (oldest: int, ghost m: int)
      requires Valid()
      ensures oldest == -1 <==> win.table == map[]
      ensures oldest != -1 ==> m in win.table && oldest == m % 64 && forall p :: p in win.table ==> m <= p
    {
      hide Rotate, Valid, Holding, ReceiveWindow.Valid;
      ShapeHolds();
      var ref;
      ghost var at;
      ref, at := Reference();
      oldest, m := ref, if ref == -1 then 0 else nums[at];
      var best := if ref == -1 then -1 else 0;
      if ref != -1 {
        SlotTells(at);
        var slot := 0;
        while slot < wslots
          invariant 0 <= slot <= wslots
          invariant m in win.table && oldest == m % 64 && best == m - nums[at] && best <= 0
          invariant forall i :: 0 <= i < slot && Used(i) ==> m <= nums[i]
        {
          SlotTells(slot);
          var sq := ipktinfo[slot].sq;
          if sq >= 0 && sq < 64 {
            RotateIsDifference(nums[slot], nums[at]);
            var rot := Rotate(sq, ref);
            if rot < best {
              best, oldest, m := rot, sq, nums[slot];
            }
          }
          slot := slot + 1;
        }
        forall p | p in win.table
          ensures m <= p
        {
          SlotOf(p);
        }
      }
    }

    /** Sequence number of the latest packet in the table, or -1. */
    method LatestRseq() returns (newest: int)
      requires Valid()
      ensures newest == if win.table == map[] then -1 else win.high % 64
    {
      hide Rotate, Valid;
      ShapeHolds();
      var ref;
      ghost var at;
      ref, at := Reference();
      newest := ref;
      ghost var m := if ref == -1 then 0 else nums[at];
      var best := if ref == -1 then -1 else 0;
      if ref != -1 {
        SlotTells(at);
        HighIsThere();
        SlotOf(win.high);
        var slot := 0;
        while slot < wslots
          invariant 0 <= slot <= wslots
          invariant m in win.table && m <= win.high && newest == m % 64 && best == m - nums[at] && best >= 0
          invariant forall i :: 0 <= i < slot && Used(i) ==> m >= nums[i]
        {
          SlotTells(slot);
          var sq := ipktinfo[slot].sq;
          if sq >= 0 && sq < 64 {
            RotateIsDifference(nums[slot], nums[at]);
            var rot := Rotate(sq, ref);
            if rot > best {
              best, newest, m := rot, sq, nums[slot];
            }
          }
          slot := slot + 1;
        }
      }
    }

    lemma HighIsThere()
      requires Valid() && win.table != map[]
      ensures win.high in win.table
    {
    }

    method NUsed() returns (n: nat)
      requires Valid()
      ensures n == 0 <==> win.table == map[]
    {
      n := 0;
      var i := 0;
      while i < wslots
        invariant 0 <= i <= wslots
        invariant n == 0 <==> forall j :: 0 <= j < i ==> !Used(j)
      {
        SlotTells(i);
        if ipktinfo[i].len > 0 {
          n := n + 1;
        }
        i := i + 1;
      }
      if win.table != map[] {
        HighIsThere();
        SlotOf(win.high);
      } else {
        forall j | 0 <= j < wslots
          ensures !Used(j)
        {
          SlotTells(j);
        }
      }
    }

    // ---------------------------------------------------------------- slots

    /** Frees the slot of the earliest packet. */
    method FreeRslot(slot: int, ghost m: int)
      requires Valid() && m in win.table && slot == r_pw[m % 64] && forall p :: p in win.table ==> m <= p
      modifies this`win, ipktinfo, r_pw
      ensures Valid() && win == old(win).(table := old(win).table - {m})
    {
      hide Holding, Crc;
      DeliveredKeepsValid(win, m);
      HoldingIs(m, win.table[m]);
      SlotOf(m);
      SlotTells(slot);
      win := win.(table := win.table - {m});
      r_pw[ipktinfo[slot].sq] := -1;
      ipktinfo[slot] := Slot(0, -1, false, 0xFFFF, []);
      forall p | p in win.table
        ensures Found(p)
      {
        NearAreDistinct(p, m);
        assert old(Found(p));
      }
      forall i | 0 <= i < wslots
        ensures SlotOk(i)
      {
        assert old(SlotOk(i));
        if i != slot && Used(i) {
          NearAreDistinct(nums[i], m);
        }
      }
      forall s | 0 <= s < 64
        ensures FinderOk(s)
      {
        assert old(FinderOk(s));
      }
    }

    /** Hands the earliest packet to the decoder, after the decoder's test that the slot's
        length and CRC still match its bytes, and frees its slot. */
    method DecodeAndFree(slot: int, ghost m: int) returns (ok: bool)
      requires Valid() && m in win.table && slot == r_pw[m % 64] && forall p :: p in win.table ==> m <= p
      modifies this`delivered, this`win, ipktinfo, r_pw
      ensures Valid() && ok && win == Delivered(old(win), m)
    {
      hide Holding, Crc;
      var s := ipktinfo[slot];
      HoldingIs(m, win.table[m]);
      SlotOf(m);
      SlotTells(slot);
      if s.len != |s.buf| || Crc(s.buf) != s.crc {
        return false;
      }
      FreeRslot(slot, m);
      label Freed:
      delivered := delivered + [s.buf];
      win := win.(delivered := delivered);
      assert forall i :: 0 <= i < wslots ==> old@Freed(SlotOk(i)) ==> SlotOk(i);
      assert forall p :: p in win.table ==> old@Freed(Found(p)) ==> Found(p);
      assert forall q :: 0 <= q < 64 ==> old@Freed(FinderOk(q)) ==> FinderOk(q);
      ok := true;
    }

    /** Finds a free slot and marks it as allocated but not used. */
    method GetRslot() returns (n: int)
      requires Valid()
      modifies ipktinfo
      ensures Valid()
      ensures n == -1 ==> forall i :: 0 <= i < wslots ==> old(Used(i))
      ensures n != -1 ==> 0 <= n < wslots && !Used(n)
    {
      hide Holding, Crc;
      var slot := 0;
      while slot < wslots
        invariant 0 <= slot <= wslots && Valid() && unchanged(ipktinfo)
        invariant forall i :: 0 <= i < slot ==> Used(i)
      {
        if ipktinfo[slot].len < 1 {
          ipktinfo[slot] := ipktinfo[slot].(len := -1, sq := -1, crc := 0xFFFF);
          forall p | p in win.table
            ensures Found(p)
          {
            assert old(Found(p)) && old(SlotOk(r_pw[p % 64]));
          }
          forall i | 0 <= i < wslots
            ensures SlotOk(i)
          {
            assert old(SlotOk(i));
          }
          forall s | 0 <= s < 64
            ensures FinderOk(s)
          {
            assert old(FinderOk(s));
          }
          return slot;
        }
        slot := slot + 1;
      }
      return -1;
    }

    // ---------------------------------------------------------------- arrival of a packet

    /** The search among the old packets: counts up from the low end of the window. */
    method SearchOld(low: int, hp: int, rseq: int) returns (found: bool)
      requires 0 <= low < 64 && 0 <= hp < 64 && 0 <= rseq < 64 && low != hp
      ensures found == if low > hp then true else low <= rseq < hp
    {
      var i := low;
      ghost var t := if rseq >= low then rseq else rseq + 64;
      while i != hp
        invariant low <= i && (low < hp ==> i <= hp) && (low > hp ==> i <= t)
        invariant low < hp ==> !(low <= rseq < i)
        decreases if low < hp then hp - i else t - i
      {
        if rseq == i % 64 {
          return true;
        }
        i := i + 1;
      }
      return false;
    }

    /** Classifies a sequence number by searching, as against the latest packet. */
    method Search(high: int, rseq: int) returns (c: Class)
      requires 0 <= high < 64 && 0 <= rseq < 64 && 1 <= wslots <= MAX_WINDOW
      ensures c == SearchResult(wslots, high, rseq)
    {
      var low := high - wslots + 1;
      if low < 0 {
        low := low + 64;
      }
      SmallMod(high - wslots + 1);
      SmallMod(high + 1);
      var eseq := (high + 1) % 64;
      if rseq == eseq {
        return Next;
      }
      var i := 2;
      while i <= wslots
        invariant forall j :: 2 <= j < i ==> rseq != Plus(high, j)
      {
        assert Plus(high, i) == (high + i) % 64;
        if rseq == (high + i) % 64 {
          return Gap;
        }
        i := i + 1;
      }
      var old_ := SearchOld(low, eseq, rseq);
      return if old_ then Old else Stray;
    }

    /** Pushes out, in order, the packets that no longer fit the window of packet `r`. */
    method Align(rseq: int, ghost r: int) returns (ok: bool)
      requires Valid() && 0 <= rseq < 64 && rseq == r % 64
      requires win.table != map[] ==> win.high < r <= win.high + wslots
      modifies this`delivered, this`win, ipktinfo, r_pw
      ensures Valid() && ok && win == Aligned(old(win), r)
    {
      hide Range, From, Aligned, Valid;
      ShapeHolds();
      ghost var w := win;
      FitsInterval(w.table.Keys, w.high - wslots + 1, w.high + 1);
      var i := 0;
      while i < wslots
        invariant 0 <= i <= wslots && Valid() && win.high == w.high && win.size == w.size
        invariant win.table != map[] ==> win.high < r <= win.high + wslots
        invariant Aligned(win, r) == Aligned(w, r)
        invariant |win.table| <= wslots - i || forall p :: p in win.table ==> p > r - wslots
      {
        var iseq;
        ghost var m;
        iseq, m := EarliestRseq();
        if iseq < 0 {
          break;
        }
        var dseq := rseq - iseq;
        if dseq < 0 {
          dseq := dseq + 64;
        }
        ShapeHolds();
        DifferenceOfMods(r, m);
        if dseq >= wslots {
          var rslot := r_pw[iseq];
          AlignOne(win, r, m);
          ok := DecodeAndFree(rslot, m);
          if !ok {
            return false;
          }
        }
        i := i + 1;
      }
      ShapeHolds();
      assert |win.table| == 0 ==> win.table == map[];
      AlignedEnd(win, r);
      ok := true;
    }

    lemma DifferenceOfMods(r: int, m: int)
      requires 0 < r - m < 64
      ensures r - m == if r % 64 - m % 64 < 0 then r % 64 - m % 64 + 64 else r % 64 - m % 64
    {
    }

    /** Different used slots hold different packets. */
    lemma {:induction false} SlotsAreDistinct(n: nat) returns (ps: set<int>)
      requires Valid() && n <= wslots && forall i :: 0 <= i < n ==> Used(i)
      ensures |ps| == n && ps <= win.table.Keys && forall p :: p in ps ==> 0 <= r_pw[p % 64] < n
    {
      ps := {};
      if n > 0 {
        var qs := SlotsAreDistinct(n - 1);
        SlotTells(n - 1);
        ps := qs + {nums[n - 1]};
      }
    }

    /** With room for one more packet in its interval, a slot is free. */
    lemma SomeSlotIsFree(r: int, lo: int)
      requires Valid() && r !in win.table && lo <= r < lo + wslots
      requires forall p :: p in win.table ==> lo <= p < lo + wslots
      ensures exists i :: 0 <= i < wslots && !Used(i)
    {
      if forall i :: 0 <= i < wslots ==> Used(i) {
        var ps := SlotsAreDistinct(wslots);
        FitsInterval(ps + {r}, lo, lo + wslots);
        assert false;
      }
    }

    /** The finder array has no entry for a packet that is not there. */
    lemma NotFound(r: int)
      requires Valid() && r !in win.table && forall p :: p in win.table ==> -64 < p - r < 64
      ensures r_pw[r % 64] == -1
    {
      assert FinderOk(r % 64);
      var n := r_pw[r % 64];
      if n != -1 {
        SlotTells(n);
        NearAreDistinct(nums[n], r);
      }
    }

    /** Stores a packet in a free slot. `lo` is the low end of an interval of the window's
        size that holds every packet of the table and the new one. */
    method Store(rseq: int, data: seq<byte>, ghost r: int, ghost lo: int) returns (ok: bool)
      requires Valid() && 0 <= rseq < 64 && rseq == r % 64 && data != [] && NUL !in data && r !in win.table
      requires lo <= r < lo + wslots && forall p :: p in win.table ==> lo <= p < lo + wslots
      requires win.table == map[] ==> r > win.high
      modifies this`win, this`nums, ipktinfo, r_pw
      ensures Valid() && ok
      ensures win == old(win).(high := if r > old(win).high then r else old(win).high, table := old(win).table[r := data])
    {
      hide Holding, Crc, Valid;
      ShapeHolds();
      SomeSlotIsFree(r, lo);
      NotFound(r);
      var rslot := GetRslot();
      if rslot < 0 || rslot >= wslots {
        assert false;
      }
      FillSlot(rslot, rseq, data, r);
      ok := true;
    }

    /** Fills a free slot with a packet. */
    method FillSlot(rslot: nat, rseq: int, data: seq<byte>, ghost r: int)
      requires Valid() && 0 <= rslot < wslots && !Used(rslot) && 0 <= rseq < 64 && r_pw[rseq] == -1
      requires rseq == r % 64 && data != [] && NUL !in data && r !in win.table
      requires forall p :: p in win.table ==> p - r < wslots && r - p < wslots
      requires win.table == map[] ==> r > win.high
      modifies this`win, this`nums, ipktinfo, r_pw
      ensures Valid()
      ensures win == old(win).(high := if r > old(win).high then r else old(win).high, table := old(win).table[r := data])
    {
      hide Holding, Crc;
      HoldingIs(r, data);
      ipktinfo[rslot] := Slot(|data|, rseq, true, Crc(data), data);
      r_pw[rseq] := rslot;
      nums := nums[rslot := r];
      win := win.(high := if r > win.high then r else win.high, table := win.table[r := data]);
      forall p | p in win.table
        ensures Found(p)
      {
        if p != r {
          assert old(Found(p));
          NearAreDistinct(p, r);
        }
      }
      forall i | 0 <= i < wslots
        ensures SlotOk(i)
      {
        assert old(SlotOk(i));
        if i != rslot && Used(i) {
          NearAreDistinct(nums[i], r);
        }
      }
      forall s | 0 <= s < 64
        ensures FinderOk(s)
      {
        assert old(FinderOk(s));
      }
    }

    // ---------------------------------------------------------------- a good data packet

    /** Packet number `r` is one the window can place: the first, or within one window of
        the latest on either side. */
    ghost predicate Near(r: int)
      reads this`win
    {
      if win.table == map[] then r > win.high else win.high - wslots < r <= win.high + wslots
    }

    /** Acknowledges the packet and asks for every packet between the latest and it. */
    method AckAndNak(rseq: int, gap: bool, high: int, ghost r: int)
      requires Valid() && 0 <= rseq < 64 && rseq == r % 64
      requires gap ==> win.table != map[] && win.high + 1 < r <= win.high + wslots && high == win.high % 64
      requires !gap ==> win.table == map[] || r <= win.high + 1
      modifies this`replies
      ensures replies == old(replies) + OnWire([Ack(r)] + if gap then Skipped(win.high, r) else [])
      ensures Valid()
    {
      hide Valid;
      ShapeHolds();
      ghost var before := replies;
      replies := replies + [Ack(rseq)];
      assert OnWire([Ack(r)]) == [Ack(rseq)];
      if gap {
        var nnak := rseq - high - 1;
        if nnak < 0 {
          nnak := nnak + 64;
        }
        DifferenceOfMods(r, win.high);
        assert nnak == r - win.high - 1;
        var i := 0;
        while i < nnak
          invariant 0 <= i <= nnak && replies == before + OnWire([Ack(r)] + Skipped(win.high, r)[..i])
          invariant Valid()
        {
          ModMultiple(high + 1 + i, win.high / 64);
          var iseq := (high + 1 + i) % 64;
          assert high + 1 + i + 64 * (win.high / 64) == win.high + 1 + i;
          OnWireAppend([Ack(r)] + Skipped(win.high, r)[..i], Nak(win.high + 1 + i));
          assert [Ack(r)] + Skipped(win.high, r)[..i + 1] == [Ack(r)] + Skipped(win.high, r)[..i] + [Nak(win.high + 1 + i)];
          replies := replies + [Nak(iseq)];
          i := i + 1;
        }
        assert Skipped(win.high, r)[..nnak] == Skipped(win.high, r);
      }
    }

    /** A packet later than all others: makes room and stores it. */
    method AcceptNew(rseq: int, data: seq<byte>, gap: bool, high: int, ghost r: int) returns (ok: bool)
      requires Valid() && 0 <= rseq < 64 && rseq == r % 64 && data != [] && NUL !in data
      requires Near(r) && r > win.high
      requires gap <==> win.table != map[] && r > win.high + 1
      requires win.table != map[] ==> high == win.high % 64
      modifies this, ipktinfo, r_pw
      ensures Valid() && ok && win == Arrive(old(win), r, data) && replies == old(replies) + OnWire(Replies(old(win), r))
    {
      hide Valid, Range, From;
      ShapeHolds();
      ghost var w := win;
      if !gap && w.table != map[] {
        assert Skipped(w.high, r) == [];
      }
      AckAndNak(rseq, gap, high, r);
      ok := Align(rseq, r);
      if !ok {
        return false;
      }
      ShapeHolds();
      FromKeeps(w.table, r - wslots + 1);
      ok := Store(rseq, data, r, r - wslots + 1);
    }

    /** A packet of the current window: stores it if it was missing. */
    method AcceptOld(rseq: int, data: seq<byte>, ghost r: int) returns (ok: bool)
      requires Valid() && 0 <= rseq < 64 && rseq == r % 64 && data != [] && NUL !in data
      requires win.table != map[] && win.high - wslots < r <= win.high
      modifies this, ipktinfo, r_pw
      ensures Valid() && ok && win == Arrive(old(win), r, data) && replies == old(replies) + OnWire(Replies(old(win), r))
    {
      hide Valid;
      ShapeHolds();
      ok := true;
      AckAndNak(rseq, false, 0, r);
      ShapeHolds();
      if r in win.table {
        SlotOf(r);
      } else {
        NotFound(r);
      }
      var rslot := r_pw[rseq];
      if rslot < 0 || rslot >= wslots {
        ok := Store(rseq, data, r, win.high - wslots + 1);
      }
    }

    /** A data packet with a good block check has arrived. Its number must not be one that the
        search takes for an old packet by mistake. */
    method HandleGoodRpkt(rseq: int, data: seq<byte>) returns (ok: bool)
      requires Valid() && 0 <= rseq < 64 && data != [] && NUL !in data
      requires win.table == map[] || Classify(wslots, win.high, rseq) != Stray || !Wraps(wslots, win.high)
      modifies this, ipktinfo, r_pw
      ensures Valid() && ok
      ensures var w := old(win);
        if w.table != map[] && Classify(wslots, w.high, rseq) == Stray then win == w && replies == old(replies)
        else
          var r := Placed(w, rseq);
          win == Arrive(w, r, data) && replies == old(replies) + OnWire(Replies(w, r))
    {
      hide Valid, Arrive, Replies, SearchResult, Placed, Classify;
      ShapeHolds();
      ghost var r := Placed(win, rseq);
      if win.table == map[] || Classify(wslots, win.high, rseq) != Stray {
        PlacedIsNear(win, rseq);
      }
      var nused := NUsed();
      var c, high := Next, 0;
      if nused != 0 {
        high := LatestRseq();
        c := Search(high, rseq);
        SearchAt(wslots, win.high, rseq);
        if Near(r) {
          ClassOfNear(wslots, win.high, r);
        }
      }
      ok := true;
      if c == Next || c == Gap {
        ok := AcceptNew(rseq, data, c == Gap, high, r);
      } else if c == Old {
        ok := AcceptOld(rseq, data, r);
      }
    }

    /** End of file: hands every packet that waits to the decoder, earliest first. */
    method FlushToFile() returns (ok: bool)
      requires Valid()
      modifies this`delivered, this`win, ipktinfo, r_pw
      ensures Valid() && ok && win == FlushAll(old(win))
    {
      hide Valid, Range;
      ghost var w := win;
      ShapeHolds();
      while true
        invariant Valid() && win.high == w.high && win.size == w.size && FlushAll(win) == FlushAll(w)
        decreases |win.table|
      {
        ShapeHolds();
        var iseq;
        ghost var m;
        iseq, m := EarliestRseq();
        if iseq < 0 {
          FlushOfNone(win);
          return true;
        }
        SlotOf(m);
        var rslot := r_pw[iseq];
        if rslot < 0 || rslot >= wslots {
          return false;
        }
        FlushOne(win, m);
        ok := DecodeAndFree(rslot, m);
        if !ok {
          return false;
        }
      }
    }
  }
}
