/**
 Negotiation: each side tells the other what it can do, in the data fields of the S packet and
 of its acknowledgement, and takes over what it is told. Afterwards the two agree.
 */
module KermitNegotiation {
  import opened Bytes
  import opened KermitBytes
  import opened ReceiveWindow
  import opened SequenceNumbers

  /** The negotiated part of one side's state. `lp`, `sw`, `at`, `rs`, `ls` are its capabilities:
      long packets, sliding windows, attributes, recovery, locking shifts. */
  datatype Params = Params(sMaxlen: int, rMaxlen: int, bct: int, bcta3: bool, rptq: byte, rptflg: bool,
                           lp: bool, sw: bool, at: bool, rs: bool, ls: bool,
                           wslots: int, wslotsMax: int, retry: int, rTimo: int, sTimo: int,
                           sEom: byte, rEom: byte, sCtlq: byte, rCtlq: byte, ebq: byte, ebqflg: bool, parity: int)

  function Flag(b: bool, n: nat): nat { if b then n else 0 }

  function Capas(p: Params): nat {
    Flag(p.lp, 2) + Flag(p.sw, 4) + Flag(p.at, 8) + Flag(p.rs, 16) + Flag(p.ls, 32)
  }

  /** Bit `n` of the capabilities in byte `b`. */
  predicate Offers(b: byte, n: nat)
    requires n > 0
  {
    (UnChar(b) / n) % 2 == 1
  }

  const CHAR_Y: byte := 'Y' as int
  const CHAR_AMP: byte := '&' as int
  const ZERO: byte := '0' as int

  // ------------------------------------------------------------------ what one side says

  /** The 8th-bit prefix a side asks for or agrees to. */
  function EbqOf(p: Params): byte { if p.ebq == CHAR_Y && p.parity != 0 then CHAR_AMP else p.ebq }

  /** The data field of an S packet or of its acknowledgement. */
  function Rpar(p: Params): (d: seq<byte>)
    ensures |d| == 13
  {
    [ToChar(94), ToChar(p.sTimo), ToChar(0), Ctl(NUL), ToChar(p.rEom), p.sCtlq, EbqOf(p),
     (if p.bcta3 then ZERO + 3 else (p.bct + ZERO) % 256), p.rptq, ToChar(Capas(p)), ToChar(p.wslots),
     ToChar(p.rMaxlen / 95), ToChar(p.rMaxlen % 95)]
  }

  /** Sending the field settles the 8th-bit prefix, and type 3 checks when they are forced. */
  function AfterRpar(p: Params): Params { p.(ebq := EbqOf(p), bct := if p.bcta3 then 3 else p.bct) }

  // ------------------------------------------------------------------ what the other side makes of it

  /** Field `i`, counted from 1, of a data field in memory `m`. */
  function Field(m: seq<byte>, i: nat): byte
    requires 1 <= i <= |m|
  {
    m[i - 1]
  }

  /** Number of the last capability field. */
  function LastCapas(m: seq<byte>, len: nat, y: nat): (r: nat)
    requires 1 <= y && len + 3 <= |m| && y <= len + 1
    ensures y <= r <= len + 1
    decreases len + 1 - y
  {
    if UnChar(Field(m, y)) % 2 == 1 && len >= y then LastCapas(m, len, y + 1) else y
  }

  /** Packet length, timeout, terminator and control prefix. */
  function Basic(p: Params, m: seq<byte>, len: nat): Params
    requires len + 3 <= |m|
  {
    p.(sMaxlen := if len >= 1 then UnChar(Field(m, 1)) else p.sMaxlen,
       rTimo := if len >= 2 then UnChar(Field(m, 2)) else p.rTimo,
       sEom := if len >= 5 then UnChar(Field(m, 5)) else p.sEom,
       rCtlq := if len >= 6 then Field(m, 6) else p.rCtlq)
  }

  /** The 8th-bit prefix: asked for, or agreed to when there is parity. */
  function EighthBit(p: Params, m: seq<byte>, len: nat): Params
    requires len + 3 <= |m|
  {
    if len < 7 then p
    else
      var b := Field(m, 7);
      if IsPrefix(b) then p.(ebq := b, parity := if p.parity == 0 then 1 else p.parity, ebqflg := true)
      else if b == CHAR_Y && p.parity != 0 then p.(ebq := CHAR_AMP, ebqflg := true)
      else p.(ebq := b)
  }

  /** The block check a field asks for. */
  function CheckAsked(p: Params, b: byte): int {
    if p.bcta3 then 3 else if 1 <= b - ZERO <= 3 then b - ZERO else 1
  }

  function Checked(p: Params, m: seq<byte>, len: nat): Params
    requires len + 3 <= |m|
  {
    var a := if len >= 8 then p.(bct := CheckAsked(p, Field(m, 8))) else p;
    if len >= 9 && Acceptable(Field(m, 9)) then a.(rptq := Field(m, 9), rptflg := true) else a
  }

  /** Capabilities that the other side lacks are given up; recovery and locking shifts always. */
  function Capable(p: Params, m: seq<byte>, len: nat): Params
    requires len + 3 <= |m|
  {
    if len < 10 then p
    else
      var x := Field(m, 10);
      p.(lp := p.lp && Offers(x, 2), sw := p.sw && Offers(x, 4), at := p.at && Offers(x, 8), rs := false, ls := false)
  }

  /** The long packet length, at most `P_PKTLEN`; nonsense counts as 60. */
  function LongLength(x: int): int { if x > P_PKTLEN then P_PKTLEN else if x < 10 then 60 else x }

  /** The window: no more than this side has slots, one at least. */
  function WindowOf(x: int, most: int): int {
    var w := if x > most then most else x;
    if w < 1 then 1 else w
  }

  function Sized(p: Params, m: seq<byte>, len: nat, y: nat): Params
    requires len + 3 <= |m| && y <= len + 1
  {
    var a :=
      if p.lp && len > y + 1 then p.(sMaxlen := LongLength(UnChar(Field(m, y + 2)) * 95 + UnChar(Field(m, y + 3)))) else p;
    if !a.sw then a.(wslots := 1)
    else if len > y then
      var w := WindowOf(UnChar(Field(m, y + 1)), a.wslotsMax);
      a.(wslots := w, retry := if w > 1 && w > a.retry then w + 1 else a.retry)
    else a
  }

  /** Takes over the parameters in a data field of `len` bytes; `m` is the memory it is in. */
  function Spar(p: Params, m: seq<byte>, len: nat): Params
    requires len + 3 <= |m|
  {
    Sized(Capable(Checked(EighthBit(Basic(p, m, len), m, len), m, len), m, len), m, len, if len >= 10 then LastCapas(m, len, 10) else 0)
  }

  // ------------------------------------------------------------------ agreement

  /** A side as it starts: sizes in range, an acceptable repeat prefix, long packets offered, no
      parity. */
  ghost predicate Fresh(p: Params) {
    && 10 <= p.rMaxlen <= P_PKTLEN && p.lp && Acceptable(p.rptq)
    && 1 <= p.wslots <= MAX_WINDOW && p.wslots == p.wslotsMax
    && 1 <= p.bct <= 3 && p.parity == 0 && p.ebq == CHAR_Y && !p.ebqflg
    && 0 <= p.sTimo <= 94
  }

  /** Reading back a full field: which bytes say what. */
  lemma RparIsRead(p: Params, stale: seq<byte>)
    requires 10 <= p.rMaxlen <= P_PKTLEN && 1 <= p.wslots <= MAX_WINDOW && 0 <= p.bct <= 3 && |stale| >= 3
    ensures var m := Rpar(p) + stale;
      && UnChar(Field(m, 12)) * 95 + UnChar(Field(m, 13)) == p.rMaxlen && UnChar(Field(m, 11)) == p.wslots
      && (Offers(Field(m, 10), 2) <==> p.lp) && (Offers(Field(m, 10), 4) <==> p.sw) && (Offers(Field(m, 10), 8) <==> p.at)
      && UnChar(Field(m, 10)) % 2 == 0
      && Field(m, 9) == p.rptq && Field(m, 8) - ZERO == (if p.bcta3 then 3 else p.bct) && Field(m, 7) == EbqOf(p)
  {
    CapasBits(p);
    var m := Rpar(p) + stale;
    assert forall i :: 1 <= i <= 13 ==> Field(m, i) == Rpar(p)[i - 1];
    UnToChar(Capas(p));
    UnToChar(p.wslots);
    UnToChar(p.rMaxlen / 95);
    UnToChar(p.rMaxlen % 95);
  }

  lemma CapasBits(p: Params)
    ensures 0 <= Capas(p) < 64 && Capas(p) % 2 == 0
    ensures ((Capas(p) / 2) % 2 == 1 <==> p.lp) && ((Capas(p) / 4) % 2 == 1 <==> p.sw) && ((Capas(p) / 8) % 2 == 1 <==> p.at)
  {
  }

  /** What one side is after taking over a field of the other. */
  lemma SparOfRpar(p: Params, q: Params, stale: seq<byte>)
    requires 10 <= q.rMaxlen <= P_PKTLEN && 1 <= q.wslots <= MAX_WINDOW && 1 <= q.bct <= 3 && Acceptable(q.rptq)
    requires p.parity == q.parity == 0 && q.ebq == CHAR_Y && |stale| >= 3
    ensures var r := Spar(p, Rpar(q) + stale, 13);
      && r.lp == (p.lp && q.lp) && r.sw == (p.sw && q.sw) && r.at == (p.at && q.at) && !r.rs && !r.ls
      && r.bct == (if p.bcta3 || q.bcta3 then 3 else q.bct) && r.rptq == q.rptq && r.rptflg
      && (r.lp ==> r.sMaxlen == q.rMaxlen)
      && r.wslots == (if r.sw then WindowOf(q.wslots, p.wslotsMax) else 1)
      && r.parity == 0 && r.ebq == CHAR_Y && r.ebqflg == p.ebqflg
      && r.bcta3 == p.bcta3 && r.rMaxlen == p.rMaxlen && r.wslotsMax == p.wslotsMax
  {
    hide Rpar, Offers, UnChar;
    RparIsRead(q, stale);
    var m := Rpar(q) + stale;
    assert LastCapas(m, 13, 10) == 10;
  }

  /** What negotiation leaves on the two sides: the sender's S packet, the receiver's
      acknowledgement. */
  function Negotiated(snd: Params, rcv: Params, staleR: seq<byte>, staleS: seq<byte>): (Params, Params)
    requires |staleR| >= 3 && |staleS| >= 3
  {
    var r := Spar(rcv, Rpar(snd) + staleR, 13);
    (Spar(AfterRpar(snd), Rpar(r) + staleS, 13), AfterRpar(r))
  }

  /** Negotiation agreement: for all settings of the two sides they end with the same window,
      block check, repeat prefix and capabilities, which are what both offer, and each sends
      packets as long as the other can receive. */
  lemma NegotiationAgrees(snd: Params, rcv: Params, staleR: seq<byte>, staleS: seq<byte>)
    requires Fresh(snd) && Fresh(rcv) && |staleR| >= 3 && |staleS| >= 3
    ensures var (s, r) := Negotiated(snd, rcv, staleR, staleS);
      && s.wslots == r.wslots && 1 <= s.wslots <= MAX_WINDOW
      && s.wslots == (if snd.sw && rcv.sw then (if snd.wslots < rcv.wslots then snd.wslots else rcv.wslots) else 1)
      && s.bct == r.bct && 1 <= s.bct <= 3 && s.bct == (if snd.bcta3 || rcv.bcta3 then 3 else snd.bct)
      && s.rptflg && r.rptflg && s.rptq == r.rptq == snd.rptq
      && Capas(s) == Capas(r) && s.sw == (snd.sw && rcv.sw) && s.at == (snd.at && rcv.at) && s.lp
      && s.sMaxlen == r.rMaxlen == rcv.rMaxlen && r.sMaxlen == s.rMaxlen == snd.rMaxlen
      && !s.ebqflg && !r.ebqflg && s.parity == r.parity == 0
  {
    hide Spar, Rpar;
    SparOfRpar(rcv, snd, staleR);
    var r := Spar(rcv, Rpar(snd) + staleR, 13);
    SparOfRpar(AfterRpar(snd), r, staleS);
  }

  /** The field travels in one packet as it is: no byte of it is a terminator or delimiter. */
  lemma FieldIsClean(p: Params)
    requires Fresh(p) && p.rEom == PACKET_END && p.sCtlq == PREFIX_CTRL
    ensures Clean(Rpar(p))
  {
    CapasBits(p);
    forall i | 0 <= i < 13
      ensures Rpar(p)[i] >= 32
    {
    }
  }

  /** The field byte by byte: packet length 94, time-out, no padding, packet end, control prefix, 8th-bit
      prefix, block check as a digit, repeat prefix, capabilities (2 for long packets, 4 for sliding
      windows, 8 for attributes), window, packet length in two digits of base 95. */
  lemma FieldForm(p: Params)
    requires 0 <= p.sTimo <= 94 && 1 <= p.bct <= 3 && 0 <= p.wslots <= 94 && 0 <= p.rMaxlen <= 9024 && p.parity == 0
    ensures Rpar(p) ==
      [126, p.sTimo + 32, 32, 64, (p.rEom + 32) % 256, p.sCtlq, p.ebq, if p.bcta3 then 51 else 48 + p.bct, p.rptq,
       32 + (if p.lp then 2 else 0) + (if p.sw then 4 else 0) + (if p.at then 8 else 0) + (if p.rs then 16 else 0) + (if p.ls then 32 else 0),
       32 + p.wslots, 32 + p.rMaxlen / 95, 32 + p.rMaxlen % 95]
  {
    CapasBits(p);
    assert Ctl(NUL) == 64;
    hide Ctl;
  }

  lemma RestIsRead(q: Params, stale: seq<byte>)
    requires 0 <= q.sTimo <= 94
    ensures var m := Rpar(q) + stale; UnChar(m[1]) == q.sTimo && UnChar(m[4]) == q.rEom && m[5] == q.sCtlq
  {
    hide ToChar, UnChar, Capas, Ctl, EbqOf;
    UnToChar(q.sTimo);
    UnToCharWraps(q.rEom);
    var m := Rpar(q) + stale;
    assert m[1] == ToChar(q.sTimo) && m[4] == ToChar(q.rEom);
  }

  lemma UnToCharWraps(b: byte)
    ensures UnChar(ToChar(b)) == b
  {
  }

  /** The rest of what is taken over: how long to wait, how to end packets, which control prefix to
      expect, and a retry limit above the window. */
  lemma RestIsTaken(p: Params, q: Params, stale: seq<byte>)
    requires 10 <= q.rMaxlen <= P_PKTLEN && 1 <= q.wslots <= MAX_WINDOW && 1 <= q.bct <= 3 && Acceptable(q.rptq)
    requires p.parity == q.parity == 0 && q.ebq == CHAR_Y && |stale| >= 3 && 0 <= q.sTimo <= 94
    ensures var r := Spar(p, Rpar(q) + stale, 13);
      && r.rTimo == q.sTimo && r.sEom == q.rEom && r.rCtlq == q.sCtlq
      && r.sTimo == p.sTimo && r.rEom == p.rEom && r.sCtlq == p.sCtlq
      && r.retry == if r.wslots > 1 && r.wslots > p.retry then r.wslots + 1 else p.retry
  {
    hide Rpar, Offers, UnChar;
    RparIsRead(q, stale);
    RestIsRead(q, stale);
    var m := Rpar(q) + stale;
    assert LastCapas(m, 13, 10) == 10;
  }

  /** An empty field settles nothing; only a window is given up when sliding windows are not on. */
  lemma EmptyFieldKeeps(p: Params, m: seq<byte>)
    requires |m| >= 3
    ensures Spar(p, m, 0) == if p.sw then p else p.(wslots := 1)
  {
  }

  lemma PrefixNamed(p: Params, m: seq<byte>, len: nat)
    requires len >= 7 && len + 3 <= |m| && (33 <= m[6] <= 62 || 96 <= m[6] <= 126)
    ensures var r := EighthBit(p, m, len); r.ebq == m[6] && r.ebqflg && r.parity == if p.parity == 0 then 1 else p.parity
  {
  }

  lemma PrefixAgreed(p: Params, m: seq<byte>, len: nat)
    requires len >= 7 && len + 3 <= |m| && m[6] == 'Y' as int && p.parity != 0
    ensures var r := EighthBit(p, m, len); r.ebq == '&' as int && r.ebqflg && r.parity == p.parity
  {
  }

  lemma PrefixDeclined(p: Params, m: seq<byte>, len: nat)
    requires len >= 7 && len + 3 <= |m| && (m[6] == 'N' as int || (m[6] == 'Y' as int && p.parity == 0))
    ensures var r := EighthBit(p, m, len); r.ebq == m[6] && r.ebqflg == p.ebqflg && r.parity == p.parity
  {
  }

  /** The 8th-bit prefix: a prefix the other side names is taken and turns prefixing on; "Y" with parity
      settles on "&"; anything else turns nothing on. */
  lemma EighthBitIs(p: Params, m: seq<byte>, len: nat)
    requires len >= 7 && len + 3 <= |m|
    ensures var r, b := EighthBit(p, m, len), m[6];
      && (33 <= b <= 62 || 96 <= b <= 126 ==> r.ebq == b && r.ebqflg && r.parity == if p.parity == 0 then 1 else p.parity)
      && (b == 'Y' as int && p.parity != 0 ==> r.ebq == '&' as int && r.ebqflg && r.parity == p.parity)
      && (b == 'N' as int || (b == 'Y' as int && p.parity == 0) ==> r.ebq == b && r.ebqflg == p.ebqflg && r.parity == p.parity)
  {
    hide EighthBit;
    var b := m[6];
    if 33 <= b <= 62 || 96 <= b <= 126 {
      PrefixNamed(p, m, len);
    } else if b == 'Y' as int && p.parity != 0 {
      PrefixAgreed(p, m, len);
    } else if b == 'N' as int || b == 'Y' as int {
      PrefixDeclined(p, m, len);
    }
  }

  /** Each capability field with its lowest bit set is followed by another; the sizes come after the
      last. */
  lemma {:induction false} CapasGoOn(m: seq<byte>, len: nat, y: nat, last: nat)
    requires len + 3 <= |m| && 1 <= y <= last <= len
    requires (forall i :: y <= i < last ==> UnChar(Field(m, i)) % 2 == 1) && UnChar(Field(m, last)) % 2 == 0
    ensures LastCapas(m, len, y) == last
    decreases last - y
  {
    hide UnChar, Field;
    if y < last {
      CapasGoOn(m, len, y + 1, last);
    }
  }

  /** Nonsense is corrected: a block check that is no digit from 1 to 3 counts as 1, a long packet length
      below 10 as 60 and above 1000 as 1000, a window of none as one; a repeat prefix out of range
      is not taken. */
  lemma NonsenseIsCorrected(p: Params, b: byte, x: int)
    ensures CheckAsked(p, b) == if p.bcta3 then 3 else if b == 50 then 2 else if b == 51 then 3 else 1
    ensures LongLength(x) == if x < 10 then 60 else if x > 1000 then 1000 else x
    ensures p.wslotsMax >= 1 ==> 1 <= WindowOf(x, p.wslotsMax) <= p.wslotsMax && (1 <= x <= p.wslotsMax ==> WindowOf(x, p.wslotsMax) == x)
    ensures Acceptable(b) <==> 33 <= b <= 62 || 96 <= b <= 126 || b == 204
  {
  }

  // ------------------------------------------------------------------ the engine

  class Engine {
    var p: Params
    const ackS: array<byte>

    constructor (p0: Params)
      ensures p == p0 && ackS.Length >= 14 && fresh(ackS)
    {
      p := p0;
      ackS := new byte[64](i => 0);
    }

    method SetBasics(m: seq<byte>, datalen: nat)
      requires datalen + 3 <= |m|
      modifies this`p
      ensures p == Basic(old(p), m, datalen)
    {
      hide UnChar;
      var sMaxlen, rTimo, sEom, rCtlq := p.sMaxlen, p.rTimo, p.sEom, p.rCtlq;
      if datalen >= 1 {
        sMaxlen := UnChar(Field(m, 1));
      }
      if datalen >= 2 {
        rTimo := UnChar(Field(m, 2));
      }
      if datalen >= 5 {
        sEom := UnChar(Field(m, 5));
      }
      if datalen >= 6 {
        rCtlq := Field(m, 6);
      }
      p := p.(sMaxlen := sMaxlen, rTimo := rTimo, sEom := sEom, rCtlq := rCtlq);
    }

    method SetEighthBit(m: seq<byte>, datalen: nat)
      requires datalen + 3 <= |m|
      modifies this`p
      ensures p == EighthBit(old(p), m, datalen)
    {
      hide IsPrefix;
      if datalen >= 7 {
        var ebq, parity, ebqflg := Field(m, 7), p.parity, p.ebqflg;
        if IsPrefix(ebq) {
          if parity == 0 {
            parity := 1;
          }
          ebqflg := true;
        } else if ebq == CHAR_Y && parity != 0 {
          ebqflg, ebq := true, CHAR_AMP;
        }
        p := p.(ebq := ebq, parity := parity, ebqflg := ebqflg);
      }
    }

    method SetCheckAndRepeat(m: seq<byte>, datalen: nat)
      requires datalen + 3 <= |m|
      modifies this`p
      ensures p == Checked(old(p), m, datalen)
    {
      hide IsPrefix;
      if datalen >= 8 {
        var bct := Field(m, 8) - ZERO;
        if bct < 1 || bct > 3 {
          bct := 1;
        }
        if p.bcta3 {
          bct := 3;
        }
        p := p.(bct := bct);
      }
      if datalen >= 9 {
        if Acceptable(Field(m, 9)) {
          p := p.(rptq := Field(m, 9), rptflg := true);
        }
      }
    }

    /** Returns the number of the last capability field, 0 without any. */
    method SetCapas(m: seq<byte>, datalen: nat) returns (y: nat)
      requires datalen + 3 <= |m|
      modifies this`p
      ensures p == Capable(old(p), m, datalen) && y == (if datalen >= 10 then LastCapas(m, datalen, 10) else 0)
    {
      hide UnChar, Offers;
      y := 0;
      if datalen >= 10 {
        var x, lp, sw, at := Field(m, 10), p.lp, p.sw, p.at;
        if !Offers(x, 2) {
          lp := false;
        }
        if !Offers(x, 4) {
          sw := false;
        }
        if !Offers(x, 8) {
          at := false;
        }
        p := p.(lp := lp, sw := sw, at := at, rs := false, ls := false);
        y := FindLastCapas(m, datalen);
      }
    }

    method FindLastCapas(m: seq<byte>, datalen: nat) returns (y: nat)
      requires 10 <= datalen && datalen + 3 <= |m|
      ensures y == LastCapas(m, datalen, 10)
    {
      hide UnChar;
      y := 10;
      while UnChar(Field(m, y)) % 2 == 1 && datalen >= y
        invariant 10 <= y <= datalen + 1 && LastCapas(m, datalen, y) == LastCapas(m, datalen, 10)
      {
        y := y + 1;
      }
    }

    method SetSizes(m: seq<byte>, datalen: nat, y: nat)
      requires datalen + 3 <= |m| && y <= datalen + 1
      modifies this`p
      ensures p == Sized(old(p), m, datalen, y)
    {
      hide UnChar, LongLength, WindowOf;
      if p.lp && datalen > y + 1 {
        var n := ClampLength(UnChar(Field(m, y + 2)) * 95 + UnChar(Field(m, y + 3)));
        p := p.(sMaxlen := n);
      }
      if p.sw {
        if datalen > y {
          var w := ClampWindow(UnChar(Field(m, y + 1)), p.wslotsMax);
          p := p.(wslots := w, retry := if w > 1 && w > p.retry then w + 1 else p.retry);
        }
      } else {
        p := p.(wslots := 1);
      }
    }

    static method ClampLength(x: int) returns (sMaxlen: int)
      ensures sMaxlen == LongLength(x)
    {
      sMaxlen := if x > P_PKTLEN then P_PKTLEN else x;
      if sMaxlen < 10 {
        sMaxlen := 60;
      }
    }

    static method ClampWindow(x: int, most: int) returns (wslots: int)
      ensures wslots == WindowOf(x, most)
    {
      wslots := if x > most then most else x;
      if wslots < 1 {
        wslots := 1;
      }
    }

    /** Sets the parameters that the other side asks for. */
    method SetParameters(m: seq<byte>, datalen: nat)
      requires datalen + 3 <= |m|
      modifies this`p
      ensures p == Spar(old(p), m, datalen)
    {
      hide Basic, EighthBit, Checked, Capable, Sized;
      SetBasics(m, datalen);
      SetEighthBit(m, datalen);
      SetCheckAndRepeat(m, datalen);
      var y := SetCapas(m, datalen);
      SetSizes(m, datalen, y);
    }

    /** Writes the parameters of this side into the acknowledgement buffer. */
    method PutParameters() returns (len: nat)
      requires ackS.Length >= 14
      modifies this`p, ackS
      ensures len == 13 && ackS[..13] == Rpar(old(p)) && ackS[13] == NUL
      ensures p == AfterRpar(old(p))
    {
      PutFirstHalf();
      ghost var half := ackS[..7];
      PutSecondHalf();
      assert ackS[..7] == half && ackS[..13] == ackS[..7] + ackS[7..13];
      HalvesOfRpar(old(p));
      hide Rpar;
      len := 13;
      if p.bcta3 {
        p := p.(bct := 3);
      }
    }

    method PutFirstHalf()
      requires ackS.Length >= 14
      modifies this`p, ackS
      ensures ackS[..7] == [ToChar(94), ToChar(old(p).sTimo), ToChar(0), Ctl(NUL), ToChar(old(p).rEom), old(p).sCtlq, EbqOf(old(p))]
      ensures p == old(p).(ebq := EbqOf(old(p)))
    {
      hide ToChar, Ctl;
      ackS[0] := ToChar(94);
      ackS[1] := ToChar(p.sTimo);
      ackS[2] := ToChar(0);
      ackS[3] := Ctl(NUL);
      ackS[4] := ToChar(p.rEom);
      ackS[5] := p.sCtlq;
      var ebq := p.ebq;
      if ebq == CHAR_Y && p.parity != 0 {
        ebq := CHAR_AMP;
      }
      ackS[6] := ebq;
      p := p.(ebq := ebq);
    }

    method PutSecondHalf()
      requires ackS.Length >= 14
      modifies ackS
      ensures ackS[..7] == old(ackS[..7]) && ackS[7..13] == SecondHalf(p) && ackS[13] == NUL
    {
      hide ToChar, Capas;
      ackS[7] := if p.bcta3 then ZERO + 3 else (p.bct + ZERO) % 256;
      ackS[8] := p.rptq;
      ackS[9] := ToChar(Capas(p));
      ackS[10] := ToChar(p.wslots);
      ackS[11] := ToChar(p.rMaxlen / 95);
      ackS[12] := ToChar(p.rMaxlen % 95);
      ackS[13] := NUL;
    }
  }

  function SecondHalf(p: Params): seq<byte> {
    [(if p.bcta3 then ZERO + 3 else (p.bct + ZERO) % 256), p.rptq, ToChar(Capas(p)), ToChar(p.wslots),
     ToChar(p.rMaxlen / 95), ToChar(p.rMaxlen % 95)]
  }

  lemma HalvesOfRpar(p: Params)
    ensures Rpar(p) == [ToChar(94), ToChar(p.sTimo), ToChar(0), Ctl(NUL), ToChar(p.rEom), p.sCtlq, EbqOf(p)]
                       + SecondHalf(p.(ebq := EbqOf(p)))
  {
  }
}
