/** What is built, sent through the line reader and parsed comes back unchanged. */
module KermitRoundTrip {
  import opened Bytes
  import opened KermitBytes
  import opened KermitCheck
  import opened KermitFrame
  import opened KermitParse

  // ------------------------------------------------------------------ bits of the check field

  function Pow2(n: nat): nat { if n == 0 then 1 else 2 * Pow2(n - 1) }

  lemma {:induction false} OrDisjoint(q: nat, y: nat, n: nat)
    requires y < Pow2(n)
    ensures Or(q * Pow2(n), y) == q * Pow2(n) + y
    decreases n
  {
    if n > 0 {
      var z := q * Pow2(n - 1);
      Doubles(q, n);
      OrDisjoint(q, y / 2, n - 1);
      OrOfEven(z, y);
    }
  }

  lemma Doubles(q: nat, n: nat)
    requires n > 0
    ensures q * Pow2(n) == 2 * (q * Pow2(n - 1))
  {
    var p := Pow2(n - 1);
    assert Pow2(n) == 2 * p;
    assert q * (2 * p) == 2 * (q * p);
  }

  lemma OrOfEven(z: nat, y: nat)
    requires Or(z, y / 2) == z + y / 2
    ensures Or(2 * z, y) == 2 * z + y
  {
    assert (2 * z) / 2 == z && (2 * z) % 2 == 0;
  }

  lemma OrOfFields(a: nat, b: nat, c: nat)
    requires b < 64 && c < 64
    ensures Or(b * 64, c) == b * 64 + c
    ensures Or(Or(a * 4096, b * 64), c) == a * 4096 + b * 64 + c
  {
    assert Pow2(6) == 64 && Pow2(12) == 4096;
    OrDisjoint(b, c, 6);
    OrDisjoint(a, b * 64, 12);
    assert a * 4096 + b * 64 == (a * 64 + b) * 64;
    OrDisjoint(a * 64 + b, c, 6);
  }

  lemma SixteenBits(j: nat)
    requires j < 0x10000
    ensures ((j / 4096) % 16) * 4096 + ((j / 64) % 64) * 64 + j % 64 == j
    ensures ((j / 64) % 64) * 64 + j % 64 == j % 4096
  {
  }

  /** A block check of type 1 or 3 is always recognised; one of type 2 exactly when the sum
      of the bytes fits the twelve bits that travel, since the receiver compares all sixteen. */
  lemma CheckIsRecognised(bct: nat, s: seq<byte>)
    requires 1 <= bct <= 3
    ensures bct != 2 ==> CheckOk(CheckBytes(bct, s), s)
    ensures bct == 2 ==> (CheckOk(CheckBytes(bct, s), s) <==> Sum(s) < 4096)
  {
    hide Sum, Crc, CrcValue, Sum6, Or, ToChar, UnChar;
    if bct == 1 {
      UnToChar(Sum6(s));
    } else {
      var j := if bct == 2 then Sum(s) else CrcValue(s);
      SixteenBits(j);
      OrOfFields((j / 4096) % 16, (j / 64) % 64, j % 64);
      UnToChar((j / 4096) % 16);
      UnToChar((j / 64) % 64);
      UnToChar(j % 64);
    }
  }

  // ------------------------------------------------------------------ headers

  /** A packet the builder may be asked for: a type that is no delimiter, a sequence number,
      clean data that fits the packet buffer. */
  ghost predicate Sendable(typ: byte, sq: nat, data: seq<byte>, bct: nat) {
    1 <= bct <= 3 && !Reserved(typ) && sq < 64 && Clean(data) && |data| + bct + 1 < P_BUFLEN
  }

  lemma ToCharIsClean(n: nat)
    requires n <= 94
    ensures !Reserved(ToChar(n))
  {
  }

  lemma HeaderIsClean(typ: byte, sq: nat, len: nat, bct: nat)
    requires !Reserved(typ) && sq < 64 && 1 <= bct <= 3 && len + bct + 1 < P_BUFLEN
    ensures Clean(Header(typ, sq, len, bct))
  {
    hide Sum6, Reserved, ToChar;
    var j := len + bct;
    ToCharIsClean(0);
    ToCharIsClean(sq);
    if IsLong(len, bct) {
      ToCharIsClean(j / 95);
      ToCharIsClean(j % 95);
      ToCharIsClean(Sum6(CString([ToChar(0), ToChar(sq), typ, ToChar(j / 95), ToChar(j % 95)])));
    } else {
      ToCharIsClean(j + 2);
    }
  }

  lemma CheckIsClean(bct: nat, s: seq<byte>)
    requires 1 <= bct <= 3
    ensures Clean(CheckBytes(bct, s))
  {
    hide Sum, CrcValue, Sum6, Reserved, ToChar;
    var j := if bct == 2 then Sum(s) else CrcValue(s);
    ToCharIsClean(Sum6(s));
    ToCharIsClean((j / 4096) % 16);
    ToCharIsClean((j / 64) % 64);
    ToCharIsClean(j % 64);
  }

  lemma CleanAppend(s: seq<byte>, t: seq<byte>)
    requires Clean(s) && Clean(t)
    ensures Clean(s + t) && Undelimited(s + t) && NUL !in s + t
  {
  }

  lemma BodyIsClean(typ: byte, sq: nat, data: seq<byte>, bct: nat)
    requires Sendable(typ, sq, data, bct)
    ensures Clean(Body(typ, sq, data, bct)) && CString(Body(typ, sq, data, bct)) == Body(typ, sq, data, bct)
  {
    hide Header, CString;
    var b := Body(typ, sq, data, bct);
    HeaderIsClean(typ, sq, |data|, bct);
    CleanAppend(Header(typ, sq, |data|, bct), data);
    CStringOfTerminated(b, []);
    CStringTerminated(b, []);
  }

  lemma ContentIsUndelimited(typ: byte, sq: nat, data: seq<byte>, bct: nat)
    requires Sendable(typ, sq, data, bct)
    ensures Undelimited(Content(typ, sq, data, bct)) && Clean(Content(typ, sq, data, bct))
  {
    hide Body, CheckBytes, CString;
    BodyIsClean(typ, sq, data, bct);
    CheckIsClean(bct, Body(typ, sq, data, bct));
    CleanAppend(Body(typ, sq, data, bct), CheckBytes(bct, Body(typ, sq, data, bct)));
  }

  /** The first bytes of memory that holds a packet are its header, and the parser reads
      its lengths back. */
  lemma HeaderIsRead(k: Config, typ: byte, sq: nat, data: seq<byte>, bct: nat, m: seq<byte>)
    requires ValidConfig(k) && Sendable(typ, sq, data, bct) && |m| >= MEMORY
    requires Header(typ, sq, |data|, bct) <= m
    ensures HeaderOk(m) && m[2] == typ && UnChar(m[1]) == sq
    ensures DataStart(m) == |Header(typ, sq, |data|, bct)|
    ensures !IsFirst(k, m) && k.bct == bct ==> DataLength(k, m) == |data|
    ensures IsFirst(k, m) && !IsLong(|data|, bct) && bct == (if k.force3 then 3 else 1) ==> DataLength(k, m) == |data|
  {
    hide Sum6;
    var h := Header(typ, sq, |data|, bct);
    var j := |data| + bct;
    assert m[0] == h[0] && m[1] == h[1] && m[2] == h[2];
    UnToChar(sq);
    if IsLong(|data|, bct) {
      var five := [ToChar(0), ToChar(sq), typ, ToChar(j / 95), ToChar(j % 95)];
      assert m[..5] == five;
      assert m[3] == h[3] && m[4] == h[4] && m[5] == h[5];
      HeaderStringIsWhole(five, typ, sq, j);
      UnToChar(Sum6(five));
      UnToChar(j / 95);
      UnToChar(j % 95);
      UnToChar(0);
    } else {
      UnToChar(j + 2);
    }
  }

  lemma HeaderStringIsWhole(five: seq<byte>, typ: byte, sq: nat, j: nat)
    requires !Reserved(typ) && sq < 64 && j / 95 <= 94
    requires five == [ToChar(0), ToChar(sq), typ, ToChar(j / 95), ToChar(j % 95)]
    ensures CString(five) == five
  {
    assert NUL !in five;
    CStringOfTerminated(five, []);
    CStringTerminated(five, []);
  }

  // ------------------------------------------------------------------ round trip

  /** Both sides agree on the block check of this packet, and the parser is willing to look
      at its type. */
  ghost predicate Agreed(k: Config, typ: byte, data: seq<byte>, bct: nat) {
    && ValidConfig(k)
    && !(k.receiving && (typ == 'N' as int || typ == 'Y' as int))
    && if typ == 'S' as int || k.initial then bct == (if k.force3 then 3 else 1) && !IsLong(|data|, bct)
       else bct == k.bct
  }

  /** The parser goes by the length in the header: what memory holds behind a frame's content, and
      how much of it the reader has stored, is nothing to it. */
  lemma ParseOfPrefix(k: Config, typ: byte, sq: nat, data: seq<byte>, bct: nat, m: seq<byte>, n: nat)
    requires Sendable(typ, sq, data, bct) && Agreed(k, typ, data, bct)
    requires |m| >= MEMORY && Content(typ, sq, data, bct) <= m && n >= |Content(typ, sq, data, bct)|
    ensures var ok := CheckOk(CheckBytes(bct, Body(typ, sq, data, bct)), Body(typ, sq, data, bct));
      && (ok ==> Parse(k, m, n) == Good(typ, sq, data))
      && (!ok && typ != 'E' as int ==> Parse(k, m, n) == BadCheck)
  {
    hide Header, CheckBytes, CString, CheckOk, HeaderOk, DataStart, DataLength;
    var h, b, c := Header(typ, sq, |data|, bct), Body(typ, sq, data, bct), Content(typ, sq, data, bct);
    BodyIsClean(typ, sq, data, bct);
    assert h <= c;
    HeaderIsRead(k, typ, sq, data, bct, m);
    assert CheckLength(k, m) == bct && DataLength(k, m) == |data| && DataStart(m) == |h|;
    assert c[..|h| + |data|] == b && m[..|h| + |data|] == b && m[|h|..|h| + |data|] == data;
    assert m[|h| + |data|..|h| + |data| + bct] == c[|h| + |data|..] == CheckBytes(bct, b);
  }

  lemma ParseOfContent(k: Config, typ: byte, sq: nat, data: seq<byte>, bct: nat, stale: seq<byte>)
    requires Sendable(typ, sq, data, bct) && Agreed(k, typ, data, bct)
    requires ContentSize(|data|, bct) + 1 + |stale| >= MEMORY
    ensures var c := Content(typ, sq, data, bct);
      var ok := CheckOk(CheckBytes(bct, Body(typ, sq, data, bct)), Body(typ, sq, data, bct));
      && (ok ==> Parse(k, c + [NUL] + stale, |c|) == Good(typ, sq, data))
      && (!ok && typ != 'E' as int ==> Parse(k, c + [NUL] + stale, |c|) == BadCheck)
  {
    hide Header, CheckBytes, CString, CheckOk, Parse;
    var c := Content(typ, sq, data, bct);
    ParseOfPrefix(k, typ, sq, data, bct, c + [NUL] + stale, |c|);
  }

  /** Frame round trip: noise that holds no packet start and does not begin with the abort
      command, then a frame of any type and sequence number with clean data and block check
      1 or 3, short or long, then anything: the reader stores the packet and the parser
      recovers type, sequence number and data, whatever the buffer held before. */
  lemma FrameRoundTrip(k: Config, typ: byte, sq: nat, data: seq<byte>, bct: nat,
                       noise: seq<byte>, later: seq<byte>, stale: seq<byte>, maxlen: nat)
    requires Sendable(typ, sq, data, bct) && Agreed(k, typ, data, bct) && bct != 2
    requires PACKET_START !in noise && !(CMD <= noise)
    requires ContentSize(|data|, bct) <= maxlen + 1
    requires ContentSize(|data|, bct) + 1 + |stale| >= MEMORY
    ensures Scan(noise + Frame(typ, sq, data, bct) + later, 0, false, [], maxlen) == Packet(Content(typ, sq, data, bct))
    ensures Parse(k, Content(typ, sq, data, bct) + [NUL] + stale, |Content(typ, sq, data, bct)|) == Good(typ, sq, data)
  {
    hide Scan, Header, CheckBytes, CString, CheckOk, Parse;
    ContentIsUndelimited(typ, sq, data, bct);
    ReaderFindsFrame(noise, Content(typ, sq, data, bct), later, maxlen);
    CheckIsRecognised(bct, Body(typ, sq, data, bct));
    ParseOfContent(k, typ, sq, data, bct, stale);
  }

  /** With block check 2 the reader stores the packet all the same, and the parser recovers it
      exactly when the 16-bit sum of its bytes is below 4096. */
  lemma FrameRoundTripCheck2(k: Config, typ: byte, sq: nat, data: seq<byte>,
                             noise: seq<byte>, later: seq<byte>, stale: seq<byte>, maxlen: nat)
    requires Sendable(typ, sq, data, 2) && Agreed(k, typ, data, 2) && typ != 'E' as int
    requires PACKET_START !in noise && !(CMD <= noise)
    requires ContentSize(|data|, 2) <= maxlen + 1
    requires ContentSize(|data|, 2) + 1 + |stale| >= MEMORY
    ensures Scan(noise + Frame(typ, sq, data, 2) + later, 0, false, [], maxlen) == Packet(Content(typ, sq, data, 2))
    ensures Parse(k, Content(typ, sq, data, 2) + [NUL] + stale, |Content(typ, sq, data, 2)|) ==
      if Sum(Body(typ, sq, data, 2)) < 4096 then Good(typ, sq, data) else BadCheck
  {
    hide Scan, Header, CheckBytes, CString, CheckOk, Parse;
    ContentIsUndelimited(typ, sq, data, 2);
    ReaderFindsFrame(noise, Content(typ, sq, data, 2), later, maxlen);
    CheckIsRecognised(2, Body(typ, sq, data, 2));
    ParseOfContent(k, typ, sq, data, 2, stale);
  }

  lemma {:induction false} SumOfCopies(s: seq<byte>, n: nat)
    ensures Sum(s + Copies(255, n)) == (Sum(s) + 255 * n) % 0x10000
  {
    hide Sum;
    if n == 0 {
      assert s + Copies(255, 0) == s;
    } else {
      assert s + Copies(255, n) == (s + Copies(255, n - 1)) + [255];
      SumAppend(s + Copies(255, n - 1), 255);
      SumOfCopies(s, n - 1);
      WrapsOnce(Sum(s) + 255 * (n - 1));
    }
  }

  lemma WrapsOnce(x: nat)
    ensures (x % 0x10000 + 255) % 0x10000 == (x + 255) % 0x10000
  {
  }

  lemma SumOfThree(h: seq<byte>)
    requires |h| == 3
    ensures Sum(h) <= 765
  {
    assert h == [h[0], h[1], h[2]] && h[1..] == [h[1], h[2]] && [h[1], h[2]][1..] == [h[2]];
    assert Sum([h[2]]) <= 255;
    assert Sum([h[1], h[2]]) <= 510;
  }

  /** Such packets exist: seventeen bytes of 255 are refused under every sequence number. */
  lemma Check2Refuses(sq: nat, stale: seq<byte>)
    requires sq < 64 && |stale| >= MEMORY
    ensures var c := Content('D' as int, sq, Copies(255, 17), 2);
      Parse(Config(true, false, 2, false), c + [NUL] + stale, |c|) == BadCheck
  {
    hide Sum, Header, CheckBytes, Parse, Scan;
    SumOfThree(Header('D' as int, sq, 17, 2));
    SumOfCopies(Header('D' as int, sq, 17, 2), 17);
    FrameRoundTripCheck2(Config(true, false, 2, false), 'D' as int, sq, Copies(255, 17), [], [], stale, P_PKTLEN);
  }

  // ------------------------------------------------------------------ damage

  /** `d` is `s` with one or two neighbouring bytes from position `i` on replaced. */
  ghost predicate Burst(s: seq<byte>, d: seq<byte>, i: nat) {
    && |s| == |d| && i < |s| && s != d
    && forall j :: 0 <= j < |s| && j != i && j != i + 1 ==> s[j] == d[j]
  }

  /** Damage confined to two neighbouring bytes of the data field never gets past the
      16-bit check. */
  lemma BurstInDataIsRejected(k: Config, typ: byte, sq: nat, data: seq<byte>, damaged: seq<byte>, i: nat, stale: seq<byte>)
    requires Sendable(typ, sq, data, 3) && Agreed(k, typ, data, 3) && typ != 'E' as int
    requires Burst(data, damaged, i) && Clean(damaged)
    requires ContentSize(|data|, 3) + 1 + |stale| >= MEMORY
    ensures var c := CheckBytes(3, Body(typ, sq, data, 3));
      var d := Body(typ, sq, damaged, 3) + c;
      Parse(k, d + [NUL] + stale, |d|) == BadCheck
  {
    hide Header, CheckBytes, CString, CheckOk, HeaderOk, DataStart, DataLength;
    var h, b, bad := Header(typ, sq, |data|, 3), Body(typ, sq, data, 3), Body(typ, sq, damaged, 3);
    var c := CheckBytes(3, b);
    var m := bad + c + [NUL] + stale;
    BodyIsClean(typ, sq, data, 3);
    BodyIsClean(typ, sq, damaged, 3);
    assert h <= m;
    HeaderIsRead(k, typ, sq, damaged, 3, m);
    assert CheckLength(k, m) == 3 && DataLength(k, m) == |data| && DataStart(m) == |h|;
    assert m[..|h| + |data|] == bad;
    assert m[|h| + |data|..|h| + |data| + 3] == c;
    BurstIsSeen(h, data, damaged, i);
  }

  lemma BurstIsSeen(h: seq<byte>, data: seq<byte>, damaged: seq<byte>, i: nat)
    requires Burst(data, damaged, i)
    ensures !CheckOk(CheckBytes(3, h + data), h + damaged)
  {
    hide CheckOk, CheckBytes, Crc;
    BurstShifts(h, data, damaged, i);
    BurstChangesCrc(h + data, h + damaged, |h| + i);
    CheckDetermines(h + data, h + damaged);
  }

  lemma BurstShifts(h: seq<byte>, s: seq<byte>, d: seq<byte>, i: nat)
    requires Burst(s, d, i)
    ensures Burst(h + s, h + d, |h| + i)
  {
    var x, y := h + s, h + d;
    assert x[|h|..] == s && y[|h|..] == d;
    forall j | 0 <= j < |x| && j != |h| + i && j != |h| + i + 1
      ensures x[j] == y[j]
    {
      if j >= |h| {
        assert x[j] == s[j - |h|] && y[j] == d[j - |h|];
      }
    }
  }

  /** The check field of one string is accepted for another only if their CRCs agree. */
  lemma CheckDetermines(s: seq<byte>, d: seq<byte>)
    requires Crc(s) != Crc(d)
    ensures !CheckOk(CheckBytes(3, s), d)
  {
    hide Sum, Crc, CrcValue, Sum6, Or;
    var j := CrcValue(s);
    SixteenBits(j);
    OrOfFields((j / 4096) % 16, (j / 64) % 64, j % 64);
    UnToChar((j / 4096) % 16);
    UnToChar((j / 64) % 64);
    UnToChar(j % 64);
    CrcValueDistinguishes(s, d);
  }
}
