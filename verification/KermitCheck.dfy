/** The three block checks of a packet, and the strength of the 16-bit one. */
module KermitCheck {
  import opened Bytes
  import opened KermitBytes

  /** The bytes of `m` before its first NUL. */
  function CString(m: seq<byte>): (s: seq<byte>)
    ensures NUL !in s && s <= m
    ensures s != m ==> m[|s|] == NUL
  {
    if m == [] || m[0] == NUL then [] else [m[0]] + CString(m[1..])
  }

  /** The string ends at the first NUL. */
  lemma CStringEnds(m: seq<byte>, n: nat)
    requires CString(m) != m && n <= |CString(m)|
    ensures n < |m| && (m[n] == NUL <==> n == |CString(m)|) && (m[n] != NUL ==> CString(m)[n] == m[n])
  {
    if n < |CString(m)| {
      assert CString(m)[n] in CString(m);
    }
  }

  lemma {:induction false} CStringOfTerminated(s: seq<byte>, stale: seq<byte>)
    requires NUL !in s
    ensures CString(s + [NUL] + stale) == s
  {
    var m := s + [NUL] + stale;
    if s != [] {
      assert m[0] == s[0] && s[0] in s;
      assert m[1..] == s[1..] + [NUL] + stale;
      CStringOfTerminated(s[1..], stale);
    }
  }

  // ------------------------------------------------------------------ sums

  /** Sum of the bytes in an unsigned 16-bit variable. */
  function Sum(s: seq<byte>): (c: nat)
    ensures c < 0x10000
  {
    if s == [] then 0 else (s[0] + Sum(s[1..])) % 0x10000
  }

  /** Six-bit check made of the sum. */
  function Sum6(s: seq<byte>): (c: nat)
    ensures c < 64
  {
    ((Sum(s) / 64) % 4 + Sum(s)) % 64
  }

  lemma ModAdd(x: nat, y: nat, z: nat)
    ensures (x + (y + z) % 0x10000) % 0x10000 == ((x + y) % 0x10000 + z) % 0x10000
  {
  }

  lemma {:induction false} SumAppend(s: seq<byte>, b: byte)
    ensures Sum(s + [b]) == (Sum(s) + b) % 0x10000
  {
    if s == [] {
      assert s + [b] == [b];
      assert Sum([b]) == (b + Sum([b][1..])) % 0x10000;
    } else {
      assert (s + [b])[1..] == s[1..] + [b];
      SumAppend(s[1..], b);
      ModAdd(s[0], Sum(s[1..]), b);
    }
  }

  /** Sums the NUL-terminated string at `pkt[start..]`. */
  method Chk2(pkt: array<byte>, start: nat) returns (chk: nat)
    requires start <= pkt.Length && CString(pkt[start..]) != pkt[start..]
    ensures chk == Sum(CString(pkt[start..]))
  {
    hide Sum, CString;
    chk := 0;
    var i := start;
    ghost var s := CString(pkt[start..]);
    SumOfPrefix(s, 0);
    while pkt[i] != NUL
      invariant start <= i <= start + |s| && chk == Sum(s[..i - start])
      decreases start + |s| - i
    {
      CStringEnds(pkt[start..], i - start);
      SumOfPrefix(s, i - start);
      chk := (chk + pkt[i]) % 0x10000;
      i := i + 1;
    }
    CStringEnds(pkt[start..], i - start);
    SumOfPrefix(s, |s|);
  }

  lemma SumOfPrefix(s: seq<byte>, n: nat)
    requires n <= |s|
    ensures n == 0 ==> Sum(s[..n]) == 0
    ensures n < |s| ==> Sum(s[..n + 1]) == (Sum(s[..n]) + s[n]) % 0x10000
    ensures s[..|s|] == s
  {
    if n < |s| {
      assert s[..n + 1] == s[..n] + [s[n]];
      SumAppend(s[..n], s[n]);
    }
  }

  method Chk1(pkt: array<byte>, start: nat) returns (chk: nat)
    requires start <= pkt.Length && CString(pkt[start..]) != pkt[start..]
    ensures chk == Sum6(CString(pkt[start..]))
  {
    chk := Chk2(pkt, start);
    chk := ((chk / 64) % 4 + chk) % 64;
  }

  // ------------------------------------------------------------------ CRC-CCITT, bit by bit

  function Xor(x: bv16, y: bv16): bv16 { x ^ y }

  /** One bit of the reflected CRC with polynomial 0x8408. */
  function Bit(x: bv16): bv16 {
    (x >> 1) ^ (if x & 1 == 1 then 0x8408 else 0)
  }

  function Bits8(x: bv16): bv16 {
    Bit(Bit(Bit(Bit(Bit(Bit(Bit(Bit(x))))))))
  }

  function Nibble(n: int): bv16
    requires 0 <= n < 16
  {
    if n == 0 then 0 else if n == 1 then 1 else if n == 2 then 2 else if n == 3 then 3
    else if n == 4 then 4 else if n == 5 then 5 else if n == 6 then 6 else if n == 7 then 7
    else if n == 8 then 8 else if n == 9 then 9 else if n == 10 then 10 else if n == 11 then 11
    else if n == 12 then 12 else if n == 13 then 13 else if n == 14 then 14 else 15
  }

  /** A byte as a 16-bit word. */
  function Word(b: byte): bv16 {
    (Nibble(b / 16) << 4) | Nibble(b % 16)
  }

  function CrcByte(crc: bv16, b: byte): bv16 {
    Bits8(Xor(crc, Word(b)))
  }

  function CrcFrom(crc: bv16, s: seq<byte>): bv16
    decreases |s|
  {
    if s == [] then crc else CrcFrom(CrcByte(crc, s[0]), s[1..])
  }

  function Crc(s: seq<byte>): bv16 { CrcFrom(0, s) }

  /** The CRC as a number. */
  function CrcValue(s: seq<byte>): (v: nat)
    ensures v < 0x10000
  {
    Crc(s) as int
  }

  lemma CrcValueDistinguishes(s: seq<byte>, t: seq<byte>)
    requires Crc(s) != Crc(t)
    ensures CrcValue(s) != CrcValue(t)
  {
    hide Crc;
    assert (Crc(s) as int) as bv16 == Crc(s) && (Crc(t) as int) as bv16 == Crc(t);
  }

  // ------------------------------------------------------------------ words and exclusive or

  lemma NibbleFits(n: int)
    requires 0 <= n < 16
    ensures Nibble(n) < 16
  {
  }

  lemma NibbleIsInjective(m: int, n: int)
    requires 0 <= m < 16 && 0 <= n < 16 && Nibble(m) == Nibble(n)
    ensures m == n
  {
  }

  lemma TwoNibbles(x: bv16, y: bv16)
    requires x < 16 && y < 16
    ensures (x << 4) | y < 0x100
    ensures ((x << 4) | y) >> 4 == x && ((x << 4) | y) & 15 == y
  {
  }

  lemma WordFits(b: byte)
    ensures Word(b) < 0x100
    ensures Word(b) >> 4 == Nibble(b / 16) && Word(b) & 15 == Nibble(b % 16)
  {
    hide Nibble;
    NibbleFits(b / 16);
    NibbleFits(b % 16);
    TwoNibbles(Nibble(b / 16), Nibble(b % 16));
  }

  lemma WordIsInjective(a: byte, b: byte)
    requires Word(a) == Word(b)
    ensures a == b
  {
    hide Nibble, Word;
    WordFits(a);
    WordFits(b);
    NibbleIsInjective(a / 16, b / 16);
    NibbleIsInjective(a % 16, b % 16);
  }

  lemma XorAssociates(x: bv16, y: bv16, z: bv16)
    ensures Xor(Xor(x, y), z) == Xor(x, Xor(y, z))
  {
  }

  lemma XorCommutes(x: bv16, y: bv16)
    ensures Xor(x, y) == Xor(y, x)
  {
  }

  lemma XorCommon(c: bv16, x: bv16, y: bv16)
    ensures Xor(Xor(c, x), Xor(c, y)) == Xor(x, y)
  {
    hide Xor;
    XorCommutes(c, x);
    XorAssociates(Xor(x, c), c, y);
    XorUndoes(x, c);
  }

  lemma XorZero(x: bv16, y: bv16)
    requires Xor(x, y) == 0
    ensures x == y
  {
  }

  lemma XorCancelsLeft(c: bv16, x: bv16, y: bv16)
    requires Xor(c, x) == Xor(c, y)
    ensures x == y
  {
  }

  lemma XorCancelsRight(c: bv16, x: bv16, y: bv16)
    requires Xor(x, c) == Xor(y, c)
    ensures x == y
  {
  }

  lemma XorUndoes(x: bv16, u: bv16)
    ensures Xor(Xor(x, u), u) == x
  {
  }

  lemma XorFits(x: bv16, y: bv16)
    requires x < 0x100 && y < 0x100
    ensures Xor(x, y) < 0x100
  {
  }

  lemma XorCrosses(x: bv16, u: bv16, y: bv16, v: bv16)
    requires Xor(x, u) == Xor(y, v)
    ensures Xor(x, y) == Xor(u, v)
  {
    hide Xor;
    XorUndoes(x, u);
    XorUndoes(y, v);
    XorCommon(Xor(x, u), u, v);
  }

  // ------------------------------------------------------------------ one bit is injective and linear

  lemma BitIsInjective(x: bv16, y: bv16)
    ensures Bit(x) == Bit(y) ==> x == y
  {
  }

  lemma ShiftOfXor(x: bv16, y: bv16)
    ensures (x ^ y) >> 1 == (x >> 1) ^ (y >> 1)
    ensures (x ^ y) & 1 == (x & 1) ^ (y & 1)
  {
  }

  lemma BitOfXor(x: bv16, y: bv16)
    ensures Bit(x ^ y) == Bit(x) ^ Bit(y)
  {
    ShiftOfXor(x, y);
    if x & 1 == 1 {
      if y & 1 == 1 {} else {}
    } else {
      if y & 1 == 1 {} else {}
    }
  }

  lemma BitIsLinear(x: bv16, y: bv16)
    ensures Bit(Xor(x, y)) == Xor(Bit(x), Bit(y))
  {
    hide Bit;
    BitOfXor(x, y);
  }

  lemma Bits8IsInjective(x: bv16, y: bv16)
    requires Bits8(x) == Bits8(y)
    ensures x == y
  {
    hide Bit;
    var x1, y1 := Bit(x), Bit(y);
    var x2, y2 := Bit(x1), Bit(y1);
    var x3, y3 := Bit(x2), Bit(y2);
    var x4, y4 := Bit(x3), Bit(y3);
    var x5, y5 := Bit(x4), Bit(y4);
    var x6, y6 := Bit(x5), Bit(y5);
    var x7, y7 := Bit(x6), Bit(y6);
    BitIsInjective(x7, y7);
    BitIsInjective(x6, y6);
    BitIsInjective(x5, y5);
    BitIsInjective(x4, y4);
    BitIsInjective(x3, y3);
    BitIsInjective(x2, y2);
    BitIsInjective(x1, y1);
    BitIsInjective(x, y);
  }

  lemma Bits8IsLinear(x: bv16, y: bv16)
    ensures Bits8(Xor(x, y)) == Xor(Bits8(x), Bits8(y))
  {
    hide Bit, Xor;
    var x1, y1 := Bit(x), Bit(y);
    var x2, y2 := Bit(x1), Bit(y1);
    var x3, y3 := Bit(x2), Bit(y2);
    var x4, y4 := Bit(x3), Bit(y3);
    var x5, y5 := Bit(x4), Bit(y4);
    var x6, y6 := Bit(x5), Bit(y5);
    var x7, y7 := Bit(x6), Bit(y6);
    BitIsLinear(x, y);
    BitIsLinear(x1, y1);
    BitIsLinear(x2, y2);
    BitIsLinear(x3, y3);
    BitIsLinear(x4, y4);
    BitIsLinear(x5, y5);
    BitIsLinear(x6, y6);
    BitIsLinear(x7, y7);
  }

  // ------------------------------------------------------------------ CRC-CCITT, by table

  function TableA(n: bv16): bv16 {
    if n == 0 then 0 else if n == 1 then 0x1081 else if n == 2 then 0x2102 else if n == 3 then 0x3183
    else if n == 4 then 0x4204 else if n == 5 then 0x5285 else if n == 6 then 0x6306 else if n == 7 then 0x7387
    else if n == 8 then 0x8408 else if n == 9 then 0x9489 else if n == 10 then 0xA50A else if n == 11 then 0xB58B
    else if n == 12 then 0xC60C else if n == 13 then 0xD68D else if n == 14 then 0xE70E else 0xF78F
  }

  function TableB(n: bv16): bv16 {
    if n == 0 then 0 else if n == 1 then 0x1189 else if n == 2 then 0x2312 else if n == 3 then 0x329B
    else if n == 4 then 0x4624 else if n == 5 then 0x57AD else if n == 6 then 0x6536 else if n == 7 then 0x74BF
    else if n == 8 then 0x8C48 else if n == 9 then 0x9DC1 else if n == 10 then 0xAF5A else if n == 11 then 0xBED3
    else if n == 12 then 0xCA6C else if n == 13 then 0xDBE5 else if n == 14 then 0xE97E else 0xF8F7
  }

  function HighByte(x: bv16): bv16 { x >> 8 }

  function UpperNibble(x: bv16): bv16 { (x & 0xF0) >> 4 }

  function LowerNibble(x: bv16): bv16 { x & 0x0F }

  lemma TableAIsBits(n: bv16)
    requires n < 16
    ensures TableA(n) == Bits8(n << 4)
  {
  }

  lemma TableBIsBits(n: bv16)
    requires n < 16
    ensures TableB(n) == Bits8(n)
  {
  }

  lemma HighByteFallsThrough(x: bv16)
    ensures Bits8(x & 0xFF00) == HighByte(x)
  {
  }

  lemma NibblesOf(x: bv16)
    ensures Xor(x & 0xFF00, Xor(UpperNibble(x) << 4, LowerNibble(x))) == x
    ensures UpperNibble(x) < 16 && LowerNibble(x) < 16
  {
  }

  /** The two nibble tables together do eight single-bit steps. */
  lemma TablesAreEightBits(x: bv16)
    ensures Xor(HighByte(x), Xor(TableA(UpperNibble(x)), TableB(LowerNibble(x)))) == Bits8(x)
  {
    hide Bits8, TableA, TableB, Xor, HighByte, UpperNibble, LowerNibble;
    var h, a, b := x & 0xFF00, UpperNibble(x) << 4, LowerNibble(x);
    NibblesOf(x);
    TableAIsBits(UpperNibble(x));
    TableBIsBits(b);
    HighByteFallsThrough(x);
    Bits8IsLinear(h, Xor(a, b));
    Bits8IsLinear(a, b);
  }

  lemma OneByteByTables(crc: bv16, b: byte)
    ensures var c := Xor(crc, Word(b));
      Xor(HighByte(crc), Xor(TableA(UpperNibble(c)), TableB(LowerNibble(c)))) == CrcByte(crc, b)
  {
    hide Bits8, TableA, TableB, Word, Xor, HighByte, UpperNibble, LowerNibble;
    WordFits(b);
    TablesAreEightBits(Xor(crc, Word(b)));
    HighByteUntouched(crc, Word(b));
  }

  lemma HighByteUntouched(crc: bv16, w: bv16)
    requires w < 0x100
    ensures HighByte(Xor(crc, w)) == HighByte(crc)
  {
  }

  /** Computes the CRC of the NUL-terminated string at `pkt[start..]` with the tables. */
  method Chk3(pkt: array<byte>, start: nat) returns (crc: bv16)
    requires start <= pkt.Length && CString(pkt[start..]) != pkt[start..]
    ensures crc == Crc(CString(pkt[start..]))
  {
    hide CrcByte, TableA, TableB, Word, Xor, HighByte, UpperNibble, LowerNibble;
    crc := 0;
    var i := start;
    ghost var s := CString(pkt[start..]);
    assert s[0..] == s;
    while pkt[i] != NUL
      invariant start <= i <= start + |s| && CrcFrom(crc, s[i - start..]) == Crc(s)
      decreases start + |s| - i
    {
      assert pkt[i] == pkt[start..][i - start];
      assert s[i - start..][1..] == s[i - start + 1..];
      OneByteByTables(crc, pkt[i]);
      var c := Xor(crc, Word(pkt[i]));
      crc := Xor(HighByte(crc), Xor(TableA(UpperNibble(c)), TableB(LowerNibble(c))));
      i := i + 1;
    }
    assert pkt[i] == pkt[start..][i - start];
  }

  // ------------------------------------------------------------------ strength of the CRC

  lemma HighByteShows(v: bv16)
    requires v < 0x100 && Bits8(v) < 0x100
    ensures v == 0
  {
  }

  lemma TwoWordsShow(c: bv16, u1: bv16, u2: bv16, v1: bv16, v2: bv16)
    requires u1 < 0x100 && u2 < 0x100 && v1 < 0x100 && v2 < 0x100
    requires Bits8(Xor(Bits8(Xor(c, u1)), u2)) == Bits8(Xor(Bits8(Xor(c, v1)), v2))
    ensures u1 == v1 && u2 == v2
  {
    hide Bits8, Xor;
    var x, y := Bits8(Xor(c, u1)), Bits8(Xor(c, v1));
    Bits8IsInjective(Xor(x, u2), Xor(y, v2));
    XorCrosses(x, u2, y, v2);
    Bits8IsLinear(Xor(c, u1), Xor(c, v1));
    XorCommon(c, u1, v1);
    XorFits(u1, v1);
    XorFits(u2, v2);
    HighByteShows(Xor(u1, v1));
    XorZero(u1, v1);
    XorCancelsLeft(x, u2, v2);
  }

  /** From the same register, two bytes lead to the same register only if they are the same. */
  lemma TwoBytesShow(c: bv16, a1: byte, a2: byte, b1: byte, b2: byte)
    requires CrcByte(CrcByte(c, a1), a2) == CrcByte(CrcByte(c, b1), b2)
    ensures a1 == b1 && a2 == b2
  {
    hide Bits8, Word, Xor;
    WordFits(a1);
    WordFits(a2);
    WordFits(b1);
    WordFits(b2);
    TwoWordsShow(c, Word(a1), Word(a2), Word(b1), Word(b2));
    WordIsInjective(a1, b1);
    WordIsInjective(a2, b2);
  }

  lemma CrcByteIsInjective(c: bv16, d: bv16, b: byte)
    requires CrcByte(c, b) == CrcByte(d, b)
    ensures c == d
  {
    hide Bits8, Word, Xor;
    Bits8IsInjective(Xor(c, Word(b)), Xor(d, Word(b)));
    XorCancelsRight(Word(b), c, d);
  }

  lemma {:induction false} CrcSplits(crc: bv16, s: seq<byte>, t: seq<byte>)
    ensures CrcFrom(crc, s + t) == CrcFrom(CrcFrom(crc, s), t)
    decreases |s|
  {
    hide CrcByte;
    if s == [] {
      assert s + t == t;
    } else {
      assert (s + t)[1..] == s[1..] + t;
      CrcSplits(CrcByte(crc, s[0]), s[1..], t);
    }
  }

  lemma {:induction false} CrcFromIsInjective(c: bv16, d: bv16, s: seq<byte>)
    requires CrcFrom(c, s) == CrcFrom(d, s)
    ensures c == d
    decreases |s|
  {
    hide CrcByte;
    if s != [] {
      CrcFromIsInjective(CrcByte(c, s[0]), CrcByte(d, s[0]), s[1..]);
      CrcByteIsInjective(c, d, s[0]);
    }
  }

  lemma PairThen(c: bv16, a: byte, b: byte, q: seq<byte>)
    ensures CrcFrom(c, [a, b] + q) == CrcFrom(CrcByte(CrcByte(c, a), b), q)
  {
    hide CrcByte;
    assert ([a, b] + q)[1..] == [b] + q && ([b] + q)[1..] == q;
  }

  lemma CrcOfOne(a: byte)
    ensures Crc([a]) == CrcByte(0, a)
  {
    hide CrcByte;
    assert [a][1..] == [];
    assert CrcFrom(0, [a]) == CrcFrom(CrcByte(0, a), []);
  }

  lemma SingleByteShows(a: byte, b: byte)
    requires Crc([a]) == Crc([b])
    ensures a == b
  {
    hide Bits8, Word, Xor, CrcFrom;
    CrcOfOne(a);
    CrcOfOne(b);
    Bits8IsInjective(Xor(0, Word(a)), Xor(0, Word(b)));
    XorCancelsLeft(0, Word(a), Word(b));
    WordIsInjective(a, b);
  }

  /** Strings of one length that differ, but nowhere outside two neighbouring bytes, never
      have the same CRC. */
  lemma BurstChangesCrc(s: seq<byte>, t: seq<byte>, i: nat)
    requires |s| == |t| && i < |s| && s != t
    requires forall j :: 0 <= j < |s| && j != i && j != i + 1 ==> s[j] == t[j]
    ensures Crc(s) != Crc(t)
  {
    hide CrcByte;
    if Crc(s) == Crc(t) {
      if i + 1 == |s| && i > 0 {
        BurstChangesCrc(s, t, i - 1);
      } else if i + 1 == |s| {
        assert s == [s[0]] && t == [t[0]];
        SingleByteShows(s[0], t[0]);
      } else {
        var p, q := s[..i], s[i + 2..];
        assert s == p + ([s[i], s[i + 1]] + q) && t == p + ([t[i], t[i + 1]] + q);
        var c := CrcFrom(0, p);
        CrcSplits(0, p, [s[i], s[i + 1]] + q);
        CrcSplits(0, p, [t[i], t[i + 1]] + q);
        PairThen(c, s[i], s[i + 1], q);
        PairThen(c, t[i], t[i + 1], q);
        CrcFromIsInjective(CrcByte(CrcByte(c, s[i]), s[i + 1]), CrcByte(CrcByte(c, t[i]), t[i + 1]), q);
        TwoBytesShow(c, s[i], s[i + 1], t[i], t[i + 1]);
      }
    }
  }
}
