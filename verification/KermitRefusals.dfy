/**
 What the parser refuses: every frame in which one bit has been turned over on the way, under each
 block check.
 */
module KermitRefusals {
  import opened Bytes
  import opened KermitBytes
  import opened KermitCheck
  import opened KermitFrame
  import opened KermitParse
  import opened KermitRoundTrip
  import opened KermitWireForms

  // ------------------------------------------------------------------ one bit

  /** Two bytes that differ by a power of two, as the flip of one bit makes them. */
  predicate BitApart(a: byte, b: byte) {
    a - b in {1, 2, 4, 8, 16, 32, 64, 128} || b - a in {1, 2, 4, 8, 16, 32, 64, 128}
  }

  lemma SumUnfolds(s: seq<byte>)
    requires s != []
    ensures Sum(s) == (s[0] + Sum(s[1..])) % 0x10000
  {
  }

  /** Such a change of a byte shows in the sum of the string. */
  lemma {:induction false} SumOfChange(s: seq<byte>, i: nat, b: byte)
    requires i < |s|
    ensures Sum(s[i := b]) == (Sum(s) + b - s[i]) % 0x10000
  {
    hide Sum;
    var t := s[i := b];
    SumUnfolds(s);
    SumUnfolds(t);
    if i == 0 {
      assert t[1..] == s[1..];
      WrapsAround(Sum(s[1..]), s[0], b);
    } else {
      assert t[1..] == s[1..][i - 1 := b];
      SumOfChange(s[1..], i - 1, b);
      WrapsBoth(Sum(s[1..]), b - s[i], s[0]);
    }
  }

  lemma WrapsAround(x: nat, a: byte, b: byte)
    ensures (b + x) % 0x10000 == ((a + x) % 0x10000 + b - a) % 0x10000
  {
  }

  lemma WrapsBoth(x: nat, d: int, a: byte)
    ensures (a + (x + d) % 0x10000) % 0x10000 == ((a + x) % 0x10000 + d) % 0x10000
  {
  }

  lemma FoldOf(h: nat, q: nat, r: nat)
    requires q < 4 && r < 64
    ensures Fold(256 * h + 64 * q + r) == (q + r) % 64
  {
    var x := 256 * h + 64 * q + r;
    assert x == 64 * (4 * h + q) + r;
    assert x / 64 == 4 * h + q;
    assert (4 * h + q) % 4 == q;
    assert q + x == 64 * (4 * h + q) + (q + r);
  }

  lemma Digits(x: nat) returns (h: nat, q: nat, r: nat)
    ensures q < 4 && r < 64 && x == 256 * h + 64 * q + r && x % 256 == 64 * q + r
  {
    h, q, r := x / 256, (x % 256) / 64, (x % 256) % 64;
  }

  /** What the two top bits and the six others of a byte become when a power of two is added. */
  lemma FoldOfStep(q: nat, r: nat, q': nat, r': nat, d: nat)
    requires q < 4 && r < 64 && q' < 4 && r' < 64 && d in {1, 2, 4, 8, 16, 32, 64, 128}
    requires 64 * q' + r' == 64 * q + r + d || 64 * q' + r' == 64 * q + r + d - 256
    ensures (q + r) % 64 != (q' + r') % 64
  {
  }

  lemma StepShows(x: nat, y: nat, d: nat)
    requires y % 256 == (x + d) % 256 && d in {1, 2, 4, 8, 16, 32, 64, 128}
    ensures Fold(x) != Fold(y)
  {
    hide Fold;
    var h, q, r := Digits(x);
    var h', q', r' := Digits(y);
    FoldOf(h, q, r);
    FoldOf(h', q', r');
    WrapsByteOnce(h, 64 * q + r, d);
    FoldOfStep(q, r, q', r', d);
  }

  lemma WrapsByteOnce(h: nat, l: nat, d: nat)
    requires l < 256 && d <= 128
    ensures (256 * h + l + d) % 256 == if l + d < 256 then l + d else l + d - 256
  {
    if l + d >= 256 {
      assert 256 * h + l + d == 256 * (h + 1) + (l + d - 256);
    }
  }

  /** And in its six folded bits. */
  lemma FoldShows(x: nat, y: nat, a: byte, b: byte)
    requires x < 0x10000 && y == (x + b - a) % 0x10000 && BitApart(a, b)
    ensures Fold(x) != Fold(y)
  {
    hide Fold;
    LowOfWrapped(x + b - a);
    if b > a {
      StepShows(x, y, b - a);
    } else {
      BackAgain(x, y, a - b);
      StepShows(y, x, a - b);
    }
  }

  lemma LowOfWrapped(z: int)
    ensures (z % 0x10000) % 256 == z % 256
  {
  }

  lemma BackAgain(x: int, y: int, d: int)
    requires y % 256 == (x - d) % 256
    ensures x % 256 == (y + d) % 256
  {
  }

  // ------------------------------------------------------------------ one bit against the block check

  lemma OneBitFailsCheck1(s: seq<byte>, i: nat, b: byte)
    requires i < |s| && BitApart(s[i], b)
    ensures !CheckOk(CheckBytes(1, s), s[i := b])
  {
    hide Sum, Fold;
    SumOfChange(s, i, b);
    FoldShows(Sum(s), Sum(s[i := b]), s[i], b);
    FoldIs(s);
    FoldIs(s[i := b]);
    UnToChar(Sum6(s));
  }

  lemma OneBitFailsCheck2(s: seq<byte>, i: nat, b: byte)
    requires i < |s| && BitApart(s[i], b)
    ensures !CheckOk(CheckBytes(2, s), s[i := b])
  {
    hide Sum, Or, UnChar, ToChar;
    SumOfChange(s, i, b);
    var x, y := Sum(s), Sum(s[i := b]);
    SixteenBits(x);
    OrOfFields((x / 4096) % 16, (x / 64) % 64, x % 64);
    UnToChar((x / 64) % 64);
    UnToChar(x % 64);
    TwelveBitsShow(x, y, b - s[i]);
  }

  lemma TwelveBitsShow(x: nat, y: nat, d: int)
    requires x < 0x10000 && y == (x + d) % 0x10000 && -128 <= d <= 128 && d != 0
    ensures x % 4096 != y
  {
    var h := x / 4096;
    assert x == 4096 * h + x % 4096;
  }

  /** Under each block check, turning over one bit of the checked string is noticed. */
  lemma OneBitFailsCheck(bct: nat, s: seq<byte>, i: nat, b: byte)
    requires 1 <= bct <= 3 && i < |s| && BitApart(s[i], b)
    ensures !CheckOk(CheckBytes(bct, s), s[i := b])
  {
    hide CheckBytes, CheckOk, Crc;
    if bct == 1 {
      OneBitFailsCheck1(s, i, b);
    } else if bct == 2 {
      OneBitFailsCheck2(s, i, b);
    } else {
      BurstChangesCrc(s, s[i := b], i);
      CheckDetermines(s, s[i := b]);
    }
  }

  /** A packet whose block check does not match is refused. An error packet under a longer check has
      a second chance. */
  lemma WrongCheckIsRefused(k: Config, typ: byte, sq: nat, data: seq<byte>, bct: nat, c: seq<byte>, m: seq<byte>, n: nat)
    requires Sendable(typ, sq, data, bct) && Agreed(k, typ, data, bct) && |c| == bct && (typ == 'E' as int ==> bct == 1)
    requires |m| >= MEMORY && Body(typ, sq, data, bct) + c <= m && n >= |Body(typ, sq, data, bct)| + bct
    requires !CheckOk(c, Body(typ, sq, data, bct))
    ensures Parse(k, m, n) == BadCheck
  {
    hide Header, CheckBytes, CString, CheckOk, HeaderOk, DataStart, DataLength;
    var h, b := Header(typ, sq, |data|, bct), Body(typ, sq, data, bct);
    BodyIsClean(typ, sq, data, bct);
    assert h <= b <= b + c;
    HeaderIsRead(k, typ, sq, data, bct, m);
    assert CheckLength(k, m) == bct && DataLength(k, m) == |data| && DataStart(m) == |h|;
    assert (b + c)[..|b|] == b && m[..|b|] == b;
    assert (b + c)[|b|..] == c && m[|b|..|b| + bct] == c;
  }

  /** Under each block check, a frame in which one bit of one data byte has been turned over on the
      way, into no delimiter, is refused. */
  lemma OneBitInDataIsRefused(k: Config, typ: byte, sq: nat, data: seq<byte>, bct: nat, i: nat, b: byte, stale: seq<byte>)
    requires Sendable(typ, sq, data, bct) && Agreed(k, typ, data, bct) && (typ == 'E' as int ==> bct == 1)
    requires i < |data| && BitApart(data[i], b) && !Reserved(b)
    requires ContentSize(|data|, bct) + 1 + |stale| >= MEMORY
    ensures var at := |Header(typ, sq, |data|, bct)| + i;
      var d := Content(typ, sq, data, bct)[at := b];
      Parse(k, d + [NUL] + stale, |d|) == BadCheck
  {
    hide Header, CheckBytes, CString, CheckOk, Parse;
    var h, body := Header(typ, sq, |data|, bct), Body(typ, sq, data, bct);
    var at, bad := |h| + i, data[i := b];
    var c := CheckBytes(bct, body);
    BodyIsClean(typ, sq, data, bct);
    assert body[at := b] == h + bad == Body(typ, sq, bad, bct);
    OneBitFailsCheck(bct, body, at, b);
    var d := Content(typ, sq, data, bct)[at := b];
    assert d == h + bad + c;
    WrongCheckIsRefused(k, typ, sq, bad, bct, c, d + [NUL] + stale, |d|);
  }

  // ------------------------------------------------------------------ the other bytes

  /** The number of a short frame. */
  lemma OneBitInNumber(k: Config, typ: byte, sq: nat, data: seq<byte>, bct: nat, b: byte, stale: seq<byte>)
    requires Sendable(typ, sq, data, bct) && Agreed(k, typ, data, bct) && (typ == 'E' as int ==> bct == 1)
    requires !IsLong(|data|, bct) && BitApart(ToChar(sq), b) && !Reserved(b)
    requires ContentSize(|data|, bct) + 1 + |stale| >= MEMORY
    ensures var d := Content(typ, sq, data, bct)[1 := b]; !Parse(k, d + [NUL] + stale, |d|).Good?
  {
    hide CheckBytes, CString, CheckOk;
    var body, d := Body(typ, sq, data, bct), Content(typ, sq, data, bct)[1 := b];
    BodyIsClean(typ, sq, data, bct);
    if UnChar(b) <= 63 {
      hide Parse;
      var other := UnChar(b);
      assert ToChar(other) == b;
      assert body[1 := b] == Body(typ, other, data, bct);
      OneBitFailsCheck(bct, body, 1, b);
      var c := CheckBytes(bct, body);
      assert d == body[1 := b] + c;
      WrongCheckIsRefused(k, typ, other, data, bct, c, d + [NUL] + stale, |d|);
    } else {
      assert d[1] == b && (d + [NUL] + stale)[1] == b;
    }
  }

  /** The type of a short frame. */
  lemma OneBitInType(k: Config, typ: byte, sq: nat, data: seq<byte>, bct: nat, b: byte, stale: seq<byte>)
    requires Sendable(typ, sq, data, bct) && Agreed(k, typ, data, bct) && k.bct == bct && (b == 'E' as int || b == 'S' as int ==> bct == 1)
    requires !IsLong(|data|, bct) && BitApart(typ, b) && !Reserved(b)
    requires ContentSize(|data|, bct) + 1 + |stale| >= MEMORY
    ensures var d := Content(typ, sq, data, bct)[2 := b]; !Parse(k, d + [NUL] + stale, |d|).Good?
  {
    hide CheckBytes, CString, CheckOk;
    var body, d := Body(typ, sq, data, bct), Content(typ, sq, data, bct)[2 := b];
    BodyIsClean(typ, sq, data, bct);
    if k.receiving && (b == 'N' as int || b == 'Y' as int) {
      assert d[2] == b && (d + [NUL] + stale)[2] == b;
    } else {
      hide Parse;
      assert body[2 := b] == Body(b, sq, data, bct);
      OneBitFailsCheck(bct, body, 2, b);
      var c := CheckBytes(bct, body);
      assert d == body[2 := b] + c;
      WrongCheckIsRefused(k, b, sq, data, bct, c, d + [NUL] + stale, |d|);
    }
  }

  /** The check of type 1 itself. */
  lemma OneBitInCheck(k: Config, typ: byte, sq: nat, data: seq<byte>, b: byte, stale: seq<byte>)
    requires Sendable(typ, sq, data, 1) && Agreed(k, typ, data, 1)
    requires ContentSize(|data|, 1) + 1 + |stale| >= MEMORY
    ensures var c := Content(typ, sq, data, 1);
      var d := c[|c| - 1 := b];
      b != c[|c| - 1] ==> Parse(k, d + [NUL] + stale, |d|) == BadCheck
  {
    hide Header, CString, Parse, Sum6;
    var body, c := Body(typ, sq, data, 1), Content(typ, sq, data, 1);
    BodyIsClean(typ, sq, data, 1);
    if b != c[|c| - 1] {
      var d := c[|c| - 1 := b];
      assert d == body + [b];
      UnToChar(Sum6(body));
      WrongCheckIsRefused(k, typ, sq, data, 1, [b], d + [NUL] + stale, |d|);
    }
  }

  /** The header of a long frame, but for its first byte, has a check of its own. */
  lemma OneBitInLongHeader(k: Config, typ: byte, sq: nat, data: seq<byte>, bct: nat, j: nat, b: byte, stale: seq<byte>)
    requires Sendable(typ, sq, data, bct) && ValidConfig(k) && IsLong(|data|, bct)
    requires 1 <= j <= 5 && BitApart(Header(typ, sq, |data|, bct)[j], b) && !Reserved(b)
    requires ContentSize(|data|, bct) + 1 + |stale| >= MEMORY
    ensures var d := Content(typ, sq, data, bct)[j := b]; !Parse(k, d + [NUL] + stale, |d|).Good?
  {
    hide CheckBytes, CheckOk, Sum6, CString, ToChar;
    var h, d := Header(typ, sq, |data|, bct), Content(typ, sq, data, bct)[j := b];
    var n := |data| + bct;
    var five := [ToChar(0), ToChar(sq), typ, ToChar(n / 95), ToChar(n % 95)];
    var m := d + [NUL] + stale;
    assert h == five + [ToChar(Sum6(CString(five)))];
    assert h <= Content(typ, sq, data, bct);
    assert m[..6] == h[j := b];
    HeaderIsClean(typ, sq, |data|, bct);
    assert forall i :: 0 <= i < 5 ==> five[i] == h[i];
    NotWhole(five, j, b, m);
  }

  /** Five bytes of a header and their check, one bit turned over: the header is bad. */
  lemma NotWhole(five: seq<byte>, j: nat, b: byte, m: seq<byte>)
    requires |five| == 5 && five[0] == ToChar(0) && Clean(five) && 1 <= j <= 5 && |m| >= 6
    requires m[..6] == (five + [ToChar(Sum6(CString(five)))])[j := b]
    requires BitApart((five + [ToChar(Sum6(CString(five)))])[j], b) && !Reserved(b)
    ensures !HeaderOk(m)
  {
    hide Sum6, CString, ToChar, UnChar, CheckOk, CheckBytes;
    UnToChar(0);
    CStringOfClean(five);
    UnToChar(Sum6(five));
    assert m[0] == m[..6][0] && m[5] == m[..6][5];
    if j < 5 {
      assert m[..5] == m[..6][..5] == five[j := b];
      CStringOfClean(five[j := b]);
      OneBitFailsCheck1(five, j, b);
      CheckOfSum(five, five[j := b]);
    } else {
      assert m[..5] == m[..6][..5] == five;
      UnCharDiffers(b, Sum6(five));
    }
  }

  lemma UnCharDiffers(b: byte, n: nat)
    requires n < 64 && b != ToChar(n)
    ensures UnChar(b) != n
  {
  }

  lemma CheckOfSum(s: seq<byte>, t: seq<byte>)
    requires !CheckOk(CheckBytes(1, s), t)
    ensures Sum6(s) != Sum6(t)
  {
    UnToChar(Sum6(s));
  }

  /** Single-bit damage is refused: for every frame with block check 1, whatever byte but the length
      of a short frame, or the leading 0 of a long one, has one bit turned over on the way, into no
      delimiter, the parser finds no packet. */
  lemma OneBitIsRefused(k: Config, typ: byte, sq: nat, data: seq<byte>, j: nat, b: byte, stale: seq<byte>)
    requires Sendable(typ, sq, data, 1) && Agreed(k, typ, data, 1) && k.bct == 1
    requires 1 <= j < |Content(typ, sq, data, 1)| && BitApart(Content(typ, sq, data, 1)[j], b) && !Reserved(b)
    requires ContentSize(|data|, 1) + 1 + |stale| >= MEMORY
    ensures var d := Content(typ, sq, data, 1)[j := b]; !Parse(k, d + [NUL] + stale, |d|).Good?
  {
    hide Parse, CheckBytes, CString;
    var c, h := Content(typ, sq, data, 1), Header(typ, sq, |data|, 1);
    assert j < |h| ==> c[j] == h[j];
    assert |h| <= j < |h| + |data| ==> c[j] == data[j - |h|];
    if j == |c| - 1 {
      OneBitInCheck(k, typ, sq, data, b, stale);
    } else if j >= |h| {
      OneBitInDataIsRefused(k, typ, sq, data, 1, j - |h|, b, stale);
    } else if IsLong(|data|, 1) {
      OneBitInLongHeader(k, typ, sq, data, 1, j, b, stale);
    } else if j == 1 {
      OneBitInNumber(k, typ, sq, data, 1, b, stale);
    } else {
      OneBitInType(k, typ, sq, data, 1, b, stale);
    }
  }

  /** Too few bytes, an impossible number, an echo of a reply, a length that leaves no room for the
      block check. */
  lemma OthersAreRefused(k: Config, m: seq<byte>, n: int)
    requires ValidConfig(k) && |m| >= MEMORY
    ensures n < 4 ==> Parse(k, m, n) == TooShort
    ensures n >= 4 && !(32 <= m[1] <= 95) ==> Parse(k, m, n) == BadSequence
    ensures n >= 4 && 32 <= m[1] <= 95 && k.receiving && (m[2] == 'N' as int || m[2] == 'Y' as int) ==> Parse(k, m, n) == Echo
    ensures n >= 4 && 32 <= m[1] <= 95 && !k.receiving && !k.initial && m[2] != 'S' as int && 32 < m[0] < k.bct + 34 ==>
      Parse(k, m, n) == BadLength
  {
    hide CString, Sum6, CheckOk;
  }

  /** An error packet that carries the one-character check is heard under the longer checks as well: its
      type and number are right, and so is its text unless the longer check matches by chance. */
  lemma ErrorIsHeard(k: Config, sq: nat, data: seq<byte>, stale: seq<byte>)
    requires ValidConfig(k) && k.bct != 1 && !k.initial && Sendable('E' as int, sq, data, 1) && !IsLong(|data|, 1)
    requires |data| >= k.bct - 1 && ContentSize(|data|, 1) + 1 + |stale| >= MEMORY
    ensures var c := Content('E' as int, sq, data, 1);
      var n := |data| - (k.bct - 1);
      var p, accident := Parse(k, c + [NUL] + stale, |c|), CheckOk(c[3 + n..3 + n + k.bct], c[..3 + n]);
      p == Good('E' as int, sq, if accident then data[..n] else data)
  {
    hide Header, CheckBytes, CString, CheckOk, Sum6, ToChar, UnChar;
    var typ: byte := 'E' as int;
    var body, c := Body(typ, sq, data, 1), Content(typ, sq, data, 1);
    var m, n := c + [NUL] + stale, |data| - (k.bct - 1);
    BodyIsClean(typ, sq, data, 1);
    CheckIsSum(body);
    ErrorSlices(sq, data, n, k.bct, m);
    UnToChar(|data| + 3);
    UnToChar(sq);
    assert m[..3 + n] == c[..3 + n] && m[3 + n..3 + n + k.bct] == c[3 + n..3 + n + k.bct];
  }

  lemma ErrorSlices(sq: nat, data: seq<byte>, n: nat, bct: nat, m: seq<byte>)
    requires Sendable('E' as int, sq, data, 1) && !IsLong(|data|, 1) && 1 <= bct <= 3 && n + bct - 1 == |data|
    requires Content('E' as int, sq, data, 1) <= m
    ensures var body := Body('E' as int, sq, data, 1);
      && |m| >= |body| + 1 && |body| == 3 + |data|
      && m[0] == ToChar(|data| + 3) && m[1] == ToChar(sq) && m[2] == 'E' as int
      && CString(m[..3 + n]) == m[..3 + n] && m[..3 + |data|] == body
      && m[3..3 + n] == data[..n] && m[3..3 + |data|] == data && m[3 + |data|] == CheckBytes(1, body)[0]
  {
    hide CheckBytes, CString, ToChar;
    var body, c := Body('E' as int, sq, data, 1), Content('E' as int, sq, data, 1);
    BodyIsClean('E' as int, sq, data, 1);
    assert c == body + CheckBytes(1, body);
    assert m[..3 + |data|] == c[..3 + |data|] == body;
    assert m[..3 + n] == body[..3 + n] && NUL !in body[..3 + n];
    CStringOfClean(m[..3 + n]);
    assert m[3..3 + |data|] == body[3..] == data;
    assert m[3..3 + n] == data[..n];
  }

  lemma CheckIsSum(s: seq<byte>)
    ensures UnChar(CheckBytes(1, s)[0]) == Sum6(s)
  {
    UnToChar(Sum6(s));
  }
}
