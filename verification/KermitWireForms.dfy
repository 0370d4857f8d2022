/**
 What the encoding looks like on the wire, byte for byte: the two sides agree not only with each
 other but with the protocol.
 */
module KermitWireForms {
  import opened Bytes
  import opened KermitBytes
  import opened KermitCodec
  import opened KermitPackets
  import opened KermitCheck
  import opened KermitFrame

  // ------------------------------------------------------------------ control prefixing

  lemma XorIs(x: bv8)
    ensures (x ^ 64) as int == if (x as int / 64) % 2 == 1 then x as int - 64 else x as int + 64
  {
    assert x ^ 64 == if x & 64 == 0 then x + 64 else x - 64;
  }

  /** Making a control character printable, and back, is flipping bit 6. */
  lemma CtlFlipsOneBit(b: byte)
    ensures (Ctl(b) as bv8) == (b as bv8) ^ 64
  {
    var x := b as bv8;
    var y := x ^ 64;
    XorIs(x);
    FromAndTo(y);
    ToAndFrom(b);
    assert y as int == Ctl(b);
  }

  lemma FromAndTo(y: bv8)
    ensures (y as int) as bv8 == y
  {
  }

  function Hex(n: int): (x: bv8)
    requires 0 <= n < 16
    ensures x < 16 && x as int == n
  {
    if n == 0 then 0 else if n == 1 then 1 else if n == 2 then 2 else if n == 3 then 3
    else if n == 4 then 4 else if n == 5 then 5 else if n == 6 then 6 else if n == 7 then 7
    else if n == 8 then 8 else if n == 9 then 9 else if n == 10 then 10 else if n == 11 then 11
    else if n == 12 then 12 else if n == 13 then 13 else if n == 14 then 14 else 15
  }

  lemma TwoHexes(x: bv8, y: bv8)
    requires x < 16 && y < 16
    ensures (16 * x + y) as int == 16 * (x as int) + y as int
  {
  }

  lemma ToAndFrom(b: byte)
    ensures (b as bv8) as int == b
  {
    var x, y := Hex(b / 16), Hex(b % 16);
    TwoHexes(x, y);
    FromAndTo(16 * x + y);
  }

  /** How a byte travels: "#@", "#S" and "#M" for NUL, packet start and packet end, the prefixes
      doubled or prefixed, every other byte as it is. */
  lemma QuoteForm(k: Codec, b: byte)
    ensures b == 0 ==> Quote(k, b) == [35, 64]
    ensures b == 19 ==> Quote(k, b) == [35, 83]
    ensures b == 13 ==> Quote(k, b) == [35, 77]
    ensures b == 35 ==> Quote(k, b) == [35, 35]
    ensures k.repeats && Acceptable(k.rptq) && b == k.rptq ==> Quote(k, b) == [35, b]
    ensures b !in {0, 13, 19, 35} && (k.repeats ==> b != k.rptq) ==> Quote(k, b) == [b]
  {
  }

  lemma DecodesToOne(k: Codec, s: seq<byte>, b: byte)
    requires DecodeData(k, s) == Some([b])
    ensures s != [] && ReadItem(k, s).Item? && ReadItem(k, s) == Item(1, b, |s|)
  {
    var it := ReadItem(k, s);
    var rest := DecodeData(k, s[it.size..]);
    var all := Copies(it.ch, it.count) + rest.value;
    assert |all| == 1 && all[0] == b;
    if it.size < |s| {
      SomethingDecodes(k, s[it.size..]);
    }
  }

  lemma SomethingDecodes(k: Codec, s: seq<byte>)
    requires s != [] && DecodeData(k, s).Some?
    ensures DecodeData(k, s).value != []
  {
    var it := ReadItem(k, s);
    assert it.count >= 1;
  }

  /** These strings, and without a repeat prefix no others, decode to the three reserved bytes. */
  lemma ReservedFormIff(k: Codec, s: seq<byte>)
    requires Clean(s) && (k.repeats ==> k.rptq != 35 && (s != [] ==> s[0] != k.rptq))
    ensures DecodeData(k, s) == Some([0]) <==> s == [35, 64]
    ensures DecodeData(k, s) == Some([19]) <==> s == [35, 83]
    ensures DecodeData(k, s) == Some([13]) <==> s == [35, 77]
  {
    forall b: byte | b in {0, 13, 19}
      ensures DecodeData(k, s) == Some([b]) <==> s == [35, Ctl(b)]
    {
      if DecodeData(k, s) == Some([b]) {
        DecodesToOne(k, s, b);
        assert s == [35, Ctl(b)];
      }
      if s == [35, Ctl(b)] {
        PrefixedDecodes(k, b);
      }
    }
  }

  lemma PrefixedDecodes(k: Codec, b: byte)
    requires b in {0, 13, 19} && (k.repeats ==> k.rptq != 35)
    ensures DecodeData(k, [35, Ctl(b)]) == Some([b])
  {
    var s := [35, Ctl(b)];
    assert ReadItem(k, s) == Item(1, b, 2);
    assert s[2..] == [];
    assert Copies(b, 1) + [] == [b];
  }

  // ------------------------------------------------------------------ runs

  /** A run of three to 236 equal bytes travels as the repeat prefix, the count plus 19 and the byte. */
  lemma UnitForm(k: Codec, a: byte, n: nat)
    requires 2 <= n <= 236
    ensures Unit(k, a, n) == [k.rptq, n + 19] + Quote(k, a)
  {
  }

  lemma RestOfCopies(a: byte, n: nat)
    ensures Copies(a, n + 1)[1..] == Copies(a, n) && Copies(a, n + 1)[0] == a
  {
  }

  lemma {:induction false} RunOfRest(k: Codec, a: byte, i: nat, m: nat)
    requires k.repeats && 1 <= i && i + m <= 236
    ensures StepBytes(Runs(k, a, i, Copies(a, m))) == Close(k, a, i + m).head + Close(k, a, i + m).tail
    decreases m
  {
    hide Close;
    var s := Emits(k, a, i, Copies(a, m));
    if m > 0 {
      RestOfCopies(a, m - 1);
      RunOfRest(k, a, i + 1, m - 1);
      FirstStep(s, RunsAfter(k, a, i, Copies(a, m)));
      assert Counted(k, a, i, Copies(a, m));
    } else {
      FirstStep(s, []);
      assert [s] + [] == [s];
    }
  }

  lemma FirstStep(s: Step, more: seq<Step>)
    ensures StepBytes([s] + more) == s.head + s.tail + StepBytes(more)
    ensures more == [] ==> StepBytes([s] + more) == s.head + s.tail
    ensures s == Step([], []) ==> StepBytes([s] + more) == StepBytes(more)
  {
    assert ([s] + more)[1..] == more;
  }

  /** How a file of `n` equal bytes travels when runs are compressed: a pair as two bytes, from three
      on as one unit. */
  lemma RunForm(k: Codec, a: byte, n: nat)
    requires k.repeats && 1 <= n <= 236
    ensures StepBytes(FileSteps(k, Copies(a, n))) ==
      if n == 1 then Quote(k, a) else if n == 2 then Quote(k, a) + Quote(k, a) else [k.rptq, n + 19] + Quote(k, a)
  {
    hide StepBytes, Runs, Quote;
    RestOfCopies(a, n - 1);
    RunOfRest(k, a, 1, n - 1);
    var q := Quote(k, a);
    assert [] + q == q && [] + Unit(k, a, n) == Unit(k, a, n);
  }

  lemma {:induction false} LongRun(k: Codec, a: byte, i: nat, m: nat)
    requires k.repeats && 1 <= i <= 236 && i + m > 236
    ensures StepBytes(Runs(k, a, i, Copies(a, m))) ==
      [k.rptq, 255] + Quote(k, a) + StepBytes(FileSteps(k, Copies(a, i + m - 236)))
    decreases m
  {
    hide Quote;
    var s, more := Emits(k, a, i, Copies(a, m)), RunsAfter(k, a, i, Copies(a, m));
    RestOfCopies(a, m - 1);
    FirstStep(s, more);
    if i < 236 {
      LongRun(k, a, i + 1, m - 1);
      assert Counted(k, a, i, Copies(a, m));
    } else {
      assert s == Step([], Unit(k, a, 236));
      assert [] + Unit(k, a, 236) == [k.rptq, 255] + Quote(k, a);
    }
  }

  /** A longer run is cut after 236 bytes. */
  lemma LongRunForm(k: Codec, a: byte, n: nat)
    requires k.repeats && n > 236
    ensures StepBytes(FileSteps(k, Copies(a, n))) ==
      [k.rptq, 255] + Quote(k, a) + StepBytes(FileSteps(k, Copies(a, n - 236)))
  {
    RestOfCopies(a, n - 1);
    LongRun(k, a, 1, n - 1);
  }

  /** A byte that starts no run travels by itself. */
  lemma LoneForm(k: Codec, a: byte, rest: seq<byte>)
    requires !k.repeats || rest == [] || rest[0] != a
    ensures StepBytes(FileSteps(k, [a] + rest)) == Quote(k, a) + StepBytes(FileSteps(k, rest))
  {
    hide Quote;
    assert ([a] + rest)[1..] == rest;
    FirstStep(Close(k, a, 1), FileSteps(k, rest));
    assert RunsAfter(k, a, 1, rest) == FileSteps(k, rest);
    assert [] + Quote(k, a) == Quote(k, a);
  }

  // ------------------------------------------------------------------ counts read back

  /** A repeated item is read with the count byte less 19; a count of 0 is taken for 1. */
  lemma RepeatForm(k: Codec, c: byte, a: byte, rest: seq<byte>)
    requires k.repeats && a != 35 && k.rptq != 35
    ensures ReadItem(k, [k.rptq, c, a] + rest) == Item(if c == 19 then 1 else (c - 19) % 256, a, 3)
  {
    var m := [k.rptq, c, a] + rest;
    assert m[0] == k.rptq && m[1] == c && m[2] == a;
  }

  /** A byte behind the control prefix is turned back when its low seven bits are "@", "S" or "M", and
      taken as it is otherwise. */
  lemma PrefixedForm(k: Codec, c: byte, rest: seq<byte>)
    requires k.repeats ==> k.rptq != 35
    ensures ReadItem(k, [35, c] + rest) ==
      Item(1, if c in {64, 83, 77} then c - 64 else if c in {192, 211, 205} then c - 64 else c, 2)
  {
    var m := [35, c] + rest;
    assert m[0] == 35 && m[1] == c;
  }

  // ------------------------------------------------------------------ frames

  /** Six bits of the byte sum, the two above them added in. */
  function Fold(sum: nat): nat { (sum % 64 + (sum / 64) % 4) % 64 }

  lemma FoldIs(s: seq<byte>)
    ensures Sum6(s) == Fold(Sum(s))
  {
    hide Sum;
  }

  lemma ToCharIs(n: int)
    requires 0 <= n <= 223
    ensures ToChar(n) == n + 32
  {
  }

  /** A short frame: packet start, length, number, type, data, block check, packet end; every number
      with 32 added. */
  lemma ShortFrameForm(typ: byte, sq: nat, data: seq<byte>, bct: nat)
    requires 1 <= bct <= 3 && |data| + bct <= 92 && sq < 64
    ensures var body := [|data| + bct + 34, sq + 32, typ] + data;
      Frame(typ, sq, data, bct) == [19] + (body + CheckBytes(bct, CString(body))) + [13]
  {
    hide CheckBytes, CString, ToChar;
    ToCharIs(|data| + bct + 2);
    ToCharIs(sq);
    assert Header(typ, sq, |data|, bct) == [|data| + bct + 34, sq + 32, typ];
  }

  /** A long frame says 0 for its length, and gives it in two digits of base 95 behind the type, with a
      check of their own. */
  lemma LongFrameForm(typ: byte, sq: nat, data: seq<byte>, bct: nat)
    requires 1 <= bct <= 3 && 92 < |data| + bct <= 9024 && sq < 64
    ensures var n := |data| + bct;
      var five := [32, sq + 32, typ, n / 95 + 32, n % 95 + 32];
      var body := five + [Fold(Sum(CString(five))) + 32] + data;
      Frame(typ, sq, data, bct) == [19] + (body + CheckBytes(bct, CString(body))) + [13]
  {
    hide CheckBytes, CString, ToChar, Sum6, Sum, Fold;
    var n := |data| + bct;
    ToCharIs(0);
    ToCharIs(sq);
    ToCharIs(n / 95);
    ToCharIs(n % 95);
    var five := [32, sq + 32, typ, n / 95 + 32, n % 95 + 32];
    assert [ToChar(0), ToChar(sq), typ, ToChar(n / 95), ToChar(n % 95)] == five;
    FoldIs(CString(five));
    ToCharIs(Sum6(CString(five)));
    assert Header(typ, sq, |data|, bct) == five + [Fold(Sum(CString(five))) + 32];
  }

  /** The block checks as characters: six bits each, the high bits first. */
  lemma CheckForm(s: seq<byte>)
    ensures CheckBytes(1, s) == [Fold(Sum(s)) + 32]
    ensures CheckBytes(2, s) == [Sum(s) / 64 % 64 + 32, Sum(s) % 64 + 32]
    ensures var c := CrcValue(s); CheckBytes(3, s) == [c / 4096 + 32, c / 64 % 64 + 32, c % 64 + 32]
  {
    hide ToChar, Sum, CrcValue, Sum6, Fold;
    FoldIs(s);
    var c, t := CrcValue(s), Sum(s);
    ToCharIs(Sum6(s));
    ToCharIs(t / 64 % 64);
    ToCharIs(t % 64);
    TopDigit(c);
    ToCharIs(c / 4096);
    ToCharIs(c / 64 % 64);
    ToCharIs(c % 64);
  }

  lemma TopDigit(c: nat)
    requires c < 0x10000
    ensures (c / 4096) % 16 == c / 4096
  {
  }

  /** The first data packet of a file "A" with block check 1. */
  lemma FrameOfA()
    ensures Frame('D' as int, 1, [65], 1) == [19, 36, 33, 68, 65, 45, 13]
  {
    hide CheckBytes, CString, Frame;
    var body := [36, 33, 68, 65];
    assert [36, 33, 68] + [65] == body;
    ShortFrameForm('D' as int, 1, [65], 1);
    CStringOfClean(body);
    CheckOfA();
    assert [19] + (body + [45]) + [13] == [19, 36, 33, 68, 65, 45, 13];
  }

  lemma CheckOfA()
    ensures CheckBytes(1, [36, 33, 68, 65]) == [45]
  {
    hide Sum, CheckBytes;
    SumOfFour(36, 33, 68, 65);
    CheckForm([36, 33, 68, 65]);
    assert Fold(202) == 13;
  }

  lemma CStringOfClean(s: seq<byte>)
    requires NUL !in s
    ensures CString(s) == s
  {
    if s != [] {
      CStringOfClean(s[1..]);
    }
  }

  lemma SumOfFour(a: byte, b: byte, c: byte, d: byte)
    ensures Sum([a, b, c, d]) == (a as int) + b + c + d
  {
    assert [a, b, c, d][1..] == [b, c, d] && [b, c, d][1..] == [c, d] && [c, d][1..] == [d] && [d][1..] == [];
    assert Sum([d]) == d;
    assert Sum([c, d]) == (c as int) + d;
    assert Sum([b, c, d]) == (b as int) + c + d;
  }

  lemma CrcStep(crc: bv16, b: byte, rest: seq<byte>)
    ensures CrcFrom(crc, [b] + rest) == CrcFrom(CrcByte(crc, b), rest)
  {
    assert ([b] + rest)[1..] == rest;
  }

  /** One digit more: the register with the digit in it, and after each of the eight bits. */
  lemma DigitStep(crc: bv16, d: byte, xs: seq<bv16>, rest: seq<byte>)
    requires 49 <= d <= 57 && |xs| == 9 && xs[0] == crc ^ (0x30 | Nibble(d - 48))
    requires forall i :: 0 <= i < 8 ==> xs[i + 1] == Bit(xs[i])
    ensures CrcFrom(crc, [d] + rest) == CrcFrom(xs[8], rest)
  {
    hide Bit;
    assert Word(d) == 0x30 | Nibble(d - 48);
    assert xs[1] == Bit(xs[0]) && xs[2] == Bit(xs[1]) && xs[3] == Bit(xs[2]) && xs[4] == Bit(xs[3]);
    assert xs[5] == Bit(xs[4]) && xs[6] == Bit(xs[5]) && xs[7] == Bit(xs[6]) && xs[8] == Bit(xs[7]);
    CrcStep(crc, d, rest);
  }

  lemma FirstDigits()
    ensures CrcFrom(0x0000, [49, 50, 51, 52, 53, 54, 55, 56, 57]) == CrcFrom(0x5a78, [52, 53, 54, 55, 56, 57])
  {
    hide CrcFrom;
    DigitStep(0x0000, 49, [0x0031, 0x8410, 0x4208, 0x2104, 0x1082, 0x0841, 0x8028, 0x4014, 0x200a], [50, 51, 52, 53, 54, 55, 56, 57]);
    assert [49] + [50, 51, 52, 53, 54, 55, 56, 57] == [49, 50, 51, 52, 53, 54, 55, 56, 57];
    DigitStep(0x200a, 50, [0x2038, 0x101c, 0x080e, 0x0407, 0x860b, 0xc70d, 0xe78e, 0x73c7, 0xbdeb], [51, 52, 53, 54, 55, 56, 57]);
    assert [50] + [51, 52, 53, 54, 55, 56, 57] == [50, 51, 52, 53, 54, 55, 56, 57];
    DigitStep(0xbdeb, 51, [0xbdd8, 0x5eec, 0x2f76, 0x17bb, 0x8fd5, 0xc3e2, 0x61f1, 0xb4f0, 0x5a78], [52, 53, 54, 55, 56, 57]);
    assert [51] + [52, 53, 54, 55, 56, 57] == [51, 52, 53, 54, 55, 56, 57];
  }

  lemma NextDigits()
    ensures CrcFrom(0x5a78, [52, 53, 54, 55, 56, 57]) == CrcFrom(0x11fd, [55, 56, 57])
  {
    hide CrcFrom;
    DigitStep(0x5a78, 52, [0x5a4c, 0x2d26, 0x1693, 0x8f41, 0xc3a8, 0x61d4, 0x30ea, 0x1875, 0x8832], [53, 54, 55, 56, 57]);
    assert [52] + [53, 54, 55, 56, 57] == [52, 53, 54, 55, 56, 57];
    DigitStep(0x8832, 53, [0x8807, 0xc00b, 0xe40d, 0xf60e, 0x7b07, 0xb98b, 0xd8cd, 0xe86e, 0x7437], [54, 55, 56, 57]);
    assert [53] + [54, 55, 56, 57] == [53, 54, 55, 56, 57];
    DigitStep(0x7437, 54, [0x7401, 0xbe08, 0x5f04, 0x2f82, 0x17c1, 0x8fe8, 0x47f4, 0x23fa, 0x11fd], [55, 56, 57]);
    assert [54] + [55, 56, 57] == [54, 55, 56, 57];
  }

  lemma LastDigits()
    ensures CrcFrom(0x11fd, [55, 56, 57]) == CrcFrom(0x2189, [])
  {
    hide CrcFrom;
    DigitStep(0x11fd, 55, [0x11ca, 0x08e5, 0x807a, 0x403d, 0xa416, 0x520b, 0xad0d, 0xd28e, 0x6947], [56, 57]);
    assert [55] + [56, 57] == [55, 56, 57];
    DigitStep(0x6947, 56, [0x697f, 0xb0b7, 0xdc53, 0xea21, 0xf118, 0x788c, 0x3c46, 0x1e23, 0x8b19], [57]);
    assert [56] + [57] == [56, 57];
    DigitStep(0x8b19, 57, [0x8b20, 0x4590, 0x22c8, 0x1164, 0x08b2, 0x0459, 0x8624, 0x4312, 0x2189], []);
    assert [57] + [] == [57];
  }

  /** The published check value of this CRC: that of the nine digits is 0x2189. */
  lemma CrcOfDigits()
    ensures Crc([49, 50, 51, 52, 53, 54, 55, 56, 57]) == 0x2189
  {
    hide CrcFrom;
    FirstDigits();
    NextDigits();
    LastDigits();
    NothingLeft(0x2189);
  }

  lemma NothingLeft(crc: bv16)
    ensures CrcFrom(crc, []) == crc
  {
  }
}
