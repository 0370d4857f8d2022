/**
 The CRC over a file: 32 bits, most significant bit first, polynomial 0x04C11DB7, over
 little-endian words. The nibble table against the bit-by-bit definition, the file loop against
 the list of words, and what the result tells apart.
 */
module FileCrc {

  type word = bv32
  type octet = bv8

  const POLY: word := 0x04C11DB7

  const ENOENT := 2
  const EIO := 5
  const EINVAL := 22

  function Xor(a: word, b: word): word { a ^ b }

  // ------------------------------------------------------------------ bit by bit

  /** One bit: shift out the top bit, and subtract the polynomial when it was set. */
  function Bit(c: word): word {
    if c >> 31 == 1 then Xor(Double(c), POLY) else Double(c)
  }

  function Double(c: word): word { c << 1 }

  function Bits(c: word, n: nat): word
    decreases n
  {
    if n == 0 then c else Bits(Bit(c), n - 1)
  }

  /** The register after one data word. */
  function Accumulate(c: word, data: word): word { Bits(Xor(c, data), 32) }

  function Crc(c: word, words: seq<word>): word
    decreases |words|
  {
    if words == [] then c else Crc(Accumulate(c, words[0]), words[1..])
  }

  // ------------------------------------------------------------------ nibble by nibble

  function Table(n: word): word {
    if n == 0 then 0x00000000 else if n == 1 then 0x04C11DB7 else if n == 2 then 0x09823B6E else if n == 3 then 0x0D4326D9
    else if n == 4 then 0x130476DC else if n == 5 then 0x17C56B6B else if n == 6 then 0x1A864DB2 else if n == 7 then 0x1E475005
    else if n == 8 then 0x2608EDB8 else if n == 9 then 0x22C9F00F else if n == 10 then 0x2F8AD6D6 else if n == 11 then 0x2B4BCB61
    else if n == 12 then 0x350C9B64 else if n == 13 then 0x31CD86D3 else if n == 14 then 0x3C8EA00A else 0x384FBDBD
  }

  function Nibble(c: word): word { Xor(c << 4, Table(c >> 28)) }

  lemma ShiftOfXor(x: word, y: word)
    ensures Double(x ^ y) == Double(x) ^ Double(y)
    ensures (x ^ y) >> 31 == (x >> 31) ^ (y >> 31)
    ensures x >> 31 == 0 || x >> 31 == 1
    ensures y >> 31 == 0 || y >> 31 == 1
  {
  }

  lemma BitOfXor(x: word, y: word)
    ensures Bit(x ^ y) == Bit(x) ^ Bit(y)
  {
    hide Double;
    ShiftOfXor(x, y);
    if x >> 31 == 1 {
      if y >> 31 == 1 {} else {}
    } else {
      if y >> 31 == 1 {} else {}
    }
  }

  lemma BitIsLinear(x: word, y: word)
    ensures Bit(Xor(x, y)) == Xor(Bit(x), Bit(y))
  {
    hide Bit;
    BitOfXor(x, y);
  }

  function Bits4(c: word): word { Bit(Bit(Bit(Bit(c)))) }

  lemma Bits4IsLinear(x: word, y: word)
    ensures Bits4(Xor(x, y)) == Xor(Bits4(x), Bits4(y))
  {
    hide Bit, Xor;
    BitIsLinear(x, y);
    BitIsLinear(Bit(x), Bit(y));
    BitIsLinear(Bit(Bit(x)), Bit(Bit(y)));
    BitIsLinear(Bit(Bit(Bit(x))), Bit(Bit(Bit(y))));
  }

  lemma LowDoubles(c: word)
    requires c < 0x10000000
    ensures Bit(c) == Double(c) && Bit(Double(c)) == Double(Double(c))
  {
  }

  lemma LowDoublesAgain(c: word)
    requires c < 0x10000000
    ensures Bit(Double(Double(c))) == Double(Double(Double(c)))
    ensures Bit(Double(Double(Double(c)))) == Double(Double(Double(Double(c))))
  {
  }

  lemma FourDoubles(c: word)
    ensures Double(Double(Double(Double(c)))) == c << 4
  {
  }

  lemma LowBitsShift(c: word)
    requires c < 0x10000000
    ensures Bits4(c) == c << 4
  {
    hide Bit, Double;
    LowDoubles(c);
    LowDoublesAgain(c);
    FourDoubles(c);
  }

  lemma TopBitsAreTable(n: word)
    requires n < 16
    ensures Bits4(n << 28) == Table(n)
  {
  }

  lemma TopAndLow(c: word)
    ensures c >> 28 < 16 && c & 0x0FFFFFFF < 0x10000000
    ensures Xor((c >> 28) << 28, c & 0x0FFFFFFF) == c && (c & 0x0FFFFFFF) << 4 == c << 4
  {
  }

  lemma XorCommutes(x: word, y: word)
    ensures Xor(x, y) == Xor(y, x)
  {
  }

  /** The table steps over four bits at once. */
  lemma TableIsFourBits(c: word)
    ensures Nibble(c) == Bit(Bit(Bit(Bit(c))))
  {
    hide Table, Bit, Xor;
    TopAndLow(c);
    var top: word, low: word := c >> 28, c & 0x0FFFFFFF;
    Bits4IsLinear(top << 28, low);
    TopBitsAreTable(top);
    LowBitsShift(low);
    XorCommutes(Table(top), c << 4);
  }

  lemma {:induction false} BitsSplit(c: word, m: nat, n: nat)
    ensures Bits(c, m + n) == Bits(Bits(c, m), n)
    decreases m
  {
    hide Bit;
    if m > 0 {
      BitsSplit(Bit(c), m - 1, n);
    }
  }

  lemma FourBits(c: word)
    ensures Bits(c, 4) == Nibble(c)
  {
    TableIsFourBits(c);
    hide Bit, Nibble;
    assert Bits(c, 4) == Bits(Bit(c), 3);
    assert Bits(Bit(c), 3) == Bits(Bit(Bit(c)), 2);
    assert Bits(Bit(Bit(c)), 2) == Bits(Bit(Bit(Bit(c))), 1);
  }

  lemma {:induction false} NibblesAreBits(c: word, n: nat)
    ensures Bits(c, 4 * (n + 1)) == Bits(Nibble(c), 4 * n)
  {
    hide Nibble, Bits;
    FourBits(c);
    BitsSplit(c, 4, 4 * n);
  }

  /** One data word, four bits at a time. */
  method Crc32Fast(crc: word, data: word) returns (r: word)
    ensures r == Accumulate(crc, data)
  {
    hide Bits, Nibble;
    r := Xor(crc, data);
    var i := 0;
    while i < 8
      invariant 0 <= i <= 8 && Bits(r, 32 - 4 * i) == Accumulate(crc, data)
    {
      NibblesAreBits(r, 7 - i);
      r := NibbleStep(r);
      i := i + 1;
    }
    NoBits(r);
  }

  method NibbleStep(c: word) returns (r: word)
    ensures r == Nibble(c)
  {
    r := Xor(c << 4, Table(c >> 28));
  }

  lemma NoBits(c: word)
    ensures Bits(c, 0) == c
  {
  }

  // ------------------------------------------------------------------ the file as words

  const FILL: word := 0xFF

  function Wide(b: octet): word { b as word }

  /** Four bytes, low byte first. */
  function WordOf(a: octet, b: octet, c: octet, d: octet): word {
    Join(Wide(a), Wide(b), Wide(c), Wide(d))
  }

  function Join(a: word, b: word, c: word, d: word): word { a | (b << 8) | (c << 16) | (d << 24) }

  /** The last bytes of a file fill the top of a word; the rest of it is ones. */
  function TailOf(s: seq<octet>): word
    requires 1 <= |s| <= 3
  {
    if |s| == 1 then WordOf(0xFF, 0xFF, 0xFF, s[0])
    else if |s| == 2 then WordOf(0xFF, 0xFF, s[0], s[1])
    else WordOf(0xFF, s[0], s[1], s[2])
  }

  function Words(s: seq<octet>): seq<word>
    decreases |s|
  {
    if |s| == 0 then []
    else if |s| < 4 then [TailOf(s)]
    else [WordOf(s[0], s[1], s[2], s[3])] + Words(s[4..])
  }

  // ------------------------------------------------------------------ the file loop

  /** What computing a file's CRC ends with: the CRC, or an error code. */
  datatype Outcome = Ok(crc: word) | Err(code: int)

  /** The CRC of `length` bytes from `start` on, or of everything from there when `length` is 0. */
  function FileCrcOf(file: seq<octet>, start: nat, length: nat): Outcome {
    if file == [] then Err(ENOENT)
    else if start >= |file| || length > |file| || start % 4 != 0 then Err(EINVAL)
    else if length == 0 then Ok(Crc(0xFFFFFFFF, Words(file[start..])))
    else if start + length > |file| then Err(EIO)
    else Ok(Crc(0xFFFFFFFF, Words(file[start..start + length])))
  }

  /** The cache word as the program's memory holds it: what `n` bytes read leave of the last
      word. */
  function Loaded(file: seq<octet>, pos: nat, n: nat, cache: seq<octet>): seq<octet>
    requires pos + n <= |file| && n <= 4 && |cache| == 4
  {
    file[pos..pos + n] + cache[n..]
  }

  function CacheWord(cache: seq<octet>): word
    requires |cache| == 4
  {
    WordOf(cache[0], cache[1], cache[2], cache[3])
  }

  /** Moves the `n` bytes read to the top of the word and fills the rest with ones. */
  function Shifted(w: word, n: nat): word
    requires 1 <= n <= 3
  {
    if n == 1 then (w << 24) | (0xFFFFFFFF >> 8)
    else if n == 2 then (w << 16) | (0xFFFFFFFF >> 16)
    else (w << 8) | (0xFFFFFFFF >> 24)
  }

  /** Whatever the last read left in the cache is pushed out. */
  lemma TailIsFresh(n: nat, cache: seq<octet>)
    requires 1 <= n <= 3 && |cache| == 4
    ensures Shifted(CacheWord(cache), n) == TailOf(cache[..n])
  {
    hide Wide, Join, Shifted;
    ShiftedOne(Wide(cache[0]), Wide(cache[1]), Wide(cache[2]), Wide(cache[3]));
    ShiftedTwo(Wide(cache[0]), Wide(cache[1]), Wide(cache[2]), Wide(cache[3]));
    ShiftedThree(Wide(cache[0]), Wide(cache[1]), Wide(cache[2]), Wide(cache[3]));
    WideFill();
  }

  lemma WideFill()
    ensures Wide(0xFF) == FILL
  {
  }

  lemma ShiftedOne(a: word, b: word, c: word, d: word)
    ensures Shifted(Join(a, b, c, d), 1) == Join(FILL, FILL, FILL, a)
  {
  }

  lemma ShiftedTwo(a: word, b: word, c: word, d: word)
    ensures Shifted(Join(a, b, c, d), 2) == Join(FILL, FILL, a, b)
  {
  }

  lemma ShiftedThree(a: word, b: word, c: word, d: word)
    ensures Shifted(Join(a, b, c, d), 3) == Join(FILL, a, b, c)
  {
  }

  lemma CrcFirst(c: word, w: word, words: seq<word>)
    ensures Crc(c, [w] + words) == Crc(Accumulate(c, w), words)
  {
    assert ([w] + words)[1..] == words;
  }

  /** Reads up to `n` bytes into the cache; fewer at the end of the file. */
  method Fread(file: seq<octet>, pos: nat, n: nat, cache: array<octet>) returns (count: nat)
    requires pos <= |file| && n <= 4 == cache.Length
    modifies cache
    ensures count == if pos + n <= |file| then n else |file| - pos
    ensures cache[..] == Loaded(file, pos, count, old(cache[..]))
    ensures cache[..count] == file[pos..pos + count]
  {
    count := if pos + n <= |file| then n else |file| - pos;
    var i := 0;
    while i < count
      invariant 0 <= i <= count
      invariant forall j :: 0 <= j < 4 ==> cache[j] == if j < i then file[pos + j] else old(cache[j])
    {
      cache[i] := file[pos + i];
      i := i + 1;
    }
  }

  /** The CRC of a range of a file. */
  method CalcCrcSoft(file: seq<octet>, start: nat, length: nat) returns (r: Outcome)
    ensures r == FileCrcOf(file, start, length)
  {
    hide Crc, Words;
    if |file| == 0 {
      return Err(ENOENT);
    }
    if start >= |file| || length > |file| || start % 4 != 0 {
      return Err(EINVAL);
    }
    assert length == 0 ==> file[start..] == file[start..|file|];
    r := CrcRange(file, start, if length != 0 then length else |file| - start);
  }

  /** Reads a range word by word. */
  method CrcRange(file: seq<octet>, start: nat, fsize: nat) returns (r: Outcome)
    requires start <= |file|
    ensures r == if start + fsize <= |file| then Ok(Crc(0xFFFFFFFF, Words(file[start..start + fsize]))) else Err(EIO)
  {
    hide Crc, Accumulate, Words, WordOf;
    var cache := new octet[4](i => 0);
    var crc: word := 0xFFFFFFFF;
    ghost var whole := start + fsize <= |file|;
    ghost var range := if whole then file[start..start + fsize] else [];
    var i := 0;
    while i < fsize / 4
      invariant 0 <= i <= fsize / 4 && start + 4 * i <= |file| && cache.Length == 4 && fresh(cache)
      invariant whole ==> Crc(crc, Words(range[4 * i..])) == Crc(0xFFFFFFFF, Words(range))
    {
      var count := Fread(file, start + 4 * i, 4, cache);
      if count != 4 {
        return Err(EIO);
      }
      if whole {
        PartOfRange(file, start, fsize, 4 * i, 4);
        assert cache[..] == cache[..4];
        NextWord(crc, range, i, cache[..]);
      }
      crc := Crc32Fast(crc, CacheWord(cache[..]));
      i := i + 1;
    }
    var left := fsize % 4;
    if left == 0 {
      NoWord(crc, range[|range|..]);
      return Ok(crc);
    }
    if whole {
      PartOfRange(file, start, fsize, 4 * i, left);
    }
    r := CrcTail(file, start + 4 * i, left, cache, crc);
  }

  /** Reads the last, incomplete word. */
  method CrcTail(file: seq<octet>, pos: nat, left: nat, cache: array<octet>, crc: word) returns (r: Outcome)
    requires pos <= |file| && 1 <= left <= 3 && cache.Length == 4
    modifies cache
    ensures r == if pos + left <= |file| then Ok(Crc(crc, Words(file[pos..pos + left]))) else Err(EIO)
  {
    hide Crc, Accumulate, Words, WordOf, TailOf, Shifted;
    var count := Fread(file, pos, left, cache);
    if count != left {
      return Err(EIO);
    }
    TailIsFresh(left, cache[..]);
    assert cache[..][..left] == file[pos..pos + left];
    LastWord(crc, file[pos..pos + left]);
    var c := Crc32Fast(crc, Shifted(CacheWord(cache[..]), left));
    return Ok(c);
  }

  lemma PartOfRange(file: seq<octet>, start: nat, size: nat, at: nat, n: nat)
    requires start + size <= |file| && at + n <= size
    ensures file[start..start + size][at..at + n] == file[start + at..start + at + n]
  {
    var x, y := file[start..start + size][at..at + n], file[start + at..start + at + n];
    forall k | 0 <= k < n
      ensures x[k] == y[k]
    {
    }
  }

  /** One word read moves the computation on by one word. */
  lemma NextWord(c: word, range: seq<octet>, i: nat, cache: seq<octet>)
    requires 4 * i + 4 <= |range| && |cache| == 4 && range[4 * i..4 * i + 4] == cache
    ensures Crc(c, Words(range[4 * i..])) == Crc(Accumulate(c, CacheWord(cache)), Words(range[4 * (i + 1)..]))
  {
    hide Crc, Accumulate, WordOf, TailOf;
    var rest := range[4 * i..];
    assert rest[..4] == cache && rest[4..] == range[4 * (i + 1)..];
    assert rest[0] == cache[0] && rest[1] == cache[1] && rest[2] == cache[2] && rest[3] == cache[3];
    CrcFirst(c, CacheWord(cache), Words(rest[4..]));
  }

  lemma LastWord(c: word, s: seq<octet>)
    requires 1 <= |s| <= 3
    ensures Crc(c, Words(s)) == Accumulate(c, TailOf(s))
  {
    hide Accumulate, TailOf;
    CrcFirst(c, TailOf(s), []);
  }

  lemma NoWord(c: word, s: seq<octet>)
    requires s == []
    ensures Crc(c, Words(s)) == c
  {
  }

  // ------------------------------------------------------------------ what the CRC tells apart

  lemma BitOfNothing(x: word)
    requires Bit(x) == 0
    ensures x == 0
  {
  }

  lemma XorOfSame(x: word, y: word)
    ensures Xor(x, x) == 0 && (Xor(x, y) == 0 ==> x == y)
  {
  }

  lemma XorCancels(c: word, x: word, y: word)
    ensures Xor(c, x) == Xor(c, y) || Xor(x, c) == Xor(y, c) ==> x == y
  {
  }

  lemma BitIsInjective(x: word, y: word)
    requires Bit(x) == Bit(y)
    ensures x == y
  {
    hide Bit, Xor;
    BitIsLinear(x, y);
    XorOfSame(Bit(x), Bit(y));
    BitOfNothing(Xor(x, y));
    XorOfSame(x, y);
  }

  lemma {:induction false} BitsAreInjective(x: word, y: word, n: nat)
    requires Bits(x, n) == Bits(y, n)
    ensures x == y
    decreases n
  {
    hide Bit;
    if n > 0 {
      BitsAreInjective(Bit(x), Bit(y), n - 1);
      BitIsInjective(x, y);
    }
  }

  /** A word steps different registers, and different words step a register, apart. */
  lemma AccumulateIsInjective(c: word, d: word, x: word, y: word)
    requires Accumulate(c, x) == Accumulate(d, y) && (c == d || x == y)
    ensures c == d && x == y
  {
    hide Bits, Xor;
    BitsAreInjective(Xor(c, x), Xor(d, y), 32);
    XorCancels(c, x, y);
    XorCancels(x, c, d);
  }

  lemma {:induction false} CrcIsInjective(c: word, d: word, words: seq<word>)
    requires Crc(c, words) == Crc(d, words)
    ensures c == d
    decreases |words|
  {
    hide Accumulate;
    if words != [] {
      CrcIsInjective(Accumulate(c, words[0]), Accumulate(d, words[0]), words[1..]);
      AccumulateIsInjective(c, d, words[0], words[0]);
    }
  }

  /** Two files of the same length that differ within one aligned word, the last incomplete one
      included, never have the same CRC. */
  lemma {:induction false} OneWordShows(c: word, x: seq<word>, y: seq<word>, i: nat)
    requires |x| == |y| && i < |x| && x[i] != y[i] && forall j :: 0 <= j < |x| && j != i ==> x[j] == y[j]
    ensures Crc(c, x) != Crc(c, y)
    decreases i
  {
    hide Accumulate;
    if i == 0 {
      assert x[1..] == y[1..];
      if Crc(c, x) == Crc(c, y) {
        CrcIsInjective(Accumulate(c, x[0]), Accumulate(c, y[0]), x[1..]);
        AccumulateIsInjective(c, c, x[0], y[0]);
      }
    } else {
      OneWordShows(Accumulate(c, x[0]), x[1..], y[1..], i - 1);
    }
  }

  lemma JoinIsInjective(a: word, b: word, c: word, d: word)
    requires a < 256 && b < 256 && c < 256 && d < 256
    ensures Join(a, b, c, d) & 0xFF == a && (Join(a, b, c, d) >> 8) & 0xFF == b
    ensures (Join(a, b, c, d) >> 16) & 0xFF == c && Join(a, b, c, d) >> 24 == d
  {
  }

  lemma WideIsInjective(a: octet, b: octet)
    ensures Wide(a) < 256 && (Wide(a) == Wide(b) ==> a == b)
  {
  }

  lemma WordOfIsInjective(a: octet, b: octet, c: octet, d: octet, a': octet, b': octet, c': octet, d': octet)
    requires WordOf(a, b, c, d) == WordOf(a', b', c', d')
    ensures a == a' && b == b' && c == c' && d == d'
  {
    hide Wide, Join;
    WideIsInjective(a, a');
    WideIsInjective(b, b');
    WideIsInjective(c, c');
    WideIsInjective(d, d');
    WideIsInjective(a', a);
    WideIsInjective(b', b);
    WideIsInjective(c', c);
    WideIsInjective(d', d);
    JoinIsInjective(Wide(a), Wide(b), Wide(c), Wide(d));
    JoinIsInjective(Wide(a'), Wide(b'), Wide(c'), Wide(d'));
  }

  lemma TailIsInjective(s: seq<octet>, t: seq<octet>)
    requires 1 <= |s| == |t| <= 3 && TailOf(s) == TailOf(t)
    ensures s == t
  {
    hide WordOf;
    var f: octet := 0xFF;
    if |s| == 1 {
      WordOfIsInjective(f, f, f, s[0], f, f, f, t[0]);
    } else if |s| == 2 {
      WordOfIsInjective(f, f, s[0], s[1], f, f, t[0], t[1]);
    } else {
      WordOfIsInjective(f, s[0], s[1], s[2], f, t[0], t[1], t[2]);
    }
  }

  /** Only word `i` of the two files may differ. */
  ghost predicate AlikeBut(s: seq<octet>, t: seq<octet>, i: nat) {
    |s| == |t| && forall k :: 0 <= k < |s| && k / 4 != i ==> s[k] == t[k]
  }

  ghost predicate DifferAt(x: seq<word>, y: seq<word>, i: nat) {
    |x| == |y| && i < |x| && x[i] != y[i] && forall j :: 0 <= j < |x| && j != i ==> x[j] == y[j]
  }

  lemma FirstDiffers(s: seq<octet>, t: seq<octet>, i: nat)
    requires AlikeBut(s, t, i) && |s| >= 4 && s[..4] != t[..4]
    ensures i == 0 && s[4..] == t[4..] && WordOf(s[0], s[1], s[2], s[3]) != WordOf(t[0], t[1], t[2], t[3])
  {
    hide WordOf;
    var k :| 0 <= k < 4 && s[k] != t[k];
    assert k / 4 == 0;
    forall j | 4 <= j < |s|
      ensures s[j] == t[j]
    {
      assert j / 4 != 0;
    }
    if WordOf(s[0], s[1], s[2], s[3]) == WordOf(t[0], t[1], t[2], t[3]) {
      WordOfIsInjective(s[0], s[1], s[2], s[3], t[0], t[1], t[2], t[3]);
    }
  }

  /** Files that differ within one aligned word of bytes have word lists that differ in that word
      alone. */
  lemma {:induction false} WordsDiffer(s: seq<octet>, t: seq<octet>, i: nat)
    requires AlikeBut(s, t, i) && s != t
    ensures DifferAt(Words(s), Words(t), i)
    decreases |s|
  {
    hide WordOf, TailOf;
    if |s| < 4 {
      assert forall k :: 0 <= k < |s| ==> k / 4 == 0;
      if |s| > 0 && TailOf(s) == TailOf(t) {
        TailIsInjective(s, t);
      }
    } else if s[..4] == t[..4] {
      WordsDiffer(s[4..], t[4..], i - 1);
      hide AlikeBut;
    } else {
      FirstDiffers(s, t, i);
    }
  }

  /** Two files of the same length that differ within four aligned bytes only, the last
      incomplete word included, always have different CRCs. */
  lemma ChangeIsSeen(s: seq<octet>, t: seq<octet>, i: nat)
    requires AlikeBut(s, t, i) && s != t
    ensures FileCrcOf(s, 0, 0) != FileCrcOf(t, 0, 0)
  {
    hide Words, Crc;
    WordsDiffer(s, t, i);
    OneWordShows(0xFFFFFFFF, Words(s), Words(t), i);
    assert s[0..] == s && t[0..] == t;
  }

  // ------------------------------------------------------------------ known answers

  /** When a CRC is computed at all: for a file that is not empty, a start within it and on a word
      boundary, and a length that the file has from there; a length beyond the whole file is
      refused at once, one that only runs out is noticed while reading. */
  lemma OutcomeIs(file: seq<octet>, start: nat, length: nat)
    ensures var r := FileCrcOf(file, start, length);
      && (r.Ok? <==> start < |file| && start % 4 == 0 && start + length <= |file|)
      && (r == Err(2) <==> |file| == 0)
      && (r == Err(5) <==> start < |file| && start % 4 == 0 && length <= |file| < start + length)
      && (r.Err? ==> r.code in {2, 5, 22})
  {
    hide Crc, Words;
  }

  /** One word, through the values of the register after each nibble. */
  lemma WordStep(c: word, data: word, xs: seq<word>, rest: seq<word>)
    requires |xs| == 9 && xs[0] == c ^ data && forall i :: 0 <= i < 8 ==> xs[i + 1] == Nibble(xs[i])
    ensures Crc(c, [data] + rest) == Crc(xs[8], rest)
  {
    hide Nibble, Bits;
    assert xs[1] == Nibble(xs[0]) && xs[2] == Nibble(xs[1]) && xs[3] == Nibble(xs[2]) && xs[4] == Nibble(xs[3]);
    assert xs[5] == Nibble(xs[4]) && xs[6] == Nibble(xs[5]) && xs[7] == Nibble(xs[6]) && xs[8] == Nibble(xs[7]);
    NibblesAreBits(xs[0], 7);
    NibblesAreBits(xs[1], 6);
    NibblesAreBits(xs[2], 5);
    NibblesAreBits(xs[3], 4);
    NibblesAreBits(xs[4], 3);
    NibblesAreBits(xs[5], 2);
    NibblesAreBits(xs[6], 1);
    NibblesAreBits(xs[7], 0);
    NoBits(xs[8]);
    CrcFirst(c, data, rest);
  }

  lemma FirstKnownWord(rest: seq<word>)
    ensures Crc(0xFFFFFFFF, [0x04030201] + rest) == Crc(0x1DABE74F, rest)
  {
    hide Crc;
    WordStep(0xFFFFFFFF, 0x04030201, [0xFBFCFDFE, 0x8780625D, 0x5E0EC868, 0xF729EDEB, 0x4AD1630D, 0xBE12460C, 0xCA6FABA1, 0x93F62174, 0x1DABE74F], rest);
  }

  lemma SecondKnownWord(rest: seq<word>)
    ensures Crc(0x1DABE74F, [0x05FFFFFF] + rest) == Crc(0x451ABB3A, rest)
  {
    hide Crc;
    WordStep(0x1DABE74F, 0x05FFFFFF, [0x185418B0, 0x818096B7, 0x3E0186C8, 0xED5B4A59, 0xE93A059A, 0xAF2EF9AA, 0xDD654C76, 0xE79941B3, 0x451ABB3A], rest);
  }

  lemma KnownWords(file: seq<octet>)
    requires file == [1, 2, 3, 4, 5]
    ensures Words(file) == [0x04030201, 0x05FFFFFF]
  {
    var tail := file[4..];
    assert tail == [5];
    assert Words(tail) == [TailOf(tail)];
    assert Words(file) == [WordOf(1, 2, 3, 4)] + Words(tail);
    assert WordOf(1, 2, 3, 4) == 0x04030201 && TailOf([5]) == 0x05FFFFFF;
  }

  /** The CRC of a file of the five bytes 1 to 5. */
  lemma KnownFile()
    ensures FileCrcOf([1, 2, 3, 4, 5], 0, 0) == Ok(0x451ABB3A)
  {
    hide Crc, Words;
    var file: seq<octet> := [1, 2, 3, 4, 5];
    assert file[0..] == file;
    KnownWords(file);
    var first: seq<word>, second: seq<word>, none: seq<word> := [0x04030201], [0x05FFFFFF], [];
    FirstKnownWord(second);
    SecondKnownWord(none);
    assert first + second == Words(file) && second + none == second;
    NothingMore(0x451ABB3A);
  }

  lemma NothingMore(c: word)
    ensures Crc(c, []) == c
  {
  }
}
