/**
 Taking a received packet apart, and the round trip: what the packet builder sends through
 the reader comes out of the parser unchanged.
 */
module KermitParse {
  import opened Bytes
  import opened KermitBytes
  import opened KermitCheck
  import opened KermitFrame

  /** What the parser needs to know: whether this side is receiving a file, whether it waits
      for the answer to its first packet, the block check in force, and whether type 3 is
      forced on every packet. */
  datatype Config = Config(receiving: bool, initial: bool, bct: nat, force3: bool)

  ghost predicate ValidConfig(k: Config) { 1 <= k.bct <= 3 && (k.force3 ==> k.bct == 3) }

  datatype Parsed =
    | TooShort | BadSequence | Echo | BadHeader | BadLength | BadCheck
    | Good(typ: byte, sq: nat, data: seq<byte>)

  /** Bitwise or of two non-negative integers. */
  function Or(x: nat, y: nat): nat {
    if x == 0 then y else if y == 0 then x
    else (if x % 2 == 1 || y % 2 == 1 then 1 else 0) + 2 * Or(x / 2, y / 2)
  }

  /** The parser may look a little past the packet buffer, into what lies behind it. */
  const MEMORY := P_BUFLEN + 6

  /** Where the data field starts. */
  function DataStart(m: seq<byte>): nat
    requires |m| >= 6
  {
    if UnChar(m[0]) == 0 then 6 else 3
  }

  function HeaderOk(m: seq<byte>): bool
    requires |m| >= 6
  {
    UnChar(m[0]) != 0 || UnChar(m[5]) == Sum6(CString(m[..5]))
  }

  function IsFirst(k: Config, m: seq<byte>): bool
    requires |m| >= 6
  {
    m[2] == 'S' as int || k.initial
  }

  /** Length of the data field, as the header claims. */
  function DataLength(k: Config, m: seq<byte>): int
    requires |m| >= 6
  {
    if IsFirst(k, m) then UnChar(m[0]) - (if k.force3 then 5 else 3)
    else if UnChar(m[0]) == 0 then UnChar(m[3]) * 95 + UnChar(m[4]) - k.bct
    else UnChar(m[0]) - k.bct - 2
  }

  function CheckLength(k: Config, m: seq<byte>): nat
    requires |m| >= 6
  {
    if IsFirst(k, m) then (if k.force3 then 3 else 1) else k.bct
  }

  /** Does the received block check `c` match string `s`? */
  function CheckOk(c: seq<byte>, s: seq<byte>): bool
    requires 1 <= |c| <= 3
  {
    if |c| == 1 then UnChar(c[0]) == Sum6(s)
    else if |c| == 2 then Or(UnChar(c[0]) * 64, UnChar(c[1])) == Sum(s)
    else Or(Or(UnChar(c[0]) * 4096, UnChar(c[1]) * 64), UnChar(c[2])) == CrcValue(s)
  }

  /** Takes apart the packet at the start of memory `m`; `n` bytes were stored by the reader.
      An error packet may carry a type 1 check whatever type is in force. */
  function Parse(k: Config, m: seq<byte>, n: int): Parsed
    requires ValidConfig(k) && |m| >= MEMORY
  {
    if n < 4 then TooShort
    else if UnChar(m[1]) > 63 then BadSequence
    else if k.receiving && (m[2] == 'N' as int || m[2] == 'Y' as int) then Echo
    else if !HeaderOk(m) then BadHeader
    else
      var start, len, chk := DataStart(m), DataLength(k, m), CheckLength(k, m);
      if len < 0 || len + chk + 1 >= P_BUFLEN then BadLength
      else
        var end := start + len;
        if CheckOk(m[end..end + chk], CString(m[..end])) then Good(m[2], UnChar(m[1]), m[start..end])
        else if m[2] == 'E' as int && chk > 1 && UnChar(m[end + chk - 1]) == Sum6(CString(m[..end + chk - 1])) then
          Good(m[2], UnChar(m[1]), m[start..end + chk - 1])
        else BadCheck
  }

  // ------------------------------------------------------------------ the parser, in place

  /** Compares the block check at `end` with the packet before it, which it terminates. */
  method TestCheck(chk: nat, end: nat, buf: array<byte>) returns (ok: bool)
    requires 1 <= chk <= 3 && end + chk < buf.Length
    modifies buf
    ensures ok == CheckOk(old(buf[end..end + chk]), CString(old(buf[..end])))
    ensures buf[..end] == old(buf[..end]) && buf[end] == NUL && buf[end + 1..] == old(buf[end + 1..])
  {
    hide CString, Sum6, Sum, Crc, Or;
    var c0 := buf[end];
    buf[end] := NUL;
    TerminatedAt(buf, 0, end);
    assert buf[0..end] == buf[..end] == old(buf[..end]);
    assert buf[end + 1..] == old(buf[end + 1..]);
    ghost var c := old(buf[end..end + chk]);
    assert c[0] == c0 && (chk > 1 ==> c[1] == buf[end + 1]) && (chk > 2 ==> c[2] == buf[end + 2]);
    if chk == 1 {
      var s := Chk1(buf, 0);
      ok := UnChar(c0) == s;
    } else if chk == 2 {
      var s := Chk2(buf, 0);
      ok := Or(UnChar(c0) * 64, UnChar(buf[end + 1])) == s;
    } else {
      var s := Chk3(buf, 0);
      ok := Or(Or(UnChar(c0) * 4096, UnChar(buf[end + 1]) * 64), UnChar(buf[end + 2])) == s as int;
    }
  }

  /** Tests the header check of a long packet and puts the buffer back as it was. */
  method TestHeader(buf: array<byte>) returns (ok: bool)
    requires buf.Length >= MEMORY && UnChar(buf[0]) == 0
    modifies buf
    ensures buf[..] == old(buf[..]) && ok == HeaderOk(old(buf[..]))
  {
    hide CString, Sum6;
    ghost var m := buf[..];
    var c := buf[5];
    buf[5] := NUL;
    TerminatedAt(buf, 0, 5);
    assert buf[0..5] == m[..5];
    var s := Chk1(buf, 0);
    ok := UnChar(c) == s;
    buf[5] := c;
    assert buf[..] == m;
  }

  lemma ShortHeaderIsOk(m: seq<byte>)
    requires |m| >= 6
    ensures UnChar(m[0]) != 0 ==> HeaderOk(m)
  {
  }

  /** Takes the packet in `buf` apart. A good packet's data field is left terminated at
      `buf[start..]`. */
  method ParseInPlace(k: Config, buf: array<byte>, n: int) returns (p: Parsed, start: nat)
    requires ValidConfig(k) && buf.Length >= MEMORY
    modifies buf
    ensures p == Parse(k, old(buf[..]), n)
    ensures p.Good? ==> start <= 6 && start + |p.data| < buf.Length && buf[start..start + |p.data|] == p.data && buf[start + |p.data|] == NUL
  {
    hide CString, Sum6, CheckOk, UnChar, HeaderOk;
    ghost var m := buf[..];
    start := 3;
    if n < 4 {
      return TooShort, start;
    }
    var rlen, rseq, rtyp := UnChar(buf[0]), UnChar(buf[1]), buf[2];
    if rseq > 63 {
      return BadSequence, start;
    }
    if k.receiving && (rtyp == 'N' as int || rtyp == 'Y' as int) {
      return Echo, start;
    }
    var datalen, chklen;
    ShortHeaderIsOk(m);
    if rlen == 0 {
      var ok := TestHeader(buf);
      if !ok {
        return BadHeader, start;
      }
      datalen := UnChar(buf[3]) * 95 + UnChar(buf[4]) - k.bct;
      start := 6;
    } else {
      datalen := rlen - k.bct - 2;
    }
    if rtyp == 'S' as int || k.initial {
      chklen, datalen := if k.force3 then 3 else 1, rlen - (if k.force3 then 5 else 3);
    } else {
      chklen := k.bct;
    }
    if datalen < 0 || datalen + chklen + 1 >= P_BUFLEN {
      return BadLength, start;
    }
    p := CheckedPacket(rtyp, rseq, chklen, start, start + datalen, buf);
  }

  /** Tests the block check and returns the packet it covers. */
  method CheckedPacket(rtyp: byte, rseq: nat, chk: nat, start: nat, end: nat, buf: array<byte>) returns (p: Parsed)
    requires 1 <= chk <= 3 && start <= end && end + chk < buf.Length
    modifies buf
    ensures var m := old(buf[..]);
      p == if CheckOk(m[end..end + chk], CString(m[..end])) then Good(rtyp, rseq, m[start..end])
           else if rtyp == 'E' as int && chk > 1 && UnChar(m[end + chk - 1]) == Sum6(CString(m[..end + chk - 1])) then
             Good(rtyp, rseq, m[start..end + chk - 1])
           else BadCheck
    ensures p.Good? ==> start + |p.data| < buf.Length && buf[start..start + |p.data|] == p.data && buf[start + |p.data|] == NUL
  {
    hide CString, Sum6, CheckOk, UnChar;
    ghost var m := buf[..];
    assert buf[end..end + chk] == m[end..end + chk] && buf[..end] == m[..end];
    var pbc := buf[end..end + chk];
    var ok := TestCheck(chk, end, buf);
    if ok {
      assert buf[start..end] == buf[..end][start..] == m[start..end];
      p := Good(rtyp, rseq, buf[start..end]);
    } else if rtyp == 'E' as int && chk > 1 {
      p := ErrorPacket(rtyp, rseq, pbc, start, end, buf, m);
    } else {
      p := BadCheck;
    }
  }

  /** An error packet that failed its block check is tried once more with type 1. */
  method ErrorPacket(rtyp: byte, rseq: nat, pbc: seq<byte>, start: nat, end: nat, buf: array<byte>, ghost m: seq<byte>) returns (p: Parsed)
    requires 2 <= |pbc| <= 3 && start <= end && end + |pbc| < buf.Length == |m|
    requires buf[..end] == m[..end] && pbc == m[end..end + |pbc|]
    modifies buf
    ensures var last := end + |pbc| - 1;
      p == if UnChar(m[last]) == Sum6(CString(m[..last])) then Good(rtyp, rseq, m[start..last]) else BadCheck
    ensures p.Good? ==> start + |p.data| < buf.Length && buf[start..start + |p.data|] == p.data && buf[start + |p.data|] == NUL
  {
    hide CString, Sum6;
    var last := end + |pbc| - 1;
    buf[end] := pbc[0];
    if |pbc| == 3 {
      buf[end + 1] := pbc[1];
    }
    buf[last] := NUL;
    TerminatedAt(buf, 0, last);
    assert buf[0..last] == m[..last];
    var s := Chk1(buf, 0);
    if UnChar(pbc[|pbc| - 1]) == s {
      assert buf[start..last] == buf[0..last][start..] == m[start..last];
      return Good(rtyp, rseq, buf[start..last]);
    }
    return BadCheck;
  }
}
