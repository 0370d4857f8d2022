/**
 Frames on the line: how a packet is built with its header and block check, how the reader
 finds one in a stream of bytes, and how it is taken apart again.
 */
module KermitFrame {
  import opened Bytes
  import opened KermitBytes
  import opened KermitCheck

  // ------------------------------------------------------------------ building

  /** The block check of a NUL-terminated string, as it travels. */
  function CheckBytes(bct: nat, s: seq<byte>): (c: seq<byte>)
    requires 1 <= bct <= 3
    ensures |c| == bct
  {
    if bct == 1 then [ToChar(Sum6(s))]
    else if bct == 2 then [ToChar((Sum(s) / 64) % 64), ToChar(Sum(s) % 64)]
    else
      var crc := CrcValue(s);
      [ToChar((crc / 4096) % 16), ToChar((crc / 64) % 64), ToChar(crc % 64)]
  }

  predicate IsLong(len: nat, bct: nat) { len + bct + 2 > 94 }

  /** Length, sequence number and type, and for a long packet the extended length with its
      own check. */
  function Header(typ: byte, sq: nat, len: nat, bct: nat): (h: seq<byte>)
    ensures |h| == if IsLong(len, bct) then 6 else 3
  {
    var j := len + bct;
    if IsLong(len, bct) then
      var h := [ToChar(0), ToChar(sq), typ, ToChar(j / 95), ToChar(j % 95)];
      h + [ToChar(Sum6(CString(h)))]
    else [ToChar(j + 2), ToChar(sq), typ]
  }

  /** What the block check covers. */
  function Body(typ: byte, sq: nat, data: seq<byte>, bct: nat): seq<byte> {
    Header(typ, sq, |data|, bct) + data
  }

  /** What stands between the packet start and the packet end. */
  function Content(typ: byte, sq: nat, data: seq<byte>, bct: nat): seq<byte>
    requires 1 <= bct <= 3
  {
    Body(typ, sq, data, bct) + CheckBytes(bct, CString(Body(typ, sq, data, bct)))
  }

  /** How many bytes these are. */
  function ContentSize(len: nat, bct: nat): nat { len + bct + if IsLong(len, bct) then 6 else 3 }

  function Frame(typ: byte, sq: nat, data: seq<byte>, bct: nat): seq<byte>
    requires 1 <= bct <= 3
  {
    [PACKET_START] + Content(typ, sq, data, bct) + [PACKET_END]
  }

  /** A data frame of a packetiser that aims at `s_maxlen - bct - 9` bytes and may run one
      over never exceeds the negotiated packet size; a long one that runs over fills it. */
  lemma FrameFitsPacket(typ: byte, sq: nat, data: seq<byte>, bct: nat, s_maxlen: nat)
    requires 1 <= bct <= 3 && bct + 14 <= s_maxlen
    requires |data| <= s_maxlen - bct - 9 + 1
    ensures |Frame(typ, sq, data, bct)| <= s_maxlen
    ensures |Frame(typ, sq, data, bct)| == s_maxlen <==> IsLong(|data|, bct) && |data| == s_maxlen - bct - 8
  {
  }

  /** Builds a packet in `buf` and returns its length. */
  method BuildPacket(typ: byte, sq: int, len: nat, data: array<byte>, bct: nat, buf: array<byte>) returns (r: Option<nat>)
    requires 1 <= bct <= 3 && len <= data.Length && data != buf && len + bct + 9 <= buf.Length
    modifies buf
    ensures r.None? <==> !(0 <= sq < 64)
    ensures r.Some? ==>
      && r.value < buf.Length && buf[r.value] == NUL
      && buf[..r.value] == Frame(typ, sq, data[..len], bct)
  {
    hide Header, CheckBytes;
    if sq < 0 || sq > 63 {
      return None;
    }
    var i := PutHeader(typ, sq, len, bct, buf);
    i := PutData(len, data, i, buf);
    ghost var body := Body(typ, sq, data[..len], bct);
    assert buf[..i] == [PACKET_START] + body;
    assert buf[1..i] == body;
    i := PutCheck(bct, i, buf);
    assert buf[..i] == [PACKET_START] + Content(typ, sq, data[..len], bct);
    buf[i] := PACKET_END;
    buf[i + 1] := NUL;
    i := i + 1;
    assert buf[..i] == [PACKET_START] + Content(typ, sq, data[..len], bct) + [PACKET_END];
    return Some(i);
  }

  method PutHeader(typ: byte, sq: nat, len: nat, bct: nat, buf: array<byte>) returns (i: nat)
    requires 1 <= bct <= 3 && len + bct + 9 <= buf.Length
    modifies buf
    ensures i == 1 + |Header(typ, sq, len, bct)| && buf[..i] == [PACKET_START] + Header(typ, sq, len, bct)
  {
    hide CString, Sum6;
    buf[0] := PACKET_START;
    buf[2] := ToChar(sq);
    buf[3] := typ;
    i := 4;
    var j := len + bct;
    if j + 2 > 94 {
      buf[1] := ToChar(0);
      buf[i] := ToChar(j / 95);
      buf[i + 1] := ToChar(j % 95);
      buf[i + 2] := NUL;
      ghost var h := [ToChar(0), ToChar(sq), typ, ToChar(j / 95), ToChar(j % 95)];
      assert buf[1..6] == h;
      TerminatedAt(buf, 1, 6);
      var c := Chk1(buf, 1);
      buf[i + 2] := ToChar(c);
      i := i + 3;
      assert buf[..i] == [PACKET_START] + (h + [ToChar(Sum6(CString(h)))]);
    } else {
      buf[1] := ToChar(j + 2);
      assert buf[..i] == [PACKET_START] + [ToChar(j + 2), ToChar(sq), typ];
    }
  }

  method PutData(len: nat, data: array<byte>, start: nat, buf: array<byte>) returns (i: nat)
    requires len <= data.Length && data != buf && start + len < buf.Length
    modifies buf
    ensures i == start + len && buf[..i] == old(buf[..start]) + data[..len] && buf[i] == NUL
  {
    i := start;
    while i < start + len
      invariant start <= i <= start + len
      invariant buf[..i] == old(buf[..start]) + data[..i - start]
    {
      buf[i] := data[i - start];
      i := i + 1;
    }
    buf[i] := NUL;
  }

  /** Appends the block check of what follows the packet start. */
  method PutCheck(bct: nat, end: nat, buf: array<byte>) returns (i: nat)
    requires 1 <= bct <= 3 && 1 <= end && end + bct < buf.Length && buf[end] == NUL
    modifies buf
    ensures i == end + bct && buf[..i] == old(buf[..end]) + CheckBytes(bct, CString(old(buf[1..end])))
  {
    hide CString, Sum6, Sum, Crc;
    TerminatedAt(buf, 1, end);
    i := end;
    if bct == 1 {
      var c := Chk1(buf, 1);
      buf[i] := ToChar(c);
      i := i + 1;
    } else if bct == 2 {
      var j := Chk2(buf, 1);
      buf[i] := ToChar((j / 64) % 64);
      buf[i + 1] := ToChar(j % 64);
      i := i + 2;
    } else {
      var crc := Chk3(buf, 1);
      var j := crc as int;
      buf[i] := ToChar((j / 4096) % 16);
      buf[i + 1] := ToChar((j / 64) % 64);
      buf[i + 2] := ToChar(j % 64);
      i := i + 3;
    }
  }

  /** A NUL at `end` ends the string that starts at `start`. */
  lemma TerminatedAt(buf: array<byte>, start: nat, end: nat)
    requires start <= end < buf.Length && buf[end] == NUL
    ensures CString(buf[start..]) != buf[start..]
    ensures CString(buf[start..]) == CString(buf[start..end])
  {
    assert buf[start..] == buf[start..end] + [NUL] + buf[end + 1..];
    CStringTerminated(buf[start..end], buf[end + 1..]);
    assert buf[start..][end - start] == NUL;
  }

  lemma {:induction false} CStringTerminated(s: seq<byte>, stale: seq<byte>)
    ensures CString(s + [NUL] + stale) == CString(s)
  {
    var m := s + [NUL] + stale;
    if s != [] {
      assert m[0] == s[0];
      assert m[1..] == s[1..] + [NUL] + stale;
      CStringTerminated(s[1..], stale);
    }
  }

  // ------------------------------------------------------------------ finding a frame

  const CMD: seq<byte> := [67, 77, 68, 13, 10]

  /** What reading from the line ends with: nothing more to read in time, the abort command,
      a packet, or a packet that is too long. `content` is what has been stored. */
  datatype Reading =
    | Timeout(content: seq<byte>)
    | Abort(content: seq<byte>)
    | Packet(content: seq<byte>)
    | TooLong(content: seq<byte>)

  /** Reads on from position `at`, with `got` stored already; `started` once a packet start
      has been seen. */
  function Scan(input: seq<byte>, at: nat, started: bool, got: seq<byte>, maxlen: nat): Reading
    requires at <= |input|
    decreases |input| - at
  {
    if at == |input| then Timeout(got)
    else
      var b := input[at];
      if at == 4 && input[..5] == CMD then Abort(got)
      else if b == PACKET_START then Scan(input, at + 1, true, got, maxlen)
      else if !started then Scan(input, at + 1, false, got, maxlen)
      else if b == PACKET_END then Packet(got)
      else if |got| > maxlen then TooLong(got)
      else Scan(input, at + 1, true, got + [b], maxlen)
  }

  /** Reads bytes until a packet has been stored in `p`. */
  method ReadPacket(input: seq<byte>, p: array<byte>, maxlen: nat) returns (n: int)
    requires maxlen + 2 <= p.Length
    modifies p
    ensures var r := Scan(input, 0, false, [], maxlen);
      && n == (match r
               case Timeout(_) => 0
               case Abort(_) => -3
               case Packet(c) => |c|
               case TooLong(c) => |c| + 1)
      && |r.content| < p.Length && p[..|r.content|] == r.content
      && (r.Packet? ==> p[n] == NUL && p[n + 1..] == old(p[n + 1..]))
  {
    var at, flag := 0, false;
    n := 0;
    assert p[..0] == [];
    while true
      invariant 0 <= at <= |input| && 0 <= n <= maxlen + 1
      invariant Scan(input, at, flag, p[..n], maxlen) == Scan(input, 0, false, [], maxlen)
      invariant p[n..] == old(p[n..])
      decreases |input| - at
    {
      if at == |input| {
        return 0;
      }
      var b := input[at];
      if at == 4 && input[..5] == CMD {
        return -3;
      }
      at := at + 1;
      if !flag && b != PACKET_START {
        continue;
      }
      if b == PACKET_START {
        flag := true;
        continue;
      } else if b == PACKET_END {
        assert p[n + 1..] == p[n..][1..];
        p[n] := NUL;
        return;
      } else if n > maxlen {
        n := n + 1;
        return;
      } else {
        assert p[n + 1..] == p[n..][1..];
        ghost var got := p[..n];
        p[n] := b;
        n := n + 1;
        assert p[..n] == got + [b];
      }
    }
  }

  /** No byte of `s` is a packet delimiter. */
  ghost predicate Undelimited(s: seq<byte>) {
    forall i :: 0 <= i < |s| ==> s[i] != PACKET_START && s[i] != PACKET_END
  }

  lemma {:induction false} ScanSkipsNoise(input: seq<byte>, at: nat, start: nat, maxlen: nat)
    requires at <= start < |input| && input[start] == PACKET_START
    requires forall i :: at <= i < start ==> input[i] != PACKET_START
    requires |input| >= 5 ==> input[..5] != CMD
    ensures Scan(input, at, false, [], maxlen) == Scan(input, start + 1, true, [], maxlen)
    decreases start - at
  {
    if at < start {
      ScanSkipsNoise(input, at + 1, start, maxlen);
    }
  }

  function WithoutStarts(s: seq<byte>): (r: seq<byte>)
    ensures |r| <= |s|
  {
    if s == [] then [] else (if s[0] == PACKET_START then [] else [s[0]]) + WithoutStarts(s[1..])
  }

  lemma {:induction false} WithoutStartsAppend(s: seq<byte>, t: seq<byte>)
    ensures WithoutStarts(s + t) == WithoutStarts(s) + WithoutStarts(t)
  {
    if s == [] {
      assert s + t == t;
    } else {
      assert (s + t)[1..] == s[1..] + t;
      WithoutStartsAppend(s[1..], t);
    }
  }

  lemma {:induction false} NoStarts(s: seq<byte>)
    requires PACKET_START !in s
    ensures WithoutStarts(s) == s
  {
    if s != [] {
      NoStarts(s[1..]);
    }
  }

  /** What the reader keeps of `noise`: the bytes behind the first packet start. A later packet
      start drops nothing. */
  function StoredOf(noise: seq<byte>): (r: seq<byte>)
    ensures |r| <= |noise|
  {
    if noise == [] then []
    else if noise[0] == PACKET_START then WithoutStarts(noise[1..])
    else StoredOf(noise[1..])
  }

  /** What the reader makes of `s` behind a packet start and before a packet end. */
  function ReadingOf(s: seq<byte>, maxlen: nat): Reading {
    if |s| <= maxlen + 1 then Packet(s) else TooLong(s[..maxlen + 1])
  }

  /** What one byte does once a packet start has been seen. */
  lemma ScanByte(input: seq<byte>, at: nat, got: seq<byte>, maxlen: nat)
    requires at < |input| && (|input| >= 5 ==> input[..5] != CMD)
    ensures Scan(input, at, true, got, maxlen) ==
      if input[at] == PACKET_START then Scan(input, at + 1, true, got, maxlen)
      else if input[at] == PACKET_END then Packet(got)
      else if |got| > maxlen then TooLong(got)
      else Scan(input, at + 1, true, got + [input[at]], maxlen)
  {
  }

  lemma WithoutStartsUnfolds(got: seq<byte>, s: seq<byte>)
    requires s != []
    ensures s[0] == PACKET_START ==> got + WithoutStarts(s) == got + WithoutStarts(s[1..])
    ensures s[0] != PACKET_START ==> got + WithoutStarts(s) == got + [s[0]] + WithoutStarts(s[1..])
  {
    assert [] + WithoutStarts(s[1..]) == WithoutStarts(s[1..]);
  }

  /** Up to the packet end everything but packet starts is stored, as long as it fits. */
  lemma {:induction false} ScanStores(input: seq<byte>, at: nat, got: seq<byte>, s: seq<byte>, maxlen: nat)
    requires at + |s| < |input| && input[at..at + |s|] == s && input[at + |s|] == PACKET_END
    requires PACKET_END !in s && |got| <= maxlen + 1
    requires |input| >= 5 ==> input[..5] != CMD
    ensures Scan(input, at, true, got, maxlen) == ReadingOf(got + WithoutStarts(s), maxlen)
    decreases |s|
  {
    ScanByte(input, at, got, maxlen);
    hide Scan;
    if s == [] {
      assert got + [] == got;
    } else {
      hide WithoutStarts;
      assert input[at] == s[0] && s[0] in s;
      assert input[at + 1..at + 1 + |s[1..]|] == s[1..];
      WithoutStartsUnfolds(got, s);
      if s[0] == PACKET_START {
        ScanStores(input, at + 1, got, s[1..], maxlen);
      } else if |got| <= maxlen {
        ScanStores(input, at + 1, got + [s[0]], s[1..], maxlen);
      } else {
        assert (got + [s[0]] + WithoutStarts(s[1..]))[..maxlen + 1] == got;
      }
    }
  }

  /** Bytes that go on with a packet start are not mistaken for the abort command. */
  lemma NotTheCommand(noise: seq<byte>, tail: seq<byte>)
    requires !(CMD <= noise) && tail != [] && tail[0] == PACKET_START
    ensures |noise + tail| >= 5 ==> (noise + tail)[..5] != CMD
  {
    var input, n := noise + tail, |noise|;
    if |input| >= 5 {
      if n >= 5 {
        assert input[..5] == noise[..5];
      } else {
        assert input[..5][n] == PACKET_START;
        assert CMD[n] != PACKET_START;
      }
    }
  }

  /** The first packet start in `noise` and what stands behind it, if there is one. */
  lemma {:induction false} StoredSplits(noise: seq<byte>) returns (i: nat)
    requires PACKET_START in noise
    ensures i < |noise| && noise[i] == PACKET_START && (forall j :: 0 <= j < i ==> noise[j] != PACKET_START)
    ensures StoredOf(noise) == WithoutStarts(noise[i + 1..])
  {
    if noise[0] == PACKET_START {
      i := 0;
    } else {
      i := StoredSplits(noise[1..]);
      assert noise[1..][i + 1..] == noise[i + 2..];
      i := i + 1;
    }
  }

  lemma {:induction false} NothingStored(noise: seq<byte>)
    requires PACKET_START !in noise
    ensures StoredOf(noise) == []
  {
    if noise != [] {
      NothingStored(noise[1..]);
    }
  }

  lemma {:induction false} EndsAreStored(s: seq<byte>)
    ensures PACKET_END in s ==> PACKET_END in WithoutStarts(s)
  {
    if s != [] {
      EndsAreStored(s[1..]);
    }
  }

  lemma OneStart(s: seq<byte>)
    ensures WithoutStarts([PACKET_START] + s) == WithoutStarts(s)
  {
    assert ([PACKET_START] + s)[1..] == s;
  }

  /** A packet start at `start`, bytes `s` and a packet end: `s` is what the reader gets to store. */
  lemma FoundAt(input: seq<byte>, start: nat, s: seq<byte>, maxlen: nat)
    requires start + 1 + |s| < |input| && input[start] == PACKET_START && PACKET_START !in input[..start]
    requires input[start + 1..start + 1 + |s|] == s && input[start + 1 + |s|] == PACKET_END && PACKET_END !in s
    requires |input| >= 5 ==> input[..5] != CMD
    ensures Scan(input, 0, false, [], maxlen) == ReadingOf(WithoutStarts(s), maxlen)
  {
    hide Scan, WithoutStarts, ReadingOf;
    assert forall i :: 0 <= i < start ==> input[i] == input[..start][i] && input[i] in input[..start];
    ScanSkipsNoise(input, 0, start, maxlen);
    ScanStores(input, start + 1, [], s, maxlen);
    assert [] + WithoutStarts(s) == WithoutStarts(s);
  }

  lemma BehindAStart(noise: seq<byte>, content: seq<byte>, later: seq<byte>, maxlen: nat)
    requires PACKET_START in noise && !(CMD <= noise) && PACKET_END !in StoredOf(noise) && Undelimited(content)
    ensures Scan(noise + ([PACKET_START] + content + [PACKET_END] + later), 0, false, [], maxlen)
      == ReadingOf(StoredOf(noise) + content, maxlen)
  {
    hide Scan, StoredOf, WithoutStarts, ReadingOf;
    var tail := [PACKET_START] + content + [PACKET_END] + later;
    var input := noise + tail;
    NotTheCommand(noise, tail);
    NoStarts(content);
    var i := StoredSplits(noise);
    var before := noise[i + 1..];
    var s := before + ([PACKET_START] + content);
    EndsAreStored(before);
    assert input == noise[..i + 1] + s + ([PACKET_END] + later);
    assert input[..i] == noise[..i];
    SplitsBack(noise[..i + 1], s, [PACKET_END] + later);
    FoundAt(input, i, s, maxlen);
    WithoutStartsAppend(before, [PACKET_START] + content);
    OneStart(content);
  }

  /** Whatever stands before a frame, short of a whole packet or the abort command: what the
      reader has stored of it comes in front of the frame's content. */
  lemma FrameBehindNoise(noise: seq<byte>, content: seq<byte>, later: seq<byte>, maxlen: nat)
    requires !(CMD <= noise) && PACKET_END !in StoredOf(noise) && Undelimited(content)
    ensures Scan(noise + ([PACKET_START] + content + [PACKET_END]) + later, 0, false, [], maxlen)
      == ReadingOf(StoredOf(noise) + content, maxlen)
  {
    hide Scan, StoredOf, WithoutStarts, ReadingOf;
    var tail := [PACKET_START] + content + [PACKET_END] + later;
    var input := noise + tail;
    assert noise + ([PACKET_START] + content + [PACKET_END]) + later == input;
    if PACKET_START in noise {
      BehindAStart(noise, content, later, maxlen);
    } else {
      NotTheCommand(noise, tail);
      NoStarts(content);
      NothingStored(noise);
      assert input == (noise + [PACKET_START]) + content + ([PACKET_END] + later);
      assert input[..|noise|] == noise;
      FoundAt(input, |noise|, content, maxlen);
      assert [] + content == content;
    }
  }

  /** So the frame is found exactly when nothing but packet starts follows the first packet start
      in the noise; behind a frame that was cut short it is not. */
  lemma ReaderFindsFrameIff(noise: seq<byte>, content: seq<byte>, later: seq<byte>, maxlen: nat)
    requires !(CMD <= noise) && PACKET_END !in StoredOf(noise) && Undelimited(content) && |content| <= maxlen + 1
    ensures Scan(noise + ([PACKET_START] + content + [PACKET_END]) + later, 0, false, [], maxlen) == Packet(content)
      <==> StoredOf(noise) == []
  {
    hide Scan, StoredOf;
    FrameBehindNoise(noise, content, later, maxlen);
    assert [] + content == content;
    assert |StoredOf(noise) + content| == |StoredOf(noise)| + |content|;
  }

  /** Noise without a packet start is skipped and the frame's content is stored, whatever
      follows. */
  lemma ReaderFindsFrame(noise: seq<byte>, content: seq<byte>, later: seq<byte>, maxlen: nat)
    requires PACKET_START !in noise && !(CMD <= noise)
    requires Undelimited(content) && |content| <= maxlen + 1
    ensures Scan(noise + ([PACKET_START] + content + [PACKET_END]) + later, 0, false, [], maxlen) == Packet(content)
  {
    hide Scan, StoredOf;
    NothingStored(noise);
    ReaderFindsFrameIff(noise, content, later, maxlen);
  }

  /** The abort command, when nothing comes before it, is noticed whatever follows. */
  lemma CommandAborts(later: seq<byte>, maxlen: nat)
    ensures Scan([67, 77, 68, 13, 10] + later, 0, false, [], maxlen) == Abort([])
  {
    var input := [67, 77, 68, 13, 10] + later;
    assert input[..5] == CMD;
    assert Scan(input, 4, false, [], maxlen) == Abort([]);
    assert Scan(input, 3, false, [], maxlen) == Scan(input, 4, false, [], maxlen);
    assert Scan(input, 2, false, [], maxlen) == Scan(input, 3, false, [], maxlen);
    assert Scan(input, 1, false, [], maxlen) == Scan(input, 2, false, [], maxlen);
  }

  lemma {:induction false} ScanOfEndless(input: seq<byte>, at: nat, got: seq<byte>, maxlen: nat)
    requires at <= |input| && PACKET_END !in input[at..] && |got| <= maxlen + 1
    requires |input| >= 5 ==> input[..5] != CMD
    ensures var s := got + WithoutStarts(input[at..]);
      Scan(input, at, true, got, maxlen) == if |s| <= maxlen + 1 then Timeout(s) else TooLong(s[..maxlen + 1])
    decreases |input| - at
  {
    var s, rest := got + WithoutStarts(input[at..]), input[at..];
    if at == |input| {
      assert s == got;
    } else {
      ScanByte(input, at, got, maxlen);
      WithoutStartsUnfolds(got, rest);
      hide Scan, WithoutStarts;
      assert rest[1..] == input[at + 1..] && rest[0] == input[at];
      if input[at] == PACKET_START {
        ScanOfEndless(input, at + 1, got, maxlen);
      } else if |got| <= maxlen {
        ScanOfEndless(input, at + 1, got + [input[at]], maxlen);
      } else {
        assert s[..maxlen + 1] == got;
      }
    }
  }

  /** Without a packet end the reader waits in vain, or gives up when too much has come. */
  lemma {:induction false} NoPacketWithoutEnd(input: seq<byte>, at: nat, maxlen: nat)
    requires at <= |input| && PACKET_END !in input[at..]
    requires |input| >= 5 ==> input[..5] != CMD
    ensures var s := StoredOf(input[at..]);
      Scan(input, at, false, [], maxlen) == if |s| <= maxlen + 1 then Timeout(s) else TooLong(s[..maxlen + 1])
    decreases |input| - at
  {
    if at < |input| {
      var rest := input[at..];
      assert rest[1..] == input[at + 1..] && rest[0] == input[at];
      if input[at] == PACKET_START {
        ScanOfEndless(input, at + 1, [], maxlen);
        assert [] + WithoutStarts(rest[1..]) == WithoutStarts(rest[1..]);
      } else {
        NoPacketWithoutEnd(input, at + 1, maxlen);
      }
    }
  }
}
