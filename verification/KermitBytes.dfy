/** Control characters and the small byte macros shared by the Kermit modules. */
module KermitBytes {

  import opened Bytes

  const NUL: byte := 0x00
  const PACKET_START: byte := 0x13
  const PACKET_END: byte := 0x0D
  const PREFIX_CTRL: byte := 0x23
  const PREFIX_REPEAT: byte := 0xCC
  const SP: byte := 0x20
  const DC3: byte := 0x13

  /** Packet and buffer sizes. */
  const P_PKTLEN := 1000
  const P_BUFLEN := P_PKTLEN + 8

  function ToChar(n: int): byte { (n + SP) % 256 }

  function UnChar(b: byte): byte { (b - SP) % 256 }

  lemma UnToChar(n: int)
    requires 0 <= n <= 223
    ensures UnChar(ToChar(n)) == n
  {
  }

  function ToRepeat(n: int): byte { (n + DC3) % 256 }

  function UnRepeat(b: byte): byte { (b - DC3) % 256 }

  /** Exclusive or with 64: flips one bit. */
  function Ctl(b: byte): byte { if (b / 64) % 2 == 1 then b - 64 else b + 64 }

  /** The characters that may serve as a prefix. */
  predicate IsPrefix(b: byte) { 32 < b < 63 || 95 < b < 127 }

  /** The repeat prefixes the negotiation accepts. */
  predicate Acceptable(q: byte) { IsPrefix(q) || q == PREFIX_REPEAT }

  /** The bytes that never travel inside a packet. */
  predicate Reserved(b: byte) { b == NUL || b == PACKET_START || b == PACKET_END }

  /** No byte of `s` could be mistaken for a terminator or a packet delimiter. */
  ghost predicate Clean(s: seq<byte>) { forall i :: 0 <= i < |s| ==> !Reserved(s[i]) }

  /** `n` copies of `a`. */
  function Copies(a: byte, n: nat): (s: seq<byte>)
    ensures |s| == n && forall i :: 0 <= i < n ==> s[i] == a
  {
    seq(n, i => a)
  }

  lemma SplitsBack(a: seq<byte>, b: seq<byte>, c: seq<byte>)
    ensures (a + b + c)[..|a| + |b|] == a + b && (a + b + c)[|a| + |b|..] == c
  {
  }
}
