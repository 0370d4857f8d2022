/** What the attribute protocol modules share: little-endian numbers, limits, error codes. */
module Gatt {
  import opened Bytes

  const MAX_HANDLE := 0xffff
  const MIN_MTU := 23
  const MAX_VALUE_LEN := 512

  const INVALID_HANDLE := 0x01
  const INVALID_PDU := 0x04
  const INVALID_OFFSET := 0x07
  const PREPARE_QUEUE_FULL := 0x09
  const ATTRIBUTE_NOT_FOUND := 0x0A
  const UNLIKELY := 0x0E
  const UNSUPPORTED_GROUP_TYPE := 0x10
  const REQUEST_NOT_SUPPORTED := 0x06

  /** A response, or an error response with the handle and the code it carries. */
  datatype Reply = Rsp(pdu: seq<byte>) | ErrorRsp(handle: int, ecode: int)

  function Min(a: int, b: int): int { if a < b then a else b }

  /** A 16-bit number as two bytes, low byte first. */
  function Le16(n: int): (s: seq<byte>)
    ensures |s| == 2
  {
    [n % 256, (n / 256) % 256]
  }

  function GetLe16(s: seq<byte>, i: nat): (n: int)
    requires i + 2 <= |s|
    ensures 0 <= n <= 0xffff
  {
    var low: int, high: int := s[i], s[i + 1];
    low + 256 * high
  }

  /** A number put into a string is found there again. */
  lemma Le16At(s: seq<byte>, n: int, t: seq<byte>)
    requires 0 <= n <= 0xffff
    ensures GetLe16(s + Le16(n) + t, |s|) == n
  {
    var all := s + Le16(n) + t;
    assert all[|s|] == n % 256 && all[|s| + 1] == (n / 256) % 256;
  }
}
