/**
 The attribute protocol's messages byte for byte, and what the server of groups refuses.
 */
module GattForms {
  import opened Bytes
  import opened Gatt
  import GattDiscovery
  import GattLongValue

  // ------------------------------------------------------------------ bytes

  /** Numbers travel low byte first. */
  lemma NumbersForm()
    ensures Le16(0x1234) == [0x34, 0x12] && GetLe16([0x34, 0x12], 0) == 0x1234
  {
  }

  /** A short UUID stands for 0000xxxx-0000-1000-8000-00805F9B34FB. */
  lemma ShortUuidForm(low: byte, high: byte)
    ensures GattDiscovery.Uuid128([low, high]) ==
      [0, 0, high, low, 0, 0, 0x10, 0, 0x80, 0, 0, 0x80, 0x5F, 0x9B, 0x34, 0xFB]
  {
  }

  /** A long one stands for itself, turned round; so the two forms of one UUID are the same. */
  lemma LongUuidForm(low: byte, high: byte)
    ensures GattDiscovery.Uuid128([0xFB, 0x34, 0x9B, 0x5F, 0x80, 0, 0, 0x80, 0, 0x10, 0, 0, low, high, 0, 0]) ==
      GattDiscovery.Uuid128([low, high])
  {
    var s := [0xFB, 0x34, 0x9B, 0x5F, 0x80, 0, 0, 0x80, 0, 0x10, 0, 0, low, high, 0, 0];
    assert |s| == 16;
    forall i | 0 <= i < 16
      ensures GattDiscovery.Uuid128(s)[i] == GattDiscovery.Uuid128([low, high])[i]
    {
      assert GattDiscovery.Uuid128(s)[i] == s[15 - i];
    }
  }

  /** The request for all primary services, and how a service with a short UUID is told. */
  lemma DiscoveryForms()
    ensures GattDiscovery.Asks(GattDiscovery.Request(1, 0xFFFF, 0x2800, [])) == [1, 0, 0xFF, 0xFF, 0, 0x28]
    ensures GattDiscovery.UnitOf(GattDiscovery.Service(0x0102, 0x0304, 0x2800, [0x0F, 0x18], true)) == [2, 1, 4, 3, 0x0F, 0x18]
  {
  }

  /** A prepared write and the two reads. */
  lemma LongValueForms(value: seq<byte>, index: nat, cur: nat)
    requires index + cur <= |value| && index <= 0x100
    ensures GattLongValue.Piece(GattLongValue.Writing(0x0102, 0x0300, value, index, cur, false)) ==
      [2, 1, index % 0x100, 3 + index / 0x100] + value[index..index + cur]
    ensures GattLongValue.ReadPdu(GattLongValue.Reading(0x0102, 0, [])) == [2, 1]
    ensures GattLongValue.ReadPdu(GattLongValue.Reading(0x0102, 0x0304, [])) == [2, 1, 4, 3]
  {
    assert (0x0300 + index) % 256 == index % 0x100 && ((0x0300 + index) / 256) % 256 == 3 + index / 0x100;
  }

  // ------------------------------------------------------------------ what the server of groups refuses

  /** A request for groups is answered with services exactly when it has one of the two lengths, a
      range that is not empty and does not hold handle 0, one of the two group types, and there is
      a service to tell about; otherwise with the error that comes first. */
  lemma GroupsAreRefusedIff(db: seq<GattDiscovery.Service>, mtu: nat, req: seq<byte>)
    requires GattDiscovery.Sorted(db)
    ensures var a := GattDiscovery.ReadByGroupType(db, mtu, req);
      && (|req| !in {6, 20} ==> a == ErrorRsp(0, 4))
      && (|req| in {6, 20} ==>
            var start, end, kind := GetLe16(req, 0), GetLe16(req, 2), GattDiscovery.Uuid128(req[4..]);
            var known := kind == GattDiscovery.Uuid128([0, 0x28]) || kind == GattDiscovery.Uuid128([1, 0x28]);
            && (start == 0 || end == 0 ==> a == ErrorRsp(0, 1))
            && (start != 0 && end != 0 && start > end ==> a == ErrorRsp(start, 1))
            && (1 <= start <= end && !known ==> a == ErrorRsp(start, 0x10))
            && (1 <= start <= end && known && GattDiscovery.Listed(db, start, end, kind) == [] ==> a == ErrorRsp(start, 0x0A))
            && (1 <= start <= end && known && GattDiscovery.Listed(db, start, end, kind) != [] ==> a.Rsp?))
  {
    hide GattDiscovery.Listed, GattDiscovery.GroupRsp, GattDiscovery.Uuid128, GetLe16;
    assert Le16(0x2800) == [0, 0x28] && Le16(0x2801) == [1, 0x28];
  }

  lemma {:induction false} FittingIsFull(ss: seq<GattDiscovery.Service>, used: nat, len: nat, mtu: nat)
    ensures var f := GattDiscovery.Fitting(ss, used, len, mtu);
      && (|f| < |ss| ==> |ss[|f|].uuid| != len || used + (|f| + 1) * (len + 4) > mtu - 1)
      && (f != [] ==> used + |f| * (len + 4) <= mtu - 1)
      && forall i :: 0 <= i < |f| ==> |f[i].uuid| == len
    decreases |ss|
  {
    if !(ss == [] || |ss[0].uuid| != len || used + len + 4 > mtu - 1) {
      FittingIsFull(ss[1..], used + len + 4, len, mtu);
      var rest := GattDiscovery.Fitting(ss[1..], used + len + 4, len, mtu);
      Products(|rest|, len + 4);
    }
  }

  lemma Products(n: nat, d: nat)
    ensures (n + 1) * d == n * d + d && (n + 2) * d == (n + 1) * d + d
  {
  }

  /** A response is as full as it can be: what it does not tell about next has a UUID of another
      length or does not fit; and it is no longer than the MTU allows. */
  lemma ResponseIsFull(ss: seq<GattDiscovery.Service>, mtu: nat)
    requires ss != []
    ensures var f, d := GattDiscovery.Told(ss, mtu), |ss[0].uuid| + 4;
      && (|f| < |ss| ==> |ss[|f|].uuid| != |ss[0].uuid| || 1 + (|f| + 1) * d > mtu - 1)
      && (f != [] ==> 1 + |f| * d <= mtu - 1)
  {
    FittingIsFull(ss, 1, |ss[0].uuid|, mtu);
  }

  // ------------------------------------------------------------------ what the client makes of it

  /** A malformed response, one that leads back, or an error ends the procedure as a failure with
      nothing found; only running out of attributes after something was found is a success. */
  lemma FailureIsTold(op: GattDiscovery.Request, reply: Reply)
    ensures reply.Rsp? && !GattDiscovery.WellFormed(reply.pdu) ==>
      GattDiscovery.OnGroupRsp(op, reply) == GattDiscovery.Complete(false, 0, [])
    ensures reply.Rsp? && GattDiscovery.WellFormed(reply.pdu) && GattDiscovery.LastEnd(reply.pdu) < op.start ==>
      GattDiscovery.OnGroupRsp(op, reply) == GattDiscovery.Complete(false, 0, [])
    ensures reply.ErrorRsp? && (reply.ecode != 0x0A || op.results == []) ==>
      GattDiscovery.OnGroupRsp(op, reply) == GattDiscovery.Complete(false, reply.ecode, [])
    ensures reply.ErrorRsp? && reply.ecode == 0x0A && op.results != [] ==>
      GattDiscovery.OnGroupRsp(op, reply) == GattDiscovery.Complete(true, 0x0A, op.results)
  {
  }
}
