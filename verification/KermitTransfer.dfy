/**
 From file to file: the packetiser, the link and the decoder together.
 */
module KermitTransfer {
  import opened Bytes
  import opened KermitBytes
  import opened KermitCodec
  import opened KermitPackets
  import opened KermitFrame
  import opened KermitParse
  import opened ReceiveWindow
  import opened SequenceNumbers
  import opened SendWindow
  import opened KermitLink
  import opened KermitDelivery
  import opened KermitRuns
  import KermitNegotiation

  // ------------------------------------------------------------------ files

  /** The setup under which a file is sent: `maxlen` is the packetiser's bound. */
  function FileSetup(k: Codec, maxlen: int, file: seq<byte>, size: nat, retry: nat, bct: nat, last: int, rcvMax: nat, sndMax: nat): Setup {
    Setup(size, retry, bct, last, rcvMax, sndMax, Packets(k, maxlen, file))
  }

  /** Every packet the packetiser makes is one the link can carry. */
  lemma FileSetupIsValid(k: Codec, maxlen: int, file: seq<byte>, size: nat, retry: nat, bct: nat, last: nat, rcvMax: nat, sndMax: nat)
    requires Sound(k) && Most(k) <= maxlen && maxlen + bct + 7 <= rcvMax <= P_PKTLEN && 10 <= rcvMax && 10 <= sndMax <= P_PKTLEN
    requires 1 <= size <= MAX_WINDOW && (bct == 1 || bct == 3) && last < 64
    ensures ValidSetup(FileSetup(k, maxlen, file, size, retry, bct, last, rcvMax, sndMax))
  {
    hide Packets, DecodeAll;
    PacketsAreFaithful(k, maxlen, file);
    forall i | 0 <= i < |Packets(k, maxlen, file)|
      ensures PacketFits(k, maxlen, Packets(k, maxlen, file)[i])
    {
    }
  }

  lemma DecodeAllFirst(k: Codec, p: seq<byte>, ps: seq<seq<byte>>)
    ensures DecodeAll(k, [p] + ps) == DecodeAll(k, [p]) + DecodeAll(k, ps)
  {
    hide Whole, KermitCodec.Out;
    assert ([p] + ps)[1..] == ps;
  }

  lemma {:induction false} DecodeAllAppend(k: Codec, ps: seq<seq<byte>>, qs: seq<seq<byte>>)
    ensures DecodeAll(k, ps + qs) == DecodeAll(k, ps) + DecodeAll(k, qs)
  {
    if ps == [] {
      assert ps + qs == qs;
    } else {
      hide DecodeAll;
      var first, more := ps[0], ps[1..];
      DecodeAllAppend(k, more, qs);
      DecodeAllFirst(k, first, more);
      DecodeAllFirst(k, first, more + qs);
      assert [first] + more == ps;
      assert [first] + (more + qs) == ps + qs;
    }
  }

  /** End-to-end safety: whatever the lines lose, or damage so that the parser finds no packet in it
      or still the same one, for any window size, what the receiver has written while the file is
      open is a prefix of the sender's file; when the sender is done, the receiver has closed the
      file and written exactly the sender's file. */
  lemma TransferIsSafe(k: Codec, maxlen: int, file: seq<byte>, size: nat, retry: nat, bct: nat, last: nat,
                       rcvMax: nat, sndMax: nat, es: seq<Event>)
    requires Sound(k) && Most(k) <= maxlen && maxlen + bct + 7 <= rcvMax <= P_PKTLEN && 10 <= rcvMax && 10 <= sndMax <= P_PKTLEN
    requires 1 <= size <= MAX_WINDOW && (bct == 1 || bct == 3) && last < 64
    ensures var u := FileSetup(k, maxlen, file, size, retry, bct, last, rcvMax, sndMax);
      && ValidSetup(u)
      && (!After(u, es).rcv.closed ==> DecodeAll(k, After(u, es).rcv.win.delivered) <= file)
      && (After(u, es).snd.phase == Done ==> After(u, es).rcv.closed && DecodeAll(k, After(u, es).rcv.win.delivered) == file)
      && (size == 1 && After(u, es).rcv.closed ==> DecodeAll(k, After(u, es).rcv.win.delivered) == file)
  {
    hide Packets, DecodeAll, After, PacketFits;
    var u := FileSetup(k, maxlen, file, size, retry, bct, last, rcvMax, sndMax);
    FileSetupIsValid(k, maxlen, file, size, retry, bct, last, rcvMax, sndMax);
    PacketsAreFaithful(k, maxlen, file);
    var l := After(u, es);
    OpenFileIsPrefix(u, es);
    if !l.rcv.closed {
      var d := |l.rcv.win.delivered|;
      DecodeAllAppend(k, u.packets[..d], u.packets[d..]);
      assert u.packets[..d] + u.packets[d..] == u.packets;
    }
    if l.snd.phase == Done {
      DoneIsComplete(u, es);
    }
    if size == 1 && l.rcv.closed {
      ClosedIsCompleteAtOne(u, es);
    }
  }

  /** The setup that a negotiation leads to: each side's own sizes, and the window, block check and
      repeat prefix that the sender has taken over. */
  function NegotiatedSetup(s: KermitNegotiation.Params, r: KermitNegotiation.Params, file: seq<byte>, retry: nat, last: nat): Setup
    requires s.wslots >= 0 && s.bct >= 0 && r.rMaxlen >= 0 && s.rMaxlen >= 0
  {
    FileSetup(Codec(s.rptflg, s.rptq), s.sMaxlen - s.bct - 9, file, s.wslots, retry, s.bct, last, r.rMaxlen, s.rMaxlen)
  }

  /** From negotiation to file: whatever the two sides start with, as long as the repeat prefix is
      not the control prefix, the block check is not the sum of two bytes and a packet has room
      for the longest step, the transfer that follows their negotiation is safe. */
  lemma NegotiatedTransferIsSafe(snd: KermitNegotiation.Params, rcv: KermitNegotiation.Params, staleR: seq<byte>, staleS: seq<byte>,
                                 file: seq<byte>, retry: nat, last: nat, es: seq<Event>)
    requires KermitNegotiation.Fresh(snd) && KermitNegotiation.Fresh(rcv) && |staleR| >= 3 && |staleS| >= 3 && last < 64
    requires snd.rptq != PREFIX_CTRL
    requires var bct := if snd.bcta3 || rcv.bcta3 then 3 else snd.bct; bct != 2 && bct + 13 <= rcv.rMaxlen
    ensures var (s, r) := KermitNegotiation.Negotiated(snd, rcv, staleR, staleS);
      && s.sMaxlen >= s.bct + 13 && s.wslots >= 1 && s.bct >= 1 && r.rMaxlen >= 10 && s.rMaxlen >= 10
      && var u, k := NegotiatedSetup(s, r, file, retry, last), Codec(s.rptflg, s.rptq);
      && ValidSetup(u)
      && (!After(u, es).rcv.closed ==> DecodeAll(k, After(u, es).rcv.win.delivered) <= file)
      && (After(u, es).snd.phase == Done ==> After(u, es).rcv.closed && DecodeAll(k, After(u, es).rcv.win.delivered) == file)
      && (s.wslots == 1 && After(u, es).rcv.closed ==> DecodeAll(k, After(u, es).rcv.win.delivered) == file)
  {
    hide KermitNegotiation.Negotiated, DecodeAll, After, Packets;
    KermitNegotiation.NegotiationAgrees(snd, rcv, staleR, staleS);
    var (s, r) := KermitNegotiation.Negotiated(snd, rcv, staleR, staleS);
    TransferIsSafe(Codec(s.rptflg, s.rptq), s.sMaxlen - s.bct - 9, file, s.wslots, retry, s.bct, last, r.rMaxlen, s.rMaxlen, es);
  }
}
