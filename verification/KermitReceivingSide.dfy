/**
 The protocol engine while it receives a file: the state switch around the packet table.
 */
module KermitReceivingSide {
  import opened Bytes
  import opened KermitParse
  import opened ReceiveWindow
  import opened SequenceNumbers
  import opened SendWindow
  import opened KermitReceiver
  import opened KermitLink

  class ReceivingSide {
    const table: Receiver
    var phase: RPhase
    var closed: bool

    ghost predicate Valid()
      reads this, table, table.ipktinfo, table.r_pw
    {
      table.Valid() && (phase == Attr ==> table.win.table == map[])
    }

    /** The state as the link sees it. */
    ghost function Value(): Receiving
      reads this, table
    {
      Receiving(table.win, phase, closed)
    }

    constructor (size: nat, ghost high: int)
      requires 1 <= size <= MAX_WINDOW
      ensures Valid() && fresh(table) && fresh(table.ipktinfo) && fresh(table.r_pw)
      ensures Value() == Receiving(Window(size, high, map[], []), Attr, false) && table.replies == []
    {
      table := new Receiver(size, high);
      phase, closed := Attr, false;
    }

    /** Acknowledges a packet. */
    method Acknowledge(sq: nat)
      requires sq < 64
      modifies table`replies
      ensures table.replies == old(table.replies) + OnWire([Ack(sq)])
    {
      assert OnWire([Ack(sq)]) == [Ack(sq)];
      table.replies := table.replies + [Ack(sq)];
    }

    /** One call of the engine with what the parser found. */
    method KRun(p: Parsed)
      requires Valid() && (p.Good? ==> p.sq < 64) && Hear(Value(), p).rcv.phase != Confused
      modifies this, table, table.ipktinfo, table.r_pw
      ensures Valid() && Value() == Hear(old(Value()), p).rcv
      ensures table.replies == old(table.replies) + OnWire(Hear(old(Value()), p).replies)
    {
      hide Arrive, Replies, Placed, Classify, Wraps, FlushAll;
      assert table.replies + OnWire([]) == table.replies;
      if !p.Good? || phase == Stopped || phase == Confused {
        return;
      }
      if phase == File {
        if p.typ == TYPE_Z {
          Acknowledge(p.sq);
        } else {
          phase := Stopped;
        }
        return;
      }
      if p.typ == TYPE_D {
        var ok := TakeData(p.sq, p.data);
      } else if p.typ == TYPE_Z {
        EndOfFile();
        Acknowledge(p.sq);
      } else if phase == Attr && (p.typ == 'A' as int || p.typ == 'F' as int) {
        Acknowledge(p.sq);
      } else {
        phase := Stopped;
      }
    }

    /** A data packet, the first of which opens the file. */
    method TakeData(sq: nat, data: seq<byte>) returns (ok: bool)
      requires Valid() && sq < 64 && (phase == Attr || phase == RData)
      requires Hear(Value(), Good(TYPE_D, sq, data)).rcv.phase != Confused
      modifies this`phase, table, table.ipktinfo, table.r_pw
      ensures Valid() && ok && Value() == Hear(old(Value()), Good(TYPE_D, sq, data)).rcv
      ensures table.replies == old(table.replies) + OnWire(Hear(old(Value()), Good(TYPE_D, sq, data)).replies)
    {
      hide Arrive, Replies, Placed, Classify, Wraps;
      table.ShapeHolds();
      assert table.replies + OnWire([]) == table.replies;
      phase := RData;
      ok := table.HandleGoodRpkt(sq, data);
    }

    /** The end of the file: what waits is decoded, unless nothing can. */
    method EndOfFile()
      requires Valid() && (phase == Attr || phase == RData)
      modifies this, table, table.ipktinfo, table.r_pw
      ensures Valid() && Value() == Receiving(FlushAll(old(table.win)), File, true) && table.replies == old(table.replies)
    {
      if phase == RData {
        var ok := table.FlushToFile();
      } else {
        FlushOfNone(table.win);
      }
      phase, closed := File, true;
    }
  }
}
