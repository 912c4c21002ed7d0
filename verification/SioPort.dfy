/** The port as the C file keeps it: registers, a receive FIFO in a ring of eight bytes, and the card
    image in place. Each method is proved to do to the state what SerialPort says. */
module SioPort {
  import opened Words
  import opened MemCard
  import opened SerialPort
  import CardFs

  class MemcardSio {
    const card: array<Byte>
    const fifo: array<Byte>
    var head: nat
    var tail: nat
    var count: nat
    ghost var queue: Bytes
    var flag: Byte
    var buttons: Half
    var stat: Half
    var mode: Half
    var ctrl: Half
    var baud: Half
    var proto: Proto
    ghost var sent: Bytes

    /** The ring holds the queue, oldest byte at the tail. */
    ghost predicate RingOk()
      reads this, fifo
    {
      && fifo.Length == 8 && head < 8 && tail < 8 && count == |queue| <= 8 && head == Slot(tail, count)
      && forall k: nat {:trigger Slot(tail, k)} :: k < count ==> fifo[Slot(tail, k)] == queue[k]
    }

    ghost predicate Valid()
      reads this, fifo
    {
      RingOk() && card.Length == CARD_SIZE && card != fifo && |proto.tmp| == SECTOR_SIZE
    }

    ghost function ThePort(): Port
      reads this
    {
      Port(stat, mode, ctrl, baud, queue)
    }

    ghost function State(): (s: Sio)
      requires Valid()
      reads this, card, fifo
      ensures SioOk(s)
    {
      Sio(card[..], flag, buttons, ThePort(), proto, sent)
    }

    /** hle_memcard_reset */
    constructor ()
      ensures Valid() && fresh(card) && fresh(fifo) && CardFs.IsFormatted(card[..]) && flag == 0x08
      ensures queue == [] && proto.phase == Idle && sent == [] && stat == 0x0005 && buttons == 0xFFFF
    {
      card, fifo := new Byte[CARD_SIZE](_ => 0), new Byte[8](_ => 0);
      head, tail, count, queue, flag, buttons := 0, 0, 0, [], 0x08, 0xFFFF;
      stat, mode, ctrl, baud := 0x0005, 0x000D, 0, 0x0088;
      proto := Proto(Idle, 0, 0, 0, 0, seq<Byte>(SECTOR_SIZE, _ => 0), false);
      sent := [];
      new;
      CardFs.Format(card);
    }

    /** hle_memcard_format: the card, and the unread-directory flag; the port stays as it is. */
    method Format()
      requires Valid()
      modifies card, this`flag
      ensures Valid() && CardFs.IsFormatted(card[..]) && CardFs.CardHolds(card[..], [])
      ensures State() == old(State()).(card := card[..], flag := 0x08)
    {
      CardFs.Format(card);
      flag := 0x08;
    }

    /** rx_push */
    method Push(b: Byte)
      requires RingOk()
      modifies this`head, this`count, this`queue, this`stat, fifo
      ensures RingOk() && ThePort() == PushRx(old(ThePort()), b)
    {
      if count < 8 {
        RingApart(tail, count);
        ghost var was := fifo[..];
        fifo[head] := b;
        head := (head + 1) % 8;
        count := count + 1;
        queue := queue + [b];
        stat := SetBit(stat, 1);
        forall k: nat | k < count ensures fifo[Slot(tail, k)] == queue[k] {
          if k < count - 1 {
            assert fifo[Slot(tail, k)] == was[Slot(tail, k)];
          }
        }
      }
    }

    /** rx_pop */
    method Pop() returns (b: Byte)
      requires RingOk()
      modifies this`tail, this`count, this`queue, this`stat
      ensures RingOk() && (b, ThePort()) == PopRx(old(ThePort()))
    {
      if count == 0 { return 0xFF; }
      RingShift(tail);
      assert Slot(tail, 0) == tail;
      b := fifo[tail];
      tail := (tail + 1) % 8;
      count := count - 1;
      queue := queue[1..];
      if count == 0 {
        stat := ClearBit(stat, 1);
      }
      forall k: nat | k < count ensures fifo[Slot(tail, k)] == queue[k] {
        assert Slot(tail, k) == Slot(old(tail), k + 1);
      }
    }

    /** The last byte of a write stores the sector, and clears the unread-directory flag. */
    method Store()
      requires Valid()
      modifies card, this`flag
      ensures card[..] == Stored(old(State())) && flag == if proto.phase == WriteEnd then 0x00 else old(flag)
    {
      if proto.phase == WriteEnd {
        if proto.good && proto.sector < TOTAL_SECTORS {
          CopyIn(card, proto.sector * SECTOR_SIZE, proto.tmp);
        }
        flag := 0x00;
      }
    }

    method SetLine(ack: Ack)
      modifies this`stat
      ensures ThePort() == Line(old(ThePort()), ack)
    {
      match ack {
        case Keep =>
        case Raise => stat := SetBit(stat, 7);
        case Drop => stat := ClearBit(stat, 7);
      }
      if HasBit(ctrl, 12) && HasBit(stat, 7) {
        stat := SetBit(stat, 9);
      }
    }

    method Reply(mem: Memory, b: Byte) returns (r: SerialPort.Reply)
      requires Valid()
      ensures r == Answer(State(), mem, b)
    {
      r := if Reading(proto.phase) then ReadReply(card[..], mem, proto, b)
           else if Writing(proto.phase) then WriteReply(proto, b)
           else OtherReply(flag, buttons, proto, b);
    }

    /** The answer's effects, all but the transaction's next state. */
    method Apply(r: SerialPort.Reply)
      requires Valid()
      modifies card, fifo, this`flag, this`head, this`count, this`queue, this`stat
      ensures Valid() && card[..] == Stored(old(State()))
        && flag == (if proto.phase == WriteEnd then 0x00 else old(flag))
      ensures ThePort() == Line(PushRx(old(ThePort()), r.answer), r.ack)
    {
      hide Stored, PushRx, Line, SioOk;
      Store();
      ghost var stored := card[..];
      Push(r.answer);
      assert card[..] == stored;
      SetLine(r.ack);
    }

    /** sio_process_byte */
    method ProcessByte(mem: Memory, b: Byte)
      requires Valid()
      modifies this, card, fifo
      ensures Valid() && State() == SerialPort.ProcessByte(old(State()), mem, b)
    {
      ghost var s := State();
      var r := Reply(mem, b);
      Apply(r);
      proto := r.proto;
      sent := if r.proto.phase == Idle then [] else sent + [b];
      Assemble(s, mem, b, r, State());
    }

    method ResetPort()
      requires Valid()
      modifies this
      ensures Valid() && State() == Reset(old(State()))
    {
      hide SioOk;
      proto := proto.(phase := Idle);
      head, tail, count, queue := 0, 0, 0, [];
      stat := 0x0005;
      sent := [];
    }

    /** Writing the control register can acknowledge the interrupt, or reset the port. */
    method WriteCtrl(v: Word)
      requires Valid()
      modifies this
      ensures Valid() && State() == SerialPort.WriteCtrl(old(State()), v)
    {
      ctrl := v % 0x1_0000;
      if HasBit(v, 4) {
        stat := ClearBit(stat, 9);
      }
      if HasBit(v, 6) {
        ResetPort();
      }
    }

    /** hle_sio_reg_write32 */
    method WriteReg(mem: Memory, reg: nat, v: Word)
      requires Valid()
      modifies this, card, fifo
      ensures Valid() && State() == SerialPort.WriteReg(old(State()), mem, reg, v)
    {
      if reg == 0x00 {
        ProcessByte(mem, v % 0x100);
      } else if reg == 0x08 {
        mode := v % 0x1_0000;
      } else if reg == 0x0A {
        WriteCtrl(v);
      } else if reg == 0x0E {
        baud := v % 0x1_0000;
      }
    }
  }

  lemma Assemble(s: Sio, mem: Memory, b: Byte, r: SerialPort.Reply, t: Sio)
    requires SioOk(s) && r == Answer(s, mem, b)
    requires t.card == Stored(s) && t.flag == (if s.proto.phase == WriteEnd then 0x00 else s.flag)
      && t.buttons == s.buttons
    requires t.port == Line(PushRx(s.port, r.answer), r.ack) && t.proto == r.proto
    requires t.sent == if r.proto.phase == Idle then [] else s.sent + [b]
    ensures t == SerialPort.ProcessByte(s, mem, b)
  {
  }

  /** The k-th place from the tail of the ring. */
  function Slot(tail: nat, k: nat): (p: nat)
    ensures p < 8
  {
    (tail + k) % 8
  }

  lemma RingApart(tail: nat, count: nat)
    requires tail < 8 && count < 8
    ensures forall k: nat {:trigger Slot(tail, k)} :: k < count ==> Slot(tail, k) != Slot(tail, count)
    ensures (Slot(tail, count) + 1) % 8 == Slot(tail, count + 1)
  {
  }

  lemma RingShift(tail: nat)
    requires tail < 8
    ensures forall k: nat {:trigger Slot((tail + 1) % 8, k)} :: k < 8 ==> Slot((tail + 1) % 8, k) == Slot(tail, k + 1)
  {
  }
}
