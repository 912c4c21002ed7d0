/** The serial port with a memory card and a pad behind it (source/hle/hle_memcard.c): what one byte
    sent, one byte read, or one register write does. */
module SerialPort {
  import opened Words
  import opened MemCard

  datatype Phase =
    | Idle | WaitCmd
    | ReadId1 | ReadId2 | ReadMsb | ReadLsb | ReadAck2 | ReadConfirmMsb | ReadConfirmLsb
    | ReadData | ReadChecksum | ReadEnd
    | WriteId1 | WriteId2 | WriteMsb | WriteLsb | WriteData | WriteChecksum | WriteAck2 | WriteEnd
    | GetId1 | GetId2 | GetIdAck1 | GetIdAck2 | GetIdB0 | GetIdB1 | GetIdB2 | GetIdB3
    | PadPoll | PadByte1 | PadLow | PadHigh

  /** The transaction in progress. */
  datatype Proto = Proto(phase: Phase, msb: Byte, lsb: Byte, sector: Half, index: nat, tmp: Bytes, good: bool)

  /** The registers and the receive FIFO. */
  datatype Port = Port(stat: Half, mode: Half, ctrl: Half, baud: Half, rx: Bytes)

  /** The module's state, with the bytes sent since the port was last idle as the model's bookkeeping. */
  datatype Sio = Sio(card: Bytes, flag: Byte, buttons: Half, port: Port, proto: Proto, sent: Bytes)

  /** What lies behind the card image in memory; the checksum of a sector past the end reads it. */
  type Memory = nat -> Byte

  // ---- register bits ----

  function SetBit(w: Half, n: nat): Half
    requires n < 16
  {
    Pow2Is16();
    PowLess(n, 16);
    BitOpsFit(w, Pow2(n), 16);
    BitOr(w, Pow2(n))
  }

  function ClearBit(w: Half, n: nat): Half
    requires n < 16
  {
    Pow2Is16();
    PowLess(n, 16);
    BitAnd(w, 0xFFFF - Pow2(n))
  }

  predicate HasBit(w: Word, n: nat) {
    BitAnd(w, Pow2(n)) != 0
  }

  lemma {:induction false} PowLess(m: nat, n: nat)
    requires m < n
    ensures Pow2(m) < Pow2(n)
    decreases n
  {
    if m < n - 1 {
      PowLess(m, n - 1);
    }
  }

  // ---- one byte ----

  /** What a byte sent brings: the byte answered, the transaction's next state, and what becomes of
      the acknowledge line, the card and its unread-directory flag. */
  datatype Ack = Keep | Raise | Drop

  datatype Reply = Reply(answer: Byte, proto: Proto, ack: Ack)

  function To(p: Proto, phase: Phase, answer: Byte): Reply {
    Reply(answer, p.(phase := phase), Keep)
  }

  function Done(p: Proto, answer: Byte): Reply {
    Reply(answer, p.(phase := Idle), Drop)
  }

  function CardByte(card: Bytes, mem: Memory, k: nat): Byte {
    if k < |card| then card[k] else mem(k - |card|)
  }

  /** The 128 bytes at a sector's place, in the card or behind it. */
  function SectorAt(card: Bytes, mem: Memory, n: Half): (s: Bytes)
    ensures |s| == SECTOR_SIZE
  {
    seq<Byte>(SECTOR_SIZE, k requires 0 <= k < SECTOR_SIZE => CardByte(card, mem, n * SECTOR_SIZE + k))
  }

  function SectorOf(msb: Byte, lsb: Byte): Half {
    0x100 * (msb as int) + lsb
  }

  function ReadReply(card: Bytes, mem: Memory, p: Proto, b: Byte): (r: Reply)
    ensures r.proto.tmp == p.tmp
  {
    match p.phase
    case ReadId1 => To(p, ReadId2, 0x5A)
    case ReadId2 => To(p, ReadMsb, 0x5D)
    case ReadMsb => To(p.(msb := b), ReadLsb, 0x00)
    case ReadLsb => To(p.(lsb := b, sector := SectorOf(p.msb, b)), ReadAck2, 0x5C)
    case ReadAck2 => To(p, ReadConfirmMsb, 0x5D)
    case ReadConfirmMsb => To(p, ReadConfirmLsb, p.msb)
    case ReadConfirmLsb => To(p.(index := 0), ReadData, p.lsb)
    case ReadData =>
      To(p.(index := p.index + 1), if p.index + 1 >= SECTOR_SIZE then ReadChecksum else ReadData,
         if p.sector < TOTAL_SECTORS then CardByte(card, mem, p.sector * SECTOR_SIZE + p.index) else 0x00)
    case ReadChecksum => To(p, ReadEnd, Checksum(p.sector, SectorAt(card, mem, p.sector)))
    case _ => Done(p, 0x47)
  }

  function WriteReply(p: Proto, b: Byte): (r: Reply)
    requires |p.tmp| == SECTOR_SIZE
    ensures |r.proto.tmp| == SECTOR_SIZE
  {
    match p.phase
    case WriteId1 => To(p, WriteId2, 0x5A)
    case WriteId2 => To(p, WriteMsb, 0x5D)
    case WriteMsb => To(p.(msb := b), WriteLsb, 0x00)
    case WriteLsb => To(p.(lsb := b, sector := SectorOf(p.msb, b), index := 0), WriteData, 0x00)
    case WriteData =>
      var q := if p.index < SECTOR_SIZE then p.(tmp := p.tmp[p.index := b], index := p.index + 1) else p;
      To(q, if q.index >= SECTOR_SIZE then WriteChecksum else WriteData, 0x00)
    case WriteChecksum => To(p.(good := b == Checksum(p.sector, p.tmp)), WriteAck2, 0x5C)
    case WriteAck2 => To(p, WriteEnd, 0x5D)
    case _ => Done(p, if p.good then 0x47 else 0x4E)
  }

  function OtherReply(flag: Byte, buttons: Half, p: Proto, b: Byte): (r: Reply)
    ensures r.proto.tmp == p.tmp
  {
    match p.phase
    case Idle =>
      if b == 0x81 then Reply(0xFF, p.(phase := WaitCmd), Raise)
      else if b == 0x01 then Reply(0xFF, p.(phase := PadPoll), Raise)
      else To(p, Idle, 0xFF)
    case WaitCmd =>
      if b == 0x52 then To(p, ReadId1, flag)
      else if b == 0x57 then To(p, WriteId1, flag)
      else if b == 0x53 then To(p, GetId1, flag)
      else To(p, Idle, 0xFF)
    case GetId1 => To(p, GetId2, 0x5A)
    case GetId2 => To(p, GetIdAck1, 0x5D)
    case GetIdAck1 => To(p, GetIdAck2, 0x5C)
    case GetIdAck2 => To(p, GetIdB0, 0x5D)
    case GetIdB0 => To(p, GetIdB1, 0x04)
    case GetIdB1 => To(p, GetIdB2, 0x00)
    case GetIdB2 => To(p, GetIdB3, 0x00)
    case GetIdB3 => Done(p, 0x80)
    case PadPoll => if b == 0x42 then To(p, PadByte1, 0x41) else To(p, Idle, 0xFF)
    case PadByte1 => To(p, PadLow, 0x5A)
    case PadLow => To(p, PadHigh, buttons % 0x100)
    case _ => Done(p, buttons / 0x100)
  }

  predicate Reading(p: Phase) {
    p in {ReadId1, ReadId2, ReadMsb, ReadLsb, ReadAck2, ReadConfirmMsb, ReadConfirmLsb, ReadData, ReadChecksum, ReadEnd}
  }

  predicate Writing(p: Phase) {
    p in {WriteId1, WriteId2, WriteMsb, WriteLsb, WriteData, WriteChecksum, WriteAck2, WriteEnd}
  }

  function Answer(s: Sio, mem: Memory, b: Byte): (r: Reply)
    requires |s.proto.tmp| == SECTOR_SIZE
    ensures |r.proto.tmp| == SECTOR_SIZE
  {
    if Reading(s.proto.phase) then ReadReply(s.card, mem, s.proto, b)
    else if Writing(s.proto.phase) then WriteReply(s.proto, b)
    else OtherReply(s.flag, s.buttons, s.proto, b)
  }

  /** The receive FIFO takes eight bytes; more are dropped. */
  function PushRx(p: Port, b: Byte): Port {
    if |p.rx| < 8 then p.(rx := p.rx + [b], stat := SetBit(p.stat, 1)) else p
  }

  function PopRx(p: Port): (Byte, Port) {
    if p.rx == [] then (0xFF, p)
    else (p.rx[0], p.(rx := p.rx[1..], stat := if |p.rx| == 1 then ClearBit(p.stat, 1) else p.stat))
  }

  /** The acknowledge line, and the interrupt it requests when enabled. */
  function Line(p: Port, ack: Ack): Port {
    var stat := match ack case Keep => p.stat case Raise => SetBit(p.stat, 7) case Drop => ClearBit(p.stat, 7);
    p.(stat := if HasBit(p.ctrl, 12) && HasBit(stat, 7) then SetBit(stat, 9) else stat)
  }

  /** The card after the last byte of a write: the sector is stored if its checksum was right and it
      lies on the card. */
  function Stored(s: Sio): Bytes
    requires |s.card| == CARD_SIZE && |s.proto.tmp| == SECTOR_SIZE
  {
    if s.proto.phase == WriteEnd && s.proto.good && s.proto.sector < TOTAL_SECTORS
    then Put(s.card, s.proto.sector * SECTOR_SIZE, s.proto.tmp) else s.card
  }

  predicate SioOk(s: Sio) {
    |s.card| == CARD_SIZE && |s.proto.tmp| == SECTOR_SIZE && |s.port.rx| <= 8
  }

  /** sio_process_byte */
  function ProcessByte(s: Sio, mem: Memory, b: Byte): (t: Sio)
    requires SioOk(s)
    ensures SioOk(t)
  {
    var r := Answer(s, mem, b);
    Sio(Stored(s), if s.proto.phase == WriteEnd then 0x00 else s.flag, s.buttons,
        Line(PushRx(s.port, r.answer), r.ack), r.proto,
        if r.proto.phase == Idle then [] else s.sent + [b])
  }

  function Reset(s: Sio): (t: Sio)
    requires SioOk(s)
    ensures SioOk(t)
  {
    s.(port := s.port.(stat := 0x0005, rx := []), proto := s.proto.(phase := Idle), sent := [])
  }

  /** The control register can acknowledge the interrupt, or reset the port. */
  function WriteCtrl(s: Sio, v: Word): (t: Sio)
    requires SioOk(s)
    ensures SioOk(t)
  {
    var stat := if HasBit(v, 4) then ClearBit(s.port.stat, 9) else s.port.stat;
    var u := s.(port := s.port.(ctrl := v % 0x1_0000, stat := stat));
    if HasBit(v, 6) then Reset(u) else u
  }

  /** hle_sio_reg_write32 */
  function WriteReg(s: Sio, mem: Memory, reg: nat, v: Word): (t: Sio)
    requires SioOk(s)
    ensures SioOk(t)
  {
    if reg == 0x00 then ProcessByte(s, mem, v % 0x100)
    else if reg == 0x08 then s.(port := s.port.(mode := v % 0x1_0000))
    else if reg == 0x0A then WriteCtrl(s, v)
    else if reg == 0x0E then s.(port := s.port.(baud := v % 0x1_0000))
    else s
  }

  // ---- runs ----

  datatype Op = WriteOp(reg: nat, v: Word) | PopOp | ButtonsOp(buttons: Half)

  function Step(s: Sio, mem: Memory, op: Op): (t: Sio)
    requires SioOk(s)
    ensures SioOk(t)
  {
    match op
    case WriteOp(reg, v) => WriteReg(s, mem, reg, v)
    case PopOp => s.(port := PopRx(s.port).1)
    case ButtonsOp(b) => s.(buttons := b)
  }

  function Run(s: Sio, mem: Memory, ops: seq<Op>): (t: Sio)
    requires SioOk(s)
    ensures SioOk(t)
    decreases |ops|
  {
    if ops == [] then s else Run(Step(s, mem, ops[0]), mem, ops[1..])
  }

  /** The bytes sent on the data register. */
  function Sent(ops: seq<Op>): Bytes
    decreases |ops|
  {
    if ops == [] then []
    else SentBy(ops[0]) + Sent(ops[1..])
  }

  // ---- what a write transaction has sent ----

  /** How far the bytes sent have got a write, and what of them the state remembers. */
  ghost predicate Tracks(p: Proto, sent: Bytes) {
    match p.phase
    case Idle => sent == []
    case WaitCmd => sent == [0x81]
    case WriteId1 => sent == [0x81, 0x57]
    case WriteId2 => |sent| == 3 && sent[..2] == [0x81, 0x57]
    case WriteMsb => |sent| == 4 && sent[..2] == [0x81, 0x57]
    case WriteLsb => |sent| == 5 && sent[..2] == [0x81, 0x57] && p.msb == sent[4]
    case WriteData => p.index < SECTOR_SIZE && |sent| == 6 + p.index && Addressed(p, sent)
        && p.tmp[..p.index] == sent[6..]
    case WriteChecksum => |sent| == 134 && Addressed(p, sent) && p.tmp == sent[6..]
    case WriteAck2 => |sent| == 135 && Addressed(p, sent) && p.tmp == sent[6..134]
        && (p.good <==> sent[134] == Checksum(p.sector, p.tmp))
    case WriteEnd => |sent| == 136 && Addressed(p, sent) && p.tmp == sent[6..134]
        && (p.good <==> sent[134] == Checksum(p.sector, p.tmp))
    case _ => true
  }

  ghost predicate Addressed(p: Proto, sent: Bytes) {
    |p.tmp| == SECTOR_SIZE && |sent| >= 6 && sent[..2] == [0x81, 0x57] && p.sector == SectorOf(sent[4], sent[5])
  }

  ghost predicate Inv(s: Sio) {
    SioOk(s) && Tracks(s.proto, s.sent)
  }

  /** A complete write: select, command, two id bytes, address, data, its checksum, two more. */
  ghost predicate IsWrite(t: Bytes, sector: Half, data: Bytes) {
    |t| == 137 && t[0] == 0x81 && t[1] == 0x57 && sector == SectorOf(t[4], t[5]) && data == t[6..134]
        && t[134] == Checksum(sector, data)
  }

  /** What has been sent after one more byte. */
  function SentAfter(r: Reply, sent: Bytes, b: Byte): Bytes {
    if r.proto.phase == Idle then [] else sent + [b]
  }

  lemma OtherTracks(flag: Byte, buttons: Half, p: Proto, sent: Bytes, b: Byte)
    requires !Reading(p.phase) && !Writing(p.phase) && Tracks(p, sent)
    ensures var r := OtherReply(flag, buttons, p, b); Tracks(r.proto, SentAfter(r, sent, b)) && r.proto.tmp == p.tmp
  {
    assert [] + [b] == [b];
    assert [0x81] + [b] == [0x81, b];
  }

  lemma ReadTracks(card: Bytes, mem: Memory, p: Proto, sent: Bytes, b: Byte)
    requires Reading(p.phase) && Tracks(p, sent)
    ensures var r := ReadReply(card, mem, p, b); Tracks(r.proto, SentAfter(r, sent, b)) && r.proto.tmp == p.tmp
  {
  }

  lemma WriteTracks(p: Proto, sent: Bytes, b: Byte)
    requires |p.tmp| == SECTOR_SIZE && Writing(p.phase) && Tracks(p, sent)
    ensures var r := WriteReply(p, b); Tracks(r.proto, SentAfter(r, sent, b)) && |r.proto.tmp| == SECTOR_SIZE
  {
    var more := sent + [b];
    assert more[..2] == sent[..2];
    if p.phase == WriteData {
      DataTracks(p, sent, b);
    } else if p.phase == WriteChecksum {
      assert more[6..134] == sent[6..];
    } else if p.phase == WriteAck2 {
      assert more[6..134] == sent[6..134];
    }
  }

  lemma DataTracks(p: Proto, sent: Bytes, b: Byte)
    requires |p.tmp| == SECTOR_SIZE && p.phase == WriteData && Tracks(p, sent)
    ensures Tracks(WriteReply(p, b).proto, sent + [b])
  {
    var more, tmp := sent + [b], p.tmp[p.index := b];
    assert more[..2] == sent[..2] && more[4] == sent[4] && more[5] == sent[5];
    assert tmp[..p.index + 1] == p.tmp[..p.index] + [b];
    assert more[6..] == sent[6..] + [b];
    if p.index == SECTOR_SIZE - 1 {
      assert tmp[..SECTOR_SIZE] == tmp;
    }
  }

  lemma ByteTracks(s: Sio, mem: Memory, b: Byte)
    requires Inv(s)
    ensures Inv(ProcessByte(s, mem, b))
  {
    if Writing(s.proto.phase) {
      WriteTracks(s.proto, s.sent, b);
    } else if Reading(s.proto.phase) {
      ReadTracks(s.card, mem, s.proto, s.sent, b);
    } else {
      OtherTracks(s.flag, s.buttons, s.proto, s.sent, b);
    }
  }

  lemma StepTracks(s: Sio, mem: Memory, op: Op)
    requires Inv(s)
    ensures Inv(Step(s, mem, op))
  {
    if op.WriteOp? && op.reg == 0 {
      ByteTracks(s, mem, op.v % 0x100);
    }
  }

  lemma {:induction false} RunTracks(s: Sio, mem: Memory, ops: seq<Op>)
    requires Inv(s)
    ensures Inv(Run(s, mem, ops))
    decreases |ops|
  {
    if ops != [] {
      StepTracks(s, mem, ops[0]);
      RunTracks(Step(s, mem, ops[0]), mem, ops[1..]);
    }
  }

  function SentBy(op: Op): Bytes {
    if op.WriteOp? && op.reg == 0 then [op.v % 0x100] else []
  }

  lemma SentStep(s: Sio, mem: Memory, op: Op)
    requires SioOk(s)
    ensures Step(s, mem, op).sent == [] || Step(s, mem, op).sent == s.sent + SentBy(op)
  {
    assert s.sent + [] == s.sent;
  }

  lemma Carry(a: Bytes, b: Bytes, c: Bytes, t: Bytes, rest: Bytes, u: Bytes) returns (more: Bytes)
    requires t == [] || t == a + b
    requires t + c == rest + u
    ensures a + (b + c) == more + u
  {
    var gone := if t == [] then a + b else [];
    assert a + (b + c) == gone + (t + c);
    assert gone + (rest + u) == (gone + rest) + u;
    more := gone + rest;
  }

  /** The bookkeeping is what it says: an end of everything sent. */
  lemma {:induction false} SentIsEnd(s: Sio, mem: Memory, ops: seq<Op>) returns (rest: Bytes)
    requires SioOk(s)
    ensures s.sent + Sent(ops) == rest + Run(s, mem, ops).sent
    decreases |ops|
  {
    if ops == [] {
      rest := [];
    } else {
      var t := Step(s, mem, ops[0]);
      SentStep(s, mem, ops[0]);
      rest := SentIsEnd(t, mem, ops[1..]);
      rest := Carry(s.sent, SentBy(ops[0]), Sent(ops[1..]), t.sent, rest, Run(t, mem, ops[1..]).sent);
    }
  }

  // ---- when the card changes ----

  lemma StoredChanges(s: Sio)
    requires Inv(s) && Stored(s) != s.card
    ensures s.proto.sector < TOTAL_SECTORS && |s.sent| == 136
      && Stored(s) == Put(s.card, s.proto.sector * SECTOR_SIZE, s.sent[6..134])
    ensures forall b: Byte :: IsWrite(s.sent + [b], s.proto.sector, s.sent[6..134])
  {
    var p, sent := s.proto, s.sent;
    assert p.phase == WriteEnd && p.good;
    forall b: Byte ensures IsWrite(sent + [b], p.sector, sent[6..134]) {
      var t := sent + [b];
      assert t[6..134] == sent[6..134];
      assert sent[..2][0] == 0x81 && sent[..2][1] == 0x57;
    }
  }

  /** The card changes only with the last byte of a complete write whose checksum is right, and then
      exactly the addressed sector becomes the data sent. */
  lemma CardChangesByWrite(s: Sio, mem: Memory, op: Op)
    requires Inv(s) && Step(s, mem, op).card != s.card
    ensures op.WriteOp? && op.reg == 0 && s.proto.sector < TOTAL_SECTORS && |s.sent| == 136
    ensures IsWrite(s.sent + [op.v % 0x100], s.proto.sector, s.sent[6..134])
    ensures Step(s, mem, op).card == Put(s.card, s.proto.sector * SECTOR_SIZE, s.sent[6..134])
  {
    assert op.WriteOp? && op.reg == 0;
    StoredChanges(s);
  }

  lemma {:induction false} RunAppend(s: Sio, mem: Memory, ops: seq<Op>, op: Op)
    requires SioOk(s)
    ensures Run(s, mem, ops + [op]) == Step(Run(s, mem, ops), mem, op)
    decreases |ops|
  {
    if ops == [] {
      assert [op][1..] == [];
    } else {
      assert (ops + [op])[1..] == ops[1..] + [op];
      RunAppend(Step(s, mem, ops[0]), mem, ops[1..], op);
    }
  }

  lemma {:induction false} SentAppend(ops: seq<Op>, op: Op)
    ensures Sent(ops + [op]) == Sent(ops) + SentBy(op)
    decreases |ops|
  {
    hide SentBy;
    if ops == [] {
      assert [op][1..] == [];
    } else {
      assert (ops + [op])[1..] == ops[1..] + [op];
      SentAppend(ops[1..], op);
    }
  }

  /** Somewhere in the bytes sent there is a complete, correct write to a sector of the card. */
  ghost predicate HasWrite(sent: Bytes) {
    exists i: nat {:trigger sent[i..i + 137]} :: i + 137 <= |sent| && WritesSector(sent[i..i + 137])
  }

  ghost predicate WritesSector(t: Bytes) {
    |t| == 137 && IsWrite(t, SectorOf(t[4], t[5]), t[6..134]) && SectorOf(t[4], t[5]) < TOTAL_SECTORS
  }

  lemma FoundAtEnd(sent: Bytes, rest: Bytes, t: Bytes)
    requires sent == rest + t && WritesSector(t)
    ensures HasWrite(sent)
  {
    assert sent[|rest|..|rest| + 137] == t;
  }

  lemma HasWriteGrows(sent: Bytes, more: Bytes)
    requires HasWrite(sent)
    ensures HasWrite(sent + more)
  {
    var i: nat :| i + 137 <= |sent| && WritesSector(sent[i..i + 137]);
    assert (sent + more)[i..i + 137] == sent[i..i + 137];
  }

  lemma ChangeIsWrite(s: Sio, mem: Memory, op: Op, rest: Bytes, sent: Bytes)
    requires Inv(s) && Step(s, mem, op).card != s.card && sent == rest + s.sent
    ensures HasWrite(sent + SentBy(op))
  {
    CardChangesByWrite(s, mem, op);
    var t := s.sent + [op.v % 0x100];
    assert t[6..134] == s.sent[6..134];
    assert rest + s.sent + [op.v % 0x100] == rest + t;
    FoundAtEnd(sent + SentBy(op), rest, t);
  }

  /** Over every stream of register accesses from an idle port: if no part of what was sent is a
      complete write with a correct checksum, the card is as it was. */
  lemma {:induction false} UnchangedUnlessWritten(s: Sio, mem: Memory, ops: seq<Op>)
    requires Inv(s) && s.sent == [] && !HasWrite(Sent(ops))
    ensures Run(s, mem, ops).card == s.card
    decreases |ops|
  {
    if ops != [] {
      var init, op := ops[..|ops| - 1], ops[|ops| - 1];
      assert ops == init + [op];
      SentAppend(init, op);
      if HasWrite(Sent(init)) {
        HasWriteGrows(Sent(init), SentBy(op));
      }
      UnchangedUnlessWritten(s, mem, init);
      RunAppend(s, mem, init, op);
      RunTracks(s, mem, init);
      var t := Run(s, mem, init);
      var rest := SentIsEnd(s, mem, init);
      assert Sent(init) == rest + t.sent;
      if Step(t, mem, op).card != t.card {
        ChangeIsWrite(t, mem, op, rest, Sent(init));
      }
    }
  }
}
