/** The CD-ROM controller (ext/oracle/psxrecomp_cdrom.c) as a state machine: what each entry point
    does to the controller's state. Guest time, DMA activity and the disc are inputs. */
module Cdrom {
  import opened Options
  import opened Words

  const STAT_ERROR: Byte := 0x01
  const STAT_MOTOR: Byte := 0x02
  const STAT_SEEKERR: Byte := 0x04
  const STAT_IDERROR: Byte := 0x08
  const STAT_SHELL: Byte := 0x10
  const STAT_READ: Byte := 0x20
  const STAT_SEEK: Byte := 0x40
  const STAT_PLAY: Byte := 0x80

  const DATA_READY: Byte := 1
  const COMPLETE: Byte := 2
  const ACK: Byte := 3
  const ERROR: Byte := 5

  const PRESENT_DELAY: nat := 5000
  const SECTOR_CYCLES: nat := 451584
  const VBLANK_CYCLES: nat := 564480
  const MIN_DELAY: nat := 500
  const FIFO_SIZE: nat := 16
  const NEVER: Word := 0xFFFF_FFFF

  /** A slice of guest time; the code subtracts it as a signed 32-bit number. */
  type Cycles = c: nat | c < 0x8000_0000

  datatype Msf = Msf(m: int, s: int, f: int)

  datatype Second = Second(cmd: Byte, due: nat)

  datatype Queued = Queued(cmd: Byte, params: seq<Byte>)

  /** What reading one sector brings: data for the FIFO or not (audio sectors bring none), and
      whether an audio stream is playing now. */
  datatype Sector = Sector(data: bool, xa: bool)

  /** The world around the controller: whether a disc with one data track is in, the helper that
      matches the enable mask with a response (not part of the file), the position and track bytes
      of the Get commands, the region string, and the configured drive speed. */
  datatype Host = Host(disc: bool, matches: (Byte, Byte) -> bool, info: (Byte, Drive) -> seq<Byte>, scex: seq<Byte>,
      divisor: int, perFrame: nat)

  /** The response shown to the guest, its generation, whether that was raised, and when it may be.
      Bookkeeping of the model: responses set over an unacknowledged one, and the generations for
      which the interrupt controller was raised, in order. */
  datatype Irq = Irq(flag: Byte, latched: bool, gen: nat, due: nat, overwrites: nat, raised: seq<nat>)

  /** The one-deep pended data-ready notification, with the code's counters of pended, lost and shown
      ones. Bookkeeping of the model: pended ones shown after an acknowledge, and cancelled ones. */
  datatype Int1 = Int1(pended: bool, stat: Byte, total: nat, lost: nat, fires: nat, shown: nat, cancelled: nat)

  datatype Drive = Drive(stat: Byte, mode: Byte, file: Byte, channel: Byte, reading: bool, readDelay: int,
                         readPos: Msf, seekPos: Msf, seekFar: bool, lastLba: int, xa: bool)

  /** The controller's globals. */
  datatype Cd = Cd(now: nat, index: Byte, enable: Byte, params: seq<Byte>, response: seq<Byte>,
                   irq: Irq, second: Option<Second>, queued: Option<Queued>, int1: Int1, drive: Drive)

  // ---- bits ----

  function OrB(a: Byte, b: Byte): Byte {
    assert Pow2(8) == 0x100;
    BitOpsFit(a, b, 8);
    BitOr(a, b)
  }

  function AndB(a: Byte, b: Byte): Byte {
    BitAnd(a, b)
  }

  /** a & ~b */
  function Without(a: Byte, b: Byte): Byte {
    BitAnd(a, 0xFF - b)
  }

  function FromBcd(b: Byte): int {
    b / 0x10 * 10 + b % 0x10
  }

  function Lba(p: Msf): int {
    (p.m * 60 + p.s) * 75 + p.f - 150
  }

  function NextMsf(p: Msf): Msf {
    var (f, s) := if p.f + 1 >= 75 then (0, p.s + 1) else (p.f + 1, p.s);
    if s >= 60 then Msf(p.m + 1, 0, f) else Msf(p.m, s, f)
  }

  // ---- delays ----

  function AtLeast(d: int, low: int): (r: int)
    ensures r >= low
  {
    if d < low then low else d
  }

  function ApplySpeed(h: Host, d: Drive, delay: nat): (r: int)
    ensures delay > 0 ==> r > 0
  {
    if d.xa then delay
    else if h.divisor == 0 then AtLeast(if h.perFrame == 0 then MIN_DELAY else VBLANK_CYCLES / h.perFrame, MIN_DELAY)
    else AtLeast(TruncDiv(delay, h.divisor), MIN_DELAY)
  }

  function ReadSpeed(h: Host, d: Drive, delay: nat): (r: int)
    ensures delay > 0 ==> r > 0
  {
    if d.xa || AndB(d.mode, 0x68) != 0 then delay else ApplySpeed(h, d, delay)
  }

  function SectorDelay(h: Host, d: Drive): (r: int)
    ensures r > 0
  {
    ReadSpeed(h, d, if d.mode >= 0x80 then SECTOR_CYCLES / 2 else SECTOR_CYCLES)
  }

  function FirstSectorDelay(h: Host, d: Drive): (r: int)
    ensures r > 0
  {
    ReadSpeed(h, d, if d.mode >= 0x80 then SECTOR_CYCLES else SECTOR_CYCLES * 2)
  }

  function PauseDelay(d: Drive): int {
    if !d.reading && AndB(d.stat, STAT_READ + STAT_PLAY) == 0 then 5000
    else
      var lba := if d.reading then Lba(d.readPos) else d.lastLba;
      var cycles := 1124584 + (if lba < 0 then 0 else lba) * 42596 / 4500;
      if d.mode < 0x80 then cycles * 2 else cycles
  }

  // ---- responses and their presentation ----

  function Push(bytes: seq<Byte>): (r: seq<Byte>)
    ensures |r| <= FIFO_SIZE
  {
    if |bytes| <= FIFO_SIZE then bytes else bytes[..FIFO_SIZE]
  }

  /** set_irq: a new response generation, to be presented once its processing delay has passed. */
  function SetIrq(q: Irq, now: nat, kind: Byte): Irq {
    q.(flag := kind, gen := q.gen + 1, latched := false, due := now + PRESENT_DELAY,
       overwrites := q.overwrites + if q.flag != 0 then 1 else 0)
  }

  /** present_cdrom_irq: raise the interrupt controller, once a generation. */
  function Raise(h: Host, q: Irq, now: nat, enable: Byte): Irq {
    if q.due != 0 && now < q.due then q
    else if h.matches(enable, q.flag) && !q.latched then q.(latched := true, raised := q.raised + [q.gen])
    else q
  }

  function Present(h: Host, s: Cd): Cd {
    s.(irq := Raise(h, s.irq, s.now, s.enable))
  }

  /** A response's bytes and type. */
  function Shown(s: Cd, bytes: seq<Byte>, kind: Byte): Cd {
    s.(response := Push(bytes), irq := SetIrq(s.irq, s.now, kind))
  }

  /** A response, and the first try to present it. */
  function Respond(h: Host, s: Cd, bytes: seq<Byte>, kind: Byte): Cd {
    Present(h, Shown(s, bytes, kind))
  }

  // ---- commands ----

  /** cdrom_clear_pending_dataready */
  function Cancel(n: Int1): Int1 {
    n.(pended := false, stat := 0, cancelled := n.cancelled + if n.pended then 1 else 0)
  }

  function StartRead(h: Host, d: Drive): Drive {
    var t := d.(stat := Without(d.stat, STAT_PLAY), xa := d.xa && d.mode / 0x40 % 2 == 0, readPos := d.seekPos);
    t.(readDelay := FirstSectorDelay(h, t), reading := true, stat := OrB(t.stat, STAT_READ))
  }

  function SetLoc(d: Drive, params: seq<Byte>): Drive {
    if |params| >= 3 then
      var here := if d.lastLba >= 0 then d.lastLba else Lba(d.seekPos);
      var to := Msf(FromBcd(params[0]), FromBcd(params[1]), FromBcd(params[2]));
      d.(seekPos := to, seekFar := here - Lba(to) > 16 || Lba(to) - here > 16)
    else d
  }

  /** What a command does to the drive, whether it cancels a pended INT1, its immediate answer, and
      the latency of its second answer, if it has one. */
  datatype Answer = Answer(drive: Drive, cancels: bool, bytes: seq<Byte>, kind: Byte, latency: Option<int>)

  function Once(d: Drive, bytes: seq<Byte>, kind: Byte): Answer {
    Answer(d, false, bytes, kind, None)
  }

  function Refuse(d: Drive, bits: Byte, more: seq<Byte>): Answer {
    Once(d, [OrB(d.stat, bits)] + more, ERROR)
  }

  /** exec_command's switch, on a disc without audio tracks. */
  function Execute(h: Host, d: Drive, params: seq<Byte>, cmd: Byte): Answer {
    if cmd == 0x03 then Play(h, d, params)
    else if cmd == 0x06 || cmd == 0x1B then
      if !h.disc then Refuse(d, STAT_ERROR, [])
      else
        var t := StartRead(h, d);
        Answer(t, true, [t.stat], ACK, None)
    else if cmd in {0x08, 0x09, 0x0A} then Halt(h, d, cmd)
    else if cmd in {0x07, 0x15, 0x16, 0x1A, 0x1E} then Begin(h, d, cmd)
    else if cmd in {0x02, 0x0D, 0x0E} then Configure(d, params, cmd)
    else Inquire(h, d, params, cmd)
  }

  /** Play without audio tracks: a silent play state from SetLoc, or an error for a named track. */
  function Play(h: Host, d: Drive, params: seq<Byte>): Answer {
    if !h.disc then Refuse(d, STAT_ERROR, [])
    else if |params| >= 1 && params[0] != 0 && FromBcd(params[0]) != 0 then Refuse(d, STAT_ERROR, [0x10])
    else
      var stat := OrB(OrB(Without(d.stat, STAT_SEEK + STAT_READ), STAT_MOTOR), STAT_PLAY);
      Answer(d.(reading := false, readDelay := 0, stat := stat), true, [stat], ACK, None)
  }

  /** Stop, Pause and Init end the read stream, and answer again when the drive has settled. */
  function Halt(h: Host, d: Drive, cmd: Byte): Answer {
    var stat := if cmd == 0x08 then Without(d.stat, STAT_READ + STAT_PLAY + STAT_SEEK)
                else if cmd == 0x09 then Without(d.stat, STAT_READ + STAT_PLAY)
                else if h.disc then STAT_MOTOR else STAT_SHELL;
    var t := d.(reading := false, readDelay := 0, stat := stat, xa := false);
    var latency := if cmd == 0x08 then ApplySpeed(h, t, 30000) else if cmd == 0x09 then PauseDelay(d) else 131072;
    Answer(t, true, [stat], ACK, Some(latency))
  }

  /** MotorOn, SeekL, SeekP, GetID and ReadTOC answer twice too, but leave the read stream alone. */
  function Begin(h: Host, d: Drive, cmd: Byte): Answer {
    if cmd == 0x07 then
      if AndB(d.stat, STAT_MOTOR) != 0 then Refuse(d, STAT_ERROR, [0x20])
      else Answer(d, false, [d.stat], ACK, Some(ApplySpeed(h, d, 30000)))
    else if cmd == 0x15 || cmd == 0x16 then
      if !h.disc then Refuse(d, OrB(STAT_ERROR, STAT_SEEKERR), [])
      else
        var t := d.(xa := false, stat := OrB(Without(d.stat, STAT_PLAY), STAT_SEEK));
        Answer(t, false, [t.stat], ACK, Some(ApplySpeed(h, t, if t.seekFar then SECTOR_CYCLES * 4 else 0x800)))
    else Answer(d, false, [d.stat], ACK, Some(if cmd == 0x1A then 33868 else 30000000))
  }

  /** SetLoc, SetFilter and SetMode take effect only with enough parameters. */
  function Configure(d: Drive, params: seq<Byte>, cmd: Byte): Answer {
    var t := if cmd == 0x02 then SetLoc(d, params)
             else if cmd == 0x0D && |params| >= 2 then d.(file := params[0], channel := params[1], xa := false)
             else if cmd == 0x0E && |params| >= 1 then d.(mode := params[0], xa := d.xa && params[0] / 0x40 % 2 == 1)
             else d;
    Once(t, [d.stat], ACK)
  }

  /** The other commands with one answer. */
  function Inquire(h: Host, d: Drive, params: seq<Byte>, cmd: Byte): Answer {
    if cmd == 0x01 then
      var t := d.(stat := OrB(d.stat, if h.disc then STAT_MOTOR else STAT_SHELL));
      Once(t, [t.stat], ACK)
    else if cmd == 0x0F then Once(d, [d.stat, d.mode, 0, d.file, d.channel], ACK)
    else if cmd == 0x10 || cmd == 0x11 then Once(d, h.info(cmd, d), ACK)
    else if cmd == 0x13 then Once(d, [d.stat] + h.info(cmd, d), ACK)
    else if cmd == 0x14 then
      if !h.disc then Refuse(d, STAT_ERROR, [0x80]) else Once(d, [d.stat] + h.info(cmd, d), ACK)
    else if cmd == 0x19 then
      Once(d, if |params| >= 1 && params[0] == 0x20 then [0x94, 0x09, 0x19, 0xC0] else [d.stat], ACK)
    else if cmd == 0x0B || cmd == 0x0C then Once(d, [d.stat], ACK)
    else Refuse(d, STAT_ERROR, [])
  }

  /** The state an answer leaves, before its bytes are shown. */
  function Acted(s: Cd, cmd: Byte, a: Answer): Cd {
    var second := if a.latency.None? then s.second
                  else Some(Second(cmd, s.now + if a.latency.value < 0 then 0 else a.latency.value));
    s.(drive := a.drive, int1 := if a.cancels then Cancel(s.int1) else s.int1, second := second)
  }

  /** exec_command */
  function Exec(h: Host, s: Cd, cmd: Byte): Cd {
    var a := Execute(h, s.drive, s.params, cmd);
    Respond(h, Acted(s, cmd, a).(params := []), a.bytes, a.kind)
  }

  function QueueOrExec(h: Host, s: Cd, cmd: Byte): Cd {
    if s.irq.flag == 0 then Exec(h, s, cmd) else s.(queued := Some(Queued(cmd, s.params)), params := [])
  }

  function TryQueued(h: Host, s: Cd): Cd {
    if s.queued.None? || s.irq.flag != 0 then s
    else Exec(h, s.(params := s.queued.value.params, queued := None), s.queued.value.cmd)
  }

  // ---- second responses ----

  /** What the drive reports when a command has finished. */
  function Settled(d: Drive, cmd: Byte): Drive {
    if cmd == 0x07 then d.(stat := OrB(d.stat, STAT_MOTOR))
    else if cmd == 0x08 then d.(stat := Without(d.stat, STAT_MOTOR + STAT_READ + STAT_PLAY + STAT_SEEK))
    else if cmd == 0x09 then d.(stat := Without(d.stat, STAT_READ))
    else if cmd == 0x15 || cmd == 0x16 then d.(stat := Without(d.stat, STAT_SEEK), seekFar := false)
    else d
  }

  /** Only these commands arm a second response. */
  predicate Armed(cmd: Byte) {
    cmd in {0x07, 0x08, 0x09, 0x0A, 0x15, 0x16, 0x1A, 0x1E}
  }

  function Finish(h: Host, s: Cd, cmd: Byte): Cd {
    var d := Settled(s.drive, cmd);
    var t := s.(drive := d);
    if !Armed(cmd) then s
    else if cmd == 0x1A && !h.disc then Respond(h, t, [OrB(d.stat, STAT_IDERROR), 0x80], ERROR)
    else if cmd == 0x1A then Respond(h, t, [d.stat, 0x00, 0x20, 0x00] + h.scex, COMPLETE)
    else Respond(h, t, [d.stat], COMPLETE)
  }

  /** process_pending: held back until due, and until the last response is acknowledged. */
  function ProcessSecond(h: Host, s: Cd): Cd {
    if s.second.None? || s.now < s.second.value.due || s.irq.flag != 0 then s
    else Finish(h, s.(second := None, response := []), s.second.value.cmd)
  }

  // ---- the sector stream ----

  function ReadSector(d: Drive, sec: Sector): Drive {
    d.(lastLba := Lba(d.readPos), xa := sec.xa, readPos := NextMsf(d.readPos))
  }

  /** One more INT1 waits for an acknowledge; one that was waiting is lost. */
  function Pend(n: Int1, stat: Byte): Int1 {
    n.(pended := true, stat := stat, total := n.total + 1, lost := n.lost + if n.pended then 1 else 0)
  }

  /** A sector comes due: show INT1, or refill for an active transfer, or pend INT1 one deep. */
  function SectorDue(h: Host, s: Cd, dma: bool, sec: Sector): Cd {
    var t := s.(drive := ReadSector(s.drive, sec));
    if !sec.data then t
    else if s.irq.flag == 0 then Respond(h, t.(int1 := t.int1.(fires := t.int1.fires + 1)), [t.drive.stat], DATA_READY)
    else if dma then t
    else t.(int1 := Pend(t.int1, t.drive.stat))
  }

  /** process_read_stream: disc time never pauses, and a long slice does not cause a burst. */
  function ProcessRead(h: Host, s: Cd, cycles: Cycles, dma: bool, sec: Sector): Cd {
    var left := s.drive.readDelay - cycles;
    if !s.drive.reading then s
    else if left > 0 then s.(drive := s.drive.(readDelay := left))
    else
      var t := SectorDue(h, s, dma, sec);
      var period := SectorDelay(h, t.drive);
      t.(drive := t.drive.(readDelay := if left + period <= 0 then period else left + period))
  }

  /** present_pending_dataready */
  function PresentPended(h: Host, s: Cd): Cd {
    if !s.int1.pended || s.irq.flag != 0 then s
    else
      var n := s.int1;
      Respond(h, s.(int1 := n.(pended := false, fires := n.fires + 1, shown := n.shown + 1)), [n.stat], DATA_READY)
  }

  // ---- register writes and time ----

  /** Clearing response bits re-arms the latch when the last one goes. */
  function ClearFlag(q: Irq, val: Byte): Irq {
    var flag := Without(q.flag, AndB(val, 0x1F));
    q.(flag := flag, latched := q.latched && !(AndB(q.flag, 0x1F) != 0 && AndB(flag, 0x1F) == 0))
  }

  /** The acknowledge write: clear response bits, then serve what waited: the pended INT1, a due
      second response, the queued command. */
  function Acknowledge(h: Host, s: Cd, val: Byte): Cd {
    var t := s.(irq := ClearFlag(s.irq, val), params := if AndB(val, 0x40) != 0 then [] else s.params);
    TryQueued(h, ProcessSecond(h, PresentPended(h, t)))
  }

  /** cdrom_write to register 0x1F801800 + reg; the volume and request ports hold no protocol state. */
  function WriteReg(h: Host, s: Cd, reg: nat, val: Byte): Cd {
    if reg == 0 then s.(index := AndB(val, 0x03))
    else if reg == 1 && s.index == 0 then QueueOrExec(h, s, val)
    else if reg == 2 && s.index == 0 then (if |s.params| < FIFO_SIZE then s.(params := s.params + [val]) else s)
    else if reg == 2 && s.index == 1 then s.(enable := AndB(val, 0x1F))
    else if reg == 3 && s.index == 1 then Acknowledge(h, s, val)
    else s
  }

  /** cdrom_read from register 0x1F801800 + reg, given whether the data FIFO has bytes: the byte read, and
      the state after it. Reading takes a byte out of the response FIFO. */
  function ReadReg(s: Cd, reg: nat, dataReady: bool): (Byte, Cd) {
    if reg == 0 then
      (AndB(s.index, 0x03) + (if s.params == [] then 0x08 else 0) + (if |s.params| < FIFO_SIZE then 0x10 else 0)
       + (if s.response != [] then 0x20 else 0) + (if dataReady then 0x40 else 0)
           + (if s.queued.Some? then 0x80 else 0), s)
    else if reg == 1 then (if s.response != [] then (s.response[0], s.(response := s.response[1..])) else (0, s))
    else if reg == 3 then (if s.index == 0 || s.index == 2 then s.enable else OrB(s.irq.flag, 0xE0), s)
    else (0, s)
  }

  /** cdrom_advance */
  function Advance(h: Host, s: Cd, cycles: Cycles, dma: bool, sec: Sector): Cd {
    Present(h, ProcessRead(h, TryQueued(h, ProcessSecond(h, Present(h, s))), cycles, dma, sec))
  }

  /** Cycles left until an absolute deadline, as a signed 32-bit number. */
  function Remaining(now: nat, due: nat): nat {
    if due == 0 || now >= due then 0
    else if due - now > 0x7FFF_FFFF then 0x7FFF_FFFF
    else due - now
  }

  function Lesser(a: nat, b: nat): nat {
    if a < b then a else b
  }

  /** cdrom_cycles_to_irq */
  function CyclesToIrq(h: Host, s: Cd, mask: Word): nat {
    if mask / 4 % 2 == 0 then NEVER
    else
      var a := if h.matches(s.enable, s.irq.flag) then Lesser(Remaining(s.now, s.irq.due), NEVER) else NEVER;
      var b := if s.second.None? then a
               else if s.now < s.second.value.due then Lesser(Remaining(s.now, s.second.value.due), a)
               else if s.irq.flag == 0 then 0 else a;
      if s.drive.reading && s.drive.readDelay > 0 then Lesser(s.drive.readDelay, b) else b
  }

  /** cdrom_init, with the clock at now. */
  function Init(h: Host, now: nat): Cd {
    Cd(now, 0, 0x1F, [], [], Irq(0, false, 0, 0, 0, []), None, None, Int1(false, 0, 0, 0, 0, 0, 0),
       Drive(if h.disc then STAT_MOTOR else STAT_SHELL, 0, 0, 0, false, 0,
             Msf(0, 0, 0), Msf(0, 0, 0), false, -1, false))
  }

  // ---- runs ----

  /** One call into the controller, or guest time passing. */
  datatype Op =
    | WriteOp(reg: nat, val: Byte)
    | ReadOp(reg: nat, dataReady: bool)
    | ClockOp(cycles: nat)
    | AdvanceOp(slice: Cycles, dma: bool, sec: Sector)

  /** The configuration may change between calls. */
  datatype Call = Call(h: Host, op: Op)

  function Step(s: Cd, c: Call): Cd {
    match c.op
    case WriteOp(reg, val) => WriteReg(c.h, s, reg, val)
    case ReadOp(reg, dataReady) => ReadReg(s, reg, dataReady).1
    case ClockOp(cycles) => s.(now := s.now + cycles)
    case AdvanceOp(slice, dma, sec) => Advance(c.h, s, slice, dma, sec)
  }

  function Run(s: Cd, calls: seq<Call>): Cd
    decreases |calls|
  {
    if calls == [] then s else Run(Step(s, calls[0]), calls[1..])
  }

  // ---- what every run keeps ----

  /** The mask helper never matches when there is no response. */
  ghost predicate HostOk(h: Host) {
    forall e: Byte {:trigger h.matches(e, 0)} :: !h.matches(e, 0)
  }

  /** Generations are raised in order and at most once; an open one is still to be raised. */
  ghost predicate RaisedOk(raised: seq<nat>, gen: nat, open: bool) {
    && (forall i, j :: 0 <= i < j < |raised| ==> raised[i] < raised[j])
    && (forall i :: 0 <= i < |raised| ==> raised[i] <= gen)
    && (open ==> gen !in raised)
  }

  /** No response was set over an unacknowledged one, and none raised twice. */
  ghost predicate IrqOk(q: Irq) {
    q.flag < 0x20 && q.overwrites == 0 && RaisedOk(q.raised, q.gen, q.flag != 0 && !q.latched)
  }

  /** Every pended INT1 was lost, shown after an acknowledge, or is the one pended now. None is ever
      cancelled: commands execute only with no response outstanding, when none is pended. */
  predicate Conserved(n: Int1) {
    n.total == n.lost + n.shown + (if n.pended then 1 else 0) && n.cancelled == 0
  }

  predicate DriveOk(d: Drive) {
    d.reading ==> d.readDelay > 0
  }

  /** What holds at every point inside a call. */
  ghost predicate Core(s: Cd) {
    && IrqOk(s.irq) && Conserved(s.int1) && DriveOk(s.drive)
    && |s.params| <= FIFO_SIZE && |s.response| <= FIFO_SIZE
    && (s.queued.Some? ==> |s.queued.value.params| <= FIFO_SIZE)
    && (s.second.Some? ==> Armed(s.second.value.cmd))
  }

  /** What holds between calls: a command or an INT1 waits only behind an unacknowledged response. */
  ghost predicate Inv(s: Cd) {
    Core(s) && (s.queued.Some? ==> s.irq.flag != 0) && (s.int1.pended ==> s.irq.flag != 0)
  }

  lemma RaiseNext(raised: seq<nat>, gen: nat)
    requires RaisedOk(raised, gen, true)
    ensures RaisedOk(raised + [gen], gen, false)
  {
    forall i, j | 0 <= i < j < |raised + [gen]| ensures (raised + [gen])[i] < (raised + [gen])[j] {
      assert raised[i] in raised;
    }
  }

  lemma RaiseKeeps(h: Host, q: Irq, now: nat, enable: Byte)
    requires HostOk(h) && IrqOk(q)
    ensures IrqOk(Raise(h, q, now, enable)) && Raise(h, q, now, enable).flag == q.flag
  {
    if Raise(h, q, now, enable) != q {
      assert !h.matches(enable, 0);
      RaiseNext(q.raised, q.gen);
    }
  }

  lemma PresentCore(h: Host, s: Cd)
    requires HostOk(h) && Core(s)
    ensures Core(Present(h, s)) && Present(h, s).irq.flag == s.irq.flag
  {
    RaiseKeeps(h, s.irq, s.now, s.enable);
  }

  /** A response is set only when the last one is acknowledged. */
  lemma RespondKeeps(h: Host, s: Cd, bytes: seq<Byte>, kind: Byte)
    requires HostOk(h) && Core(s) && s.irq.flag == 0 && 0 < kind < 0x20
    ensures Inv(Respond(h, s, bytes, kind)) && Respond(h, s, bytes, kind).irq.flag == kind
  {
    RaiseKeeps(h, SetIrq(s.irq, s.now, kind), s.now, s.enable);
  }

  lemma ExecuteOk(h: Host, d: Drive, params: seq<Byte>, cmd: Byte)
    requires DriveOk(d)
    ensures var a := Execute(h, d, params, cmd);
            DriveOk(a.drive) && (a.kind == ACK || a.kind == ERROR) && (a.latency.Some? ==> Armed(cmd))
  {
  }

  lemma ExecKeeps(h: Host, s: Cd, cmd: Byte)
    requires HostOk(h) && Core(s) && s.irq.flag == 0 && !s.int1.pended
    ensures Inv(Exec(h, s, cmd)) && (Exec(h, s, cmd).irq.flag == ACK || Exec(h, s, cmd).irq.flag == ERROR)
  {
    ExecuteOk(h, s.drive, s.params, cmd);
    var a := Execute(h, s.drive, s.params, cmd);
    RespondKeeps(h, Acted(s, cmd, a).(params := []), a.bytes, a.kind);
  }

  lemma FinishKeeps(h: Host, s: Cd, cmd: Byte)
    requires HostOk(h) && Core(s) && s.irq.flag == 0 && Armed(cmd)
    ensures Inv(Finish(h, s, cmd)) && (Finish(h, s, cmd).irq.flag == COMPLETE || Finish(h, s, cmd).irq.flag == ERROR)
  {
    var d := Settled(s.drive, cmd);
    var t := s.(drive := d);
    RespondKeeps(h, t, [OrB(d.stat, STAT_IDERROR), 0x80], ERROR);
    RespondKeeps(h, t, [d.stat, 0x00, 0x20, 0x00] + h.scex, COMPLETE);
    RespondKeeps(h, t, [d.stat], COMPLETE);
  }

  lemma SecondKeeps(h: Host, s: Cd)
    requires HostOk(h) && Core(s)
    ensures var t := ProcessSecond(h, s); Core(t) && (if t.irq.flag == 0 then t == s else t == s || Inv(t))
  {
    if s.second.Some? && s.now >= s.second.value.due && s.irq.flag == 0 {
      FinishKeeps(h, s.(second := None, response := []), s.second.value.cmd);
    }
  }

  lemma QueuedKeeps(h: Host, s: Cd)
    requires HostOk(h) && Core(s) && (s.int1.pended ==> s.irq.flag != 0)
    ensures Inv(TryQueued(h, s))
  {
    if s.queued.Some? && s.irq.flag == 0 {
      ExecKeeps(h, s.(params := s.queued.value.params, queued := None), s.queued.value.cmd);
    }
  }

  lemma SectorKeeps(h: Host, s: Cd, dma: bool, sec: Sector)
    requires HostOk(h) && Inv(s)
    ensures Inv(SectorDue(h, s, dma, sec))
  {
    var t := s.(drive := ReadSector(s.drive, sec));
    if sec.data && s.irq.flag == 0 {
      RespondKeeps(h, t.(int1 := t.int1.(fires := t.int1.fires + 1)), [t.drive.stat], DATA_READY);
    }
  }

  lemma ReadKeeps(h: Host, s: Cd, cycles: Cycles, dma: bool, sec: Sector)
    requires HostOk(h) && Inv(s)
    ensures Inv(ProcessRead(h, s, cycles, dma, sec))
  {
    SectorKeeps(h, s, dma, sec);
  }

  lemma AdvanceKeeps(h: Host, s: Cd, cycles: Cycles, dma: bool, sec: Sector)
    requires HostOk(h) && Inv(s)
    ensures Inv(Advance(h, s, cycles, dma, sec))
  {
    var a := Present(h, s);
    PresentCore(h, s);
    var b := ProcessSecond(h, a);
    SecondKeeps(h, a);
    var c := TryQueued(h, b);
    QueuedKeeps(h, b);
    ReadKeeps(h, c, cycles, dma, sec);
    PresentCore(h, ProcessRead(h, c, cycles, dma, sec));
  }

  lemma PendedKeeps(h: Host, s: Cd)
    requires HostOk(h) && Core(s)
    ensures var t := PresentPended(h, s); Core(t) && (t.int1.pended ==> t.irq.flag != 0)
  {
    if s.int1.pended && s.irq.flag == 0 {
      var n := s.int1;
      RespondKeeps(h, s.(int1 := n.(pended := false, fires := n.fires + 1, shown := n.shown + 1)), [n.stat],
          DATA_READY);
    }
  }

  lemma ClearFlagKeeps(q: Irq, val: Byte)
    requires IrqOk(q)
    ensures IrqOk(ClearFlag(q, val)) && ClearFlag(q, val).flag <= q.flag
  {
    LowFive(Without(q.flag, AndB(val, 0x1F)));
  }

  lemma LowFive(flag: Byte)
    ensures flag < 0x20 ==> AndB(flag, 0x1F) == flag
  {
    if flag < 0x20 {
      Pow2Is5();
      MaskFits(flag, 5, 0x20, 0x1F);
    }
  }

  lemma AcknowledgeKeeps(h: Host, s: Cd, val: Byte)
    requires HostOk(h) && Inv(s)
    ensures Inv(Acknowledge(h, s, val))
  {
    var t := s.(irq := ClearFlag(s.irq, val), params := if AndB(val, 0x40) != 0 then [] else s.params);
    ClearFlagKeeps(s.irq, val);
    PendedKeeps(h, t);
    var u := PresentPended(h, t);
    SecondKeeps(h, u);
    QueuedKeeps(h, ProcessSecond(h, u));
  }

  lemma QueueKeeps(h: Host, s: Cd, cmd: Byte)
    requires HostOk(h) && Inv(s)
    ensures Inv(QueueOrExec(h, s, cmd))
  {
    if s.irq.flag == 0 {
      ExecKeeps(h, s, cmd);
    }
  }

  lemma WriteKeeps(h: Host, s: Cd, reg: nat, val: Byte)
    requires HostOk(h) && Inv(s)
    ensures Inv(WriteReg(h, s, reg, val))
  {
    if reg == 1 && s.index == 0 {
      QueueKeeps(h, s, val);
    } else if reg == 3 && s.index == 1 {
      AcknowledgeKeeps(h, s, val);
    }
  }

  lemma StepKeeps(s: Cd, c: Call)
    requires HostOk(c.h) && Inv(s)
    ensures Inv(Step(s, c))
  {
    match c.op
    case WriteOp(reg, val) => WriteKeeps(c.h, s, reg, val);
    case ReadOp(_, _) =>
    case ClockOp(_) =>
    case AdvanceOp(slice, dma, sec) => AdvanceKeeps(c.h, s, slice, dma, sec);
  }

  /** On every run from initialization: no response is set over an unacknowledged one, no generation
      is raised twice, a read in progress has cycles left, waiting commands and INT1s wait behind an
      unacknowledged response, and every pended INT1 is accounted for. */
  lemma {:induction false} RunKeeps(s: Cd, calls: seq<Call>)
    requires Inv(s) && forall i :: 0 <= i < |calls| ==> HostOk(calls[i].h)
    ensures Inv(Run(s, calls))
    decreases |calls|
  {
    if calls != [] {
      StepKeeps(s, calls[0]);
      RunKeeps(Step(s, calls[0]), calls[1..]);
    }
  }

  lemma InitOk(h: Host, now: nat)
    ensures Inv(Init(h, now))
  {
  }

  /** The same, said of the outputs of a run from power-on: each raised generation is raised once and
      in order, nothing was overwritten, and no INT1 is unaccounted for. */
  lemma RunFromInit(h: Host, now: nat, calls: seq<Call>)
    requires forall i :: 0 <= i < |calls| ==> HostOk(calls[i].h)
    ensures var s := Run(Init(h, now), calls);
            && (forall i, j :: 0 <= i < j < |s.irq.raised| ==> s.irq.raised[i] < s.irq.raised[j] <= s.irq.gen)
            && s.irq.overwrites == 0 && Conserved(s.int1)
            && (s.drive.reading ==> s.drive.readDelay > 0)
            && (s.irq.flag == 0 ==> s.queued == None && !s.int1.pended)
  {
    InitOk(h, now);
    RunKeeps(Init(h, now), calls);
  }

  // ---- the order of service ----

  /** The state once an acknowledge has cleared its bits. */
  function Cleared(s: Cd, val: Byte): Cd {
    s.(irq := ClearFlag(s.irq, val), params := if AndB(val, 0x40) != 0 then [] else s.params)
  }

  /** An acknowledge that clears the last response bit serves exactly one of the waiting things: the
      pended INT1 before a due second response before the queued command, which executes with the
      parameters it was queued with. What is not served stays. */
  lemma AckServes(h: Host, s: Cd, val: Byte)
    requires HostOk(h) && Inv(s) && s.irq.flag != 0 && Without(s.irq.flag, AndB(val, 0x1F)) == 0
    ensures var t := Acknowledge(h, s, val);
            if s.int1.pended then
              t.irq.flag == DATA_READY && t.response == [s.int1.stat]
                  && t.int1 == s.int1.(pended := false, fires := s.int1.fires + 1, shown := s.int1.shown + 1)
              && t.second == s.second && t.queued == s.queued && t.drive == s.drive
            else if s.second.Some? && s.now >= s.second.value.due then
              (t.irq.flag == COMPLETE || t.irq.flag == ERROR) && t.second == None && t.queued == s.queued
                  && t.int1 == s.int1
              && t == Finish(h, Cleared(s, val).(second := None, response := []), s.second.value.cmd)
            else if s.queued.Some? then
              (t.irq.flag == ACK || t.irq.flag == ERROR) && t.queued == None
              && t == Exec(h, Cleared(s, val).(params := s.queued.value.params, queued := None), s.queued.value.cmd)
            else t.irq.flag == 0 && !t.irq.latched && t == Cleared(s, val)
  {
    var t := Cleared(s, val);
    ClearFlagKeeps(s.irq, val);
    AndZero(0x1F);
    PendedKeeps(h, t);
    var u := PresentPended(h, t);
    if s.int1.pended {
      PendedShown(h, t);
    } else if s.second.Some? && s.now >= s.second.value.due {
      FinishKeeps(h, u.(second := None, response := []), u.second.value.cmd);
    } else if s.queued.Some? {
      ExecKeeps(h, u.(params := u.queued.value.params, queued := None), u.queued.value.cmd);
    } else {
      LowZero(s.irq, val);
    }
  }

  lemma LowZero(q: Irq, val: Byte)
    requires q.flag < 0x20 && q.flag != 0 && Without(q.flag, AndB(val, 0x1F)) == 0
    ensures ClearFlag(q, val).flag == 0 && !ClearFlag(q, val).latched
  {
    LowFive(q.flag);
    LowFive(0);
  }

  lemma PendedShown(h: Host, s: Cd)
    requires HostOk(h) && Core(s) && s.int1.pended && s.irq.flag == 0
    ensures var n := s.int1;
            var t := PresentPended(h, s);
            t.irq.flag == DATA_READY && t.response == [n.stat] && t.second == s.second && t.queued == s.queued
                && t.drive == s.drive
            && t.int1 == n.(pended := false, fires := n.fires + 1, shown := n.shown + 1)
  {
    var n := s.int1;
    RespondKeeps(h, s.(int1 := n.(pended := false, fires := n.fires + 1, shown := n.shown + 1)), [n.stat], DATA_READY);
  }

  /** A partial acknowledge serves nothing. */
  lemma PartialAckServesNothing(h: Host, s: Cd, val: Byte)
    requires Without(s.irq.flag, AndB(val, 0x1F)) != 0
    ensures var t := Acknowledge(h, s, val);
            t.int1 == s.int1 && t.second == s.second && t.queued == s.queued && t.drive == s.drive
                && t.irq.gen == s.irq.gen
  {
  }

  /** A response is raised at the first advance after its delay, once the mask lets it through. */
  lemma RaisedWhenDue(h: Host, s: Cd, cycles: Cycles, dma: bool, sec: Sector)
    requires HostOk(h) && Inv(s) && s.irq.flag != 0 && !s.irq.latched && s.now >= s.irq.due
      && h.matches(s.enable, s.irq.flag)
    ensures Advance(h, s, cycles, dma, sec).irq == s.irq.(latched := true, raised := s.irq.raised + [s.irq.gen])
  {
  }

  // ---- reading a response ----

  /** What the guest gets from n reads of the response register. */
  function ResponseRead(s: Cd, n: nat): (seq<Byte>, Cd)
    decreases n
  {
    if n == 0 then ([], s)
    else
      var (b, t) := ReadReg(s, 1, false);
      var (more, u) := ResponseRead(t, n - 1);
      ([b] + more, u)
  }

  /** Reads give the response's bytes in order, then zeros, and change nothing else. */
  lemma {:induction false} ReadsGiveResponse(s: Cd, n: nat)
    ensures |ResponseRead(s, n).0| == n
    ensures forall k :: 0 <= k < n ==> ResponseRead(s, n).0[k] == if k < |s.response| then s.response[k] else 0
    ensures ResponseRead(s, n).1 == s.(response := if n < |s.response| then s.response[n..] else [])
    decreases n
  {
    if n > 0 {
      ReadsGiveResponse(ReadReg(s, 1, false).1, n - 1);
    } else {
      assert s.response[0..] == s.response;
    }
  }

  // ---- no interrupt before its time ----

  /** The state after some guest time and some slices in which nothing happened. */
  function Later(s: Cd, time: nat, slices: nat): Cd {
    s.(now := s.now + time,
       drive := if s.drive.reading then s.drive.(readDelay := s.drive.readDelay - slices) else s.drive)
  }

  lemma NotYet(h: Host, s: Cd, mask: Word, time: nat, slices: nat)
    requires Inv(s) && mask / 4 % 2 == 1 && time < CyclesToIrq(h, s, mask) && slices < CyclesToIrq(h, s, mask)
    ensures Raise(h, s.irq, s.now + time, s.enable) == s.irq
    ensures s.second.Some? ==> s.now + time < s.second.value.due || s.irq.flag != 0
    ensures s.drive.reading ==> slices < s.drive.readDelay
  {
  }

  lemma QuietSlice(h: Host, s: Cd, mask: Word, time: nat, slices: nat, slice: Cycles, dma: bool, sec: Sector)
    requires Inv(s) && mask / 4 % 2 == 1 && time < CyclesToIrq(h, s, mask) && slices + slice < CyclesToIrq(h, s, mask)
    ensures Advance(h, Later(s, time, slices), slice, dma, sec) == Later(s, time, slices + slice)
  {
    NotYet(h, s, mask, time, slices + slice);
    var t := Later(s, time, slices);
    assert Present(h, t) == t && ProcessSecond(h, t) == t && TryQueued(h, t) == t;
    assert ProcessRead(h, t, slice, dma, sec) == Later(s, time, slices + slice);
  }

  /** Guest time and slices in a list of calls that touch no register. */
  function TimeOf(c: Call): nat {
    if c.op.ClockOp? then c.op.cycles else 0
  }

  function SliceOf(c: Call): nat {
    if c.op.AdvanceOp? then c.op.slice else 0
  }

  function Time(calls: seq<Call>): nat
    decreases |calls|
  {
    if calls == [] then 0 else TimeOf(calls[0]) + Time(calls[1..])
  }

  function Slices(calls: seq<Call>): nat
    decreases |calls|
  {
    if calls == [] then 0 else SliceOf(calls[0]) + Slices(calls[1..])
  }

  lemma QuietCall(h: Host, s: Cd, mask: Word, time: nat, slices: nat, c: Call)
    requires Inv(s) && mask / 4 % 2 == 1 && c.h == h && !c.op.WriteOp? && !c.op.ReadOp?
    requires time < CyclesToIrq(h, s, mask) && slices + SliceOf(c) < CyclesToIrq(h, s, mask)
    ensures Step(Later(s, time, slices), c) == Later(s, time + TimeOf(c), slices + SliceOf(c))
  {
    match c.op
    case ClockOp(cycles) =>
    case AdvanceOp(slice, dma, sec) => QuietSlice(h, s, mask, time, slices, slice, dma, sec);
  }

  ghost predicate NoAccess(h: Host, calls: seq<Call>) {
    forall i :: 0 <= i < |calls| ==> calls[i].h == h && !calls[i].op.WriteOp? && !calls[i].op.ReadOp?
  }

  /** With the interrupt unmasked and no register access, any run shorter than cdrom_cycles_to_irq
      said, however it is cut into slices, raises nothing and starts nothing: only the clock and the
      time to the next sector have moved. */
  lemma {:induction false} NoEarlyInterrupt(h: Host, s: Cd, mask: Word, limit: nat, time: nat, slices: nat,
      calls: seq<Call>)
    requires Inv(s) && mask / 4 % 2 == 1 && NoAccess(h, calls) && limit <= CyclesToIrq(h, s, mask)
    requires time + Time(calls) < limit && slices + Slices(calls) < limit
    ensures Run(Later(s, time, slices), calls) == Later(s, time + Time(calls), slices + Slices(calls))
    decreases |calls|
  {
    hide Inv, Later, CyclesToIrq, Step;
    if calls != [] {
      QuietCall(h, s, mask, time, slices, calls[0]);
      NoEarlyInterrupt(h, s, mask, limit, time + TimeOf(calls[0]), slices + SliceOf(calls[0]), calls[1..]);
    }
  }

  lemma NoInterruptBefore(h: Host, s: Cd, mask: Word, calls: seq<Call>)
    requires Inv(s) && mask / 4 % 2 == 1 && NoAccess(h, calls)
    requires Time(calls) < CyclesToIrq(h, s, mask) && Slices(calls) < CyclesToIrq(h, s, mask)
    ensures Run(s, calls).irq == s.irq && Run(s, calls) == Later(s, Time(calls), Slices(calls))
  {
    var limit := CyclesToIrq(h, s, mask);
    assert Later(s, 0, 0) == s;
    NoEarlyInterrupt(h, s, mask, limit, 0, 0, calls);
  }
}
