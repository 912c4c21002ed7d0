/** The controller as the C file keeps it: byte arrays with counts and a read index, the pending and
    queued structs, whose fields are stale while nothing is pending, and the interrupt's separate globals.
    State says which state of the machine in Cdrom that is, and each entry point is proved to do what the
    machine does. */
module CdController {
  import opened Options
  import opened Words
  import opened Cdrom

  method Memcpy(to: array<Byte>, from: array<Byte>, n: nat)
    requires to != from && n <= to.Length && n <= from.Length
    modifies to
    ensures to[..n] == from[..n]
  {
    for k := 0 to n
      invariant to[..k] == from[..k]
    {
      to[k] := from[k];
    }
  }

  /** param_fifo and param_count. */
  class ParamFifo {
    const data: array<Byte>
    var count: nat
    ghost var bytes: seq<Byte>

    ghost predicate Valid()
      reads this, data
    {
      data.Length == FIFO_SIZE && count <= FIFO_SIZE && bytes == data[..count]
    }

    constructor ()
      ensures Valid() && bytes == [] && fresh(data)
    {
      data := new Byte[FIFO_SIZE](_ => 0);
      count, bytes := 0, [];
    }

    method Push(val: Byte)
      requires Valid()
      modifies this, data
      ensures Valid() && bytes == if |old(bytes)| < FIFO_SIZE then old(bytes) + [val] else old(bytes)
    {
      if count < FIFO_SIZE {
        data[count] := val;
        count, bytes := count + 1, bytes + [val];
      }
    }

    method Clear()
      requires Valid()
      modifies this
      ensures Valid() && bytes == []
    {
      count, bytes := 0, [];
    }
  }

  /** response_fifo with its read index; bytes are those not read yet. */
  class ResponseFifo {
    const data: array<Byte>
    var read: nat
    var count: nat
    ghost var bytes: seq<Byte>

    ghost predicate Valid()
      reads this, data
    {
      data.Length == FIFO_SIZE && read <= count <= FIFO_SIZE && bytes == data[read..count]
    }

    constructor ()
      ensures Valid() && bytes == [] && fresh(data)
    {
      data := new Byte[FIFO_SIZE](_ => 0);
      read, count, bytes := 0, 0, [];
    }

    /** response_clear */
    method Clear()
      requires Valid()
      modifies this
      ensures Valid() && read == 0 && bytes == []
    {
      read, count, bytes := 0, 0, [];
    }

    /** response_push */
    method Push(val: Byte)
      requires Valid() && read == 0
      modifies this, data
      ensures Valid() && read == 0 && bytes == if |old(bytes)| < FIFO_SIZE then old(bytes) + [val] else old(bytes)
    {
      if count < FIFO_SIZE {
        data[count] := val;
        count, bytes := count + 1, bytes + [val];
      }
    }

    /** The bytes of a response, pushed one after another. */
    method Respond(response: seq<Byte>)
      requires Valid()
      modifies this, data
      ensures Valid() && bytes == Cdrom.Push(response)
    {
      Clear();
      for k := 0 to |response|
        invariant Valid() && read == 0 && bytes == response[..if k < FIFO_SIZE then k else FIFO_SIZE]
      {
        Push(response[k]);
      }
    }

    method Take() returns (ret: Byte)
      requires Valid()
      modifies this
      ensures Valid() && ret == (if old(bytes) == [] then 0 else old(bytes)[0])
        && bytes == if old(bytes) == [] then [] else old(bytes)[1..]
    {
      ret := 0;
      if read < count {
        ret := data[read];
        read, bytes := read + 1, bytes[1..];
      }
    }
  }

  /** The response shown to the guest and its presentation. */
  class IrqLine {
    var flag: Byte
    var latched: bool
    var generation: nat
    var due: nat
    ghost var overwrites: nat
    ghost var raised: seq<nat>

    ghost function Value(): Irq
      reads this
    {
      Irq(flag, latched, generation, due, overwrites, raised)
    }

    constructor ()
      ensures Value() == Irq(0, false, 0, 0, 0, [])
    {
      flag, latched, generation, due, overwrites, raised := 0, false, 0, 0, 0, [];
    }

    /** set_irq */
    method Set(now: nat, kind: Byte)
      modifies this
      ensures Value() == SetIrq(old(Value()), now, kind)
    {
      overwrites := overwrites + if flag != 0 then 1 else 0;
      flag := kind;
      generation := generation + 1;
      latched := false;
      due := now + PRESENT_DELAY;
    }

    /** present_cdrom_irq */
    method Present(h: Host, now: nat, enable: Byte)
      modifies this
      ensures Value() == Raise(h, old(Value()), now, enable)
    {
      if due != 0 && now < due { return; }
      if h.matches(enable, flag) && !latched {
        raised := raised + [generation];
        latched := true;
      }
    }

    /** The bits of an acknowledge. */
    method Clear(val: Byte)
      modifies this
      ensures Value() == ClearFlag(old(Value()), val)
    {
      var had := AndB(flag, 0x1F) != 0;
      flag := Without(flag, AndB(val, 0x1F));
      if had && AndB(flag, 0x1F) == 0 {
        latched := false;
      }
    }
  }

  /** The second response that is pending. */
  class PendingCmd {
    var pending: bool
    var cmd: Byte
    var due: nat

    ghost function Value(): Option<Second>
      reads this
    {
      if pending then Some(Second(cmd, due)) else None
    }

    constructor ()
      ensures Value() == None
    {
      pending, cmd, due := false, 0, 0;
    }

    /** pending_arm */
    method Arm(now: nat, cmd: Byte, latency: int)
      modifies this
      ensures Value() == Some(Second(cmd, now + if latency < 0 then 0 else latency))
    {
      this.cmd, pending := cmd, true;
      due := now + if latency < 0 then 0 else latency;
    }

    method Done()
      modifies this
      ensures Value() == None
    {
      pending, due := false, 0;
    }
  }

  /** The one command that waits for an acknowledge. */
  class QueuedCmd {
    var pending: bool
    var cmd: Byte
    const params: array<Byte>
    var count: nat
    ghost var bytes: seq<Byte>

    ghost predicate Valid()
      reads this, params
    {
      params.Length == FIFO_SIZE && count <= FIFO_SIZE && bytes == params[..count]
    }

    ghost function Value(): Option<Queued>
      reads this
    {
      if pending then Some(Queued(cmd, bytes)) else None
    }

    constructor ()
      ensures Valid() && Value() == None && fresh(params)
    {
      params := new Byte[FIFO_SIZE](_ => 0);
      pending, cmd, count, bytes := false, 0, 0, [];
    }

    method Put(cmd: Byte, from: ParamFifo)
      requires Valid() && from.Valid() && from.data != params
      modifies this, params
      ensures Valid() && Value() == Some(Queued(cmd, from.bytes))
    {
      this.cmd, count := cmd, from.count;
      Memcpy(params, from.data, count);
      pending, bytes := true, from.bytes;
    }

    method Take(to: ParamFifo) returns (cmd: Byte)
      requires Valid() && to.Valid() && to.data != params && pending
      modifies this, to, to.data
      ensures Valid() && to.Valid() && Value() == None && old(Value()) == Some(Queued(cmd, to.bytes))
    {
      cmd := this.cmd;
      Memcpy(to.data, params, count);
      to.count, to.bytes := count, bytes;
      pending, this.cmd, count, bytes := false, 0, 0, [];
    }
  }

  /** The one-deep pended data-ready notification and its counters. */
  class DataReady {
    var pending: bool
    var stat: Byte
    var pended: nat
    var lost: nat
    var fires: nat
    ghost var shown: nat
    ghost var cancelled: nat

    ghost function Value(): Int1
      reads this
    {
      Int1(pending, stat, pended, lost, fires, shown, cancelled)
    }

    constructor ()
      ensures Value() == Int1(false, 0, 0, 0, 0, 0, 0)
    {
      pending, stat, pended, lost, fires, shown, cancelled := false, 0, 0, 0, 0, 0, 0;
    }

    /** cdrom_clear_pending_dataready */
    method Clear()
      modifies this
      ensures Value() == Cancel(old(Value()))
    {
      cancelled := cancelled + if pending then 1 else 0;
      pending, stat := false, 0;
    }

    method Pend(stat: Byte)
      modifies this
      ensures Value() == Cdrom.Pend(old(Value()), stat)
    {
      if pending {
        lost := lost + 1;
      }
      pending, this.stat := true, stat;
      pended := pended + 1;
    }

    method Fired()
      modifies this
      ensures Value() == old(Value()).(fires := old(fires) + 1)
    {
      fires := fires + 1;
    }

    method Shown() returns (s: Byte)
      modifies this
      ensures s == old(stat) && Value()
        == old(Value()).(pended := false, fires := old(fires) + 1, shown := old(shown) + 1)
    {
      s := stat;
      pending, fires, shown := false, fires + 1, shown + 1;
    }
  }

  class Controller {
    var now: nat
    var index: Byte
    var enable: Byte
    const params: ParamFifo
    const response: ResponseFifo
    const irq: IrqLine
    const second: PendingCmd
    const queued: QueuedCmd
    const int1: DataReady
    var drive: Drive

    ghost predicate Valid()
      reads this, params, params.data, response, response.data, queued, queued.params
    {
      && params.Valid() && response.Valid() && queued.Valid()
      && params.data != response.data && params.data != queued.params && response.data != queued.params
    }

    ghost function State(): Cd
      reads this, params, response, irq, second, queued, int1
    {
      Cd(now, index, enable, params.bytes, response.bytes, irq.Value(), second.Value(), queued.Value(), int1.Value(),
          drive)
    }

    /** cdrom_init */
    constructor (h: Host, clock: nat)
      ensures Valid() && State() == Init(h, clock)
    {
      now, index, enable := clock, 0, 0x1F;
      params := new ParamFifo();
      response := new ResponseFifo();
      irq := new IrqLine();
      second := new PendingCmd();
      queued := new QueuedCmd();
      int1 := new DataReady();
      drive := Drive(if h.disc then STAT_MOTOR else STAT_SHELL, 0, 0, 0, false, 0,
                     Msf(0, 0, 0), Msf(0, 0, 0), false, -1, false);
    }

    /** A response: its bytes and its type. */
    method Say(bytes: seq<Byte>, kind: Byte)
      requires Valid()
      modifies response, response.data, irq
      ensures Valid() && State() == Shown(old(State()), bytes, kind)
    {
      response.Respond(bytes);
      irq.Set(now, kind);
    }

    // ---- commands ----

    method StartReadStream(h: Host)
      modifies this`drive, int1
      ensures int1.Value() == Cancel(old(int1.Value())) && drive == StartRead(h, old(drive))
    {
      drive := drive.(stat := Without(drive.stat, STAT_PLAY));
      int1.Clear();
      if drive.mode / 0x40 % 2 == 1 {
        drive := drive.(xa := false);
      }
      drive := drive.(readPos := drive.seekPos);
      drive := drive.(readDelay := FirstSectorDelay(h, drive));
      drive := drive.(reading := true, stat := OrB(drive.stat, STAT_READ));
    }

    method StopReadStream()
      modifies this`drive, int1
      ensures int1.Value() == Cancel(old(int1.Value())) && drive == old(drive).(reading := false, readDelay := 0)
    {
      drive := drive.(reading := false, readDelay := 0);
      int1.Clear();
    }

    method ExecRead(h: Host, cmd: Byte)
      requires Valid() && (cmd == 0x06 || cmd == 0x1B)
      modifies this`drive, response, response.data, irq, second, int1
      ensures Valid() && var s := old(State()); var a := Execute(h, s.drive, s.params, cmd);
        State() == Shown(Acted(s, cmd, a), a.bytes, a.kind)
    {
      hide OrB, AndB, Without, FromBcd, ApplySpeed, PauseDelay;
      if !h.disc {
        Say([OrB(drive.stat, STAT_ERROR)], ERROR);
        return;
      }
      StartReadStream(h);
      Say([drive.stat], ACK);
    }

    method ExecPlay(h: Host)
      requires Valid()
      modifies this`drive, response, response.data, irq, second, int1
      ensures Valid() && var s := old(State()); var a := Play(h, s.drive, s.params);
        State() == Shown(Acted(s, 0x03, a), a.bytes, a.kind)
    {
      hide OrB, AndB, Without, FromBcd, ApplySpeed, PauseDelay, SetIrq, SetLoc, ResponseFifo.Valid, QueuedCmd.Valid;
      if !h.disc {
        Say([OrB(drive.stat, STAT_ERROR)], ERROR);
        return;
      }
      var track := 0;
      if params.count >= 1 && params.data[0] != 0 {
        track := FromBcd(params.data[0]);
      }
      if track != 0 {
        Say([OrB(drive.stat, STAT_ERROR), 0x10], ERROR);
        return;
      }
      StopReadStream();
      drive := drive.(stat := OrB(OrB(Without(drive.stat, STAT_SEEK + STAT_READ), STAT_MOTOR), STAT_PLAY));
      Say([drive.stat], ACK);
    }

    method ExecHalt(h: Host, cmd: Byte)
      requires Valid() && cmd in {0x08, 0x09, 0x0A}
      modifies this`drive, response, response.data, irq, second, int1
      ensures Valid() && var s := old(State()); var a := Halt(h, s.drive, cmd);
        State() == Shown(Acted(s, cmd, a), a.bytes, a.kind)
    {
      hide OrB, AndB, Without, FromBcd, ApplySpeed, PauseDelay, SetIrq;
      hide ResponseFifo.Valid, QueuedCmd.Valid, ParamFifo.Valid;
      ghost var was := drive;
      var pause := PauseDelay(drive);
      StopReadStream();
      var latency := SettleDrive(h, cmd, pause, was);
      Say([drive.stat], ACK);
      second.Arm(now, cmd, latency);
    }

    /** What stopping, pausing and initializing leave of the drive whose read stream has ended. */
    method SettleDrive(h: Host, cmd: Byte, pause: int, ghost was: Drive) returns (latency: int)
      requires cmd in {0x08, 0x09, 0x0A} && drive == was.(reading := false, readDelay := 0) && pause == PauseDelay(was)
      modifies this`drive
      ensures drive == Halt(h, was, cmd).drive && Halt(h, was, cmd).latency == Some(latency)
    {
      drive := drive.(xa := false);
      match cmd {
        case 0x08 =>
          drive := drive.(stat := Without(drive.stat, STAT_READ + STAT_PLAY + STAT_SEEK));
          latency := ApplySpeed(h, drive, 30000);
        case 0x09 =>
          drive := drive.(stat := Without(drive.stat, STAT_READ + STAT_PLAY));
          latency := pause;
        case _ =>
          drive := drive.(stat := if h.disc then STAT_MOTOR else STAT_SHELL);
          latency := 131072;
      }
    }

    method ExecBegin(h: Host, cmd: Byte)
      requires Valid() && cmd in {0x07, 0x1A, 0x1E}
      modifies this`drive, response, response.data, irq, second, int1
      ensures Valid() && var s := old(State()); var a := Begin(h, s.drive, cmd);
        State() == Shown(Acted(s, cmd, a), a.bytes, a.kind)
    {
      hide OrB, AndB, Without, FromBcd, ApplySpeed, PauseDelay;
      var latency;
      if cmd == 0x07 {
        if AndB(drive.stat, STAT_MOTOR) != 0 {
          Say([OrB(drive.stat, STAT_ERROR), 0x20], ERROR);
          return;
        }
        latency := ApplySpeed(h, drive, 30000);
      } else {
        latency := if cmd == 0x1A then 33868 else 30000000;
      }
      Say([drive.stat], ACK);
      second.Arm(now, cmd, latency);
    }

    method ExecSeek(h: Host, cmd: Byte)
      requires Valid() && cmd in {0x15, 0x16}
      modifies this`drive, response, response.data, irq, second, int1
      ensures Valid() && var s := old(State()); var a := Begin(h, s.drive, cmd);
        State() == Shown(Acted(s, cmd, a), a.bytes, a.kind)
    {
      hide OrB, AndB, Without, FromBcd, ApplySpeed, PauseDelay, SetIrq;
      hide ResponseFifo.Valid, QueuedCmd.Valid, ParamFifo.Valid;
      if !h.disc {
        Say([OrB(drive.stat, OrB(STAT_ERROR, STAT_SEEKERR))], ERROR);
        return;
      }
      drive := drive.(xa := false);
      drive := drive.(stat := Without(drive.stat, STAT_PLAY));
      drive := drive.(stat := OrB(drive.stat, STAT_SEEK));
      Say([drive.stat], ACK);
      second.Arm(now, cmd, ApplySpeed(h, drive, if drive.seekFar then SECTOR_CYCLES * 4 else 0x800));
    }

    method ExecSetLoc()
      requires params.Valid()
      modifies this`drive
      ensures drive == SetLoc(old(drive), params.bytes)
    {
      if params.count >= 3 {
        var here := if drive.lastLba >= 0 then drive.lastLba else Lba(drive.seekPos);
        var to := Msf(FromBcd(params.data[0]), FromBcd(params.data[1]), FromBcd(params.data[2]));
        drive := drive.(seekPos := to, seekFar := here - Lba(to) > 16 || Lba(to) - here > 16);
      }
    }

    method ExecConfigure(cmd: Byte)
      requires Valid() && cmd in {0x02, 0x0D, 0x0E}
      modifies this`drive, response, response.data, irq, second, int1
      ensures Valid() && var s := old(State()); var a := Configure(s.drive, s.params, cmd);
        State() == Shown(Acted(s, cmd, a), a.bytes, a.kind)
    {
      hide Configure, SetIrq, ResponseFifo.Valid, QueuedCmd.Valid, ParamFifo.Valid;
      ConfigureDrive(cmd);
      Say([drive.stat], ACK);
    }

    /** What setting a location, a filter or a mode changes of the drive. */
    method ConfigureDrive(cmd: Byte)
      requires params.Valid() && cmd in {0x02, 0x0D, 0x0E}
      modifies this`drive
      ensures var a := Configure(old(drive), params.bytes, cmd);
              drive == a.drive && [drive.stat] == a.bytes && a.kind == ACK && !a.cancels && a.latency.None?
    {
      match cmd {
        case 0x02 =>
          ExecSetLoc();
        case 0x0D =>
          if params.count >= 2 {
            drive := drive.(file := params.data[0], channel := params.data[1], xa := false);
          }
        case _ =>
          if params.count >= 1 {
            drive := drive.(mode := params.data[0]);
            if drive.mode / 0x40 % 2 == 0 {
              drive := drive.(xa := false);
            }
          }
      }
    }

    method ExecInquire(h: Host, cmd: Byte)
      requires Valid()
      modifies this`drive, response, response.data, irq, second, int1
      ensures Valid() && var s := old(State()); var a := Inquire(h, s.drive, s.params, cmd);
        State() == Shown(Acted(s, cmd, a), a.bytes, a.kind)
    {
      hide OrB, AndB, Without, FromBcd, ApplySpeed, PauseDelay, SetIrq, SetLoc, ResponseFifo.Valid, QueuedCmd.Valid;
      var bytes, kind := [], ACK;
      match cmd {
        case 0x01 =>
          drive := drive.(stat := OrB(drive.stat, if h.disc then STAT_MOTOR else STAT_SHELL));
          bytes := [drive.stat];
        case 0x0F => bytes := [drive.stat, drive.mode, 0, drive.file, drive.channel];
        case 0x10 => bytes := h.info(cmd, drive);
        case 0x11 => bytes := h.info(cmd, drive);
        case 0x13 => bytes := [drive.stat] + h.info(cmd, drive);
        case 0x14 =>
          if h.disc {
            bytes := [drive.stat] + h.info(cmd, drive);
          } else {
            bytes, kind := [OrB(drive.stat, STAT_ERROR), 0x80], ERROR;
          }
        case 0x19 => bytes := if params.count >= 1
            && params.data[0] == 0x20 then [0x94, 0x09, 0x19, 0xC0] else [drive.stat];
        case 0x0B => bytes := [drive.stat];
        case 0x0C => bytes := [drive.stat];
        case _ => bytes, kind := [OrB(drive.stat, STAT_ERROR)], ERROR;
      }
      Say(bytes, kind);
    }

    method Dispatch(h: Host, cmd: Byte)
      requires Valid()
      modifies this`drive, response, response.data, irq, second, int1
      ensures Valid() && var s := old(State()); var a := Execute(h, s.drive, s.params, cmd);
        State() == Shown(Acted(s, cmd, a), a.bytes, a.kind)
    {
      match cmd {
        case 0x03 => ExecPlay(h);
        case 0x06 => ExecRead(h, cmd);
        case 0x1B => ExecRead(h, cmd);
        case 0x08 => ExecHalt(h, cmd);
        case 0x09 => ExecHalt(h, cmd);
        case 0x0A => ExecHalt(h, cmd);
        case 0x07 => ExecBegin(h, cmd);
        case 0x15 => ExecSeek(h, cmd);
        case 0x16 => ExecSeek(h, cmd);
        case 0x1A => ExecBegin(h, cmd);
        case 0x1E => ExecBegin(h, cmd);
        case 0x02 => ExecConfigure(cmd);
        case 0x0D => ExecConfigure(cmd);
        case 0x0E => ExecConfigure(cmd);
        case _ => ExecInquire(h, cmd);
      }
    }

    method ExecCommand(h: Host, cmd: Byte)
      requires Valid()
      modifies this`drive, params, response, response.data, irq, second, int1
      ensures Valid() && State() == Exec(h, old(State()), cmd)
    {
      Dispatch(h, cmd);
      params.Clear();
      irq.Present(h, now, enable);
    }

    method QueueOrExecCommand(h: Host, cmd: Byte)
      requires Valid()
      modifies this`drive, params, response, response.data, irq, second, int1, queued, queued.params
      ensures Valid() && State() == QueueOrExec(h, old(State()), cmd)
    {
      if irq.flag == 0 {
        ExecCommand(h, cmd);
        return;
      }
      queued.Put(cmd, params);
      params.Clear();
    }

    method TryExecuteQueuedCommand(h: Host)
      requires Valid()
      modifies this`drive, params, params.data, response, response.data, irq, second, int1, queued
      ensures Valid() && State() == TryQueued(h, old(State()))
    {
      if !queued.pending || irq.flag != 0 { return; }
      var cmd := queued.Take(params);
      ExecCommand(h, cmd);
    }

    // ---- what comes later ----

    method Settle(cmd: Byte)
      modifies this`drive
      ensures drive == Settled(old(drive), cmd)
    {
      match cmd {
        case 0x07 => drive := drive.(stat := OrB(drive.stat, STAT_MOTOR));
        case 0x08 => drive := drive.(stat := Without(drive.stat, STAT_MOTOR + STAT_READ + STAT_PLAY + STAT_SEEK));
        case 0x09 => drive := drive.(stat := Without(drive.stat, STAT_READ));
        case 0x15 => drive := drive.(stat := Without(drive.stat, STAT_SEEK), seekFar := false);
        case 0x16 => drive := drive.(stat := Without(drive.stat, STAT_SEEK), seekFar := false);
        case _ =>
      }
    }

    method ProcessPending(h: Host)
      requires Valid()
      modifies this`drive, response, response.data, irq, second
      ensures Valid() && State() == ProcessSecond(h, old(State()))
    {
      hide OrB, Without, AndB, SetIrq, ResponseFifo.Valid, QueuedCmd.Valid, ParamFifo.Valid;
      if !second.pending { return; }
      if now < second.due { return; }
      if irq.flag != 0 { return; }
      var cmd := second.cmd;
      second.Done();
      response.Clear();
      if !Armed(cmd) { return; }
      Settle(cmd);
      if cmd == 0x1A && !h.disc {
        Say([OrB(drive.stat, STAT_IDERROR), 0x80], ERROR);
      } else if cmd == 0x1A {
        Say([drive.stat, 0x00, 0x20, 0x00] + h.scex, COMPLETE);
      } else {
        Say([drive.stat], COMPLETE);
      }
      irq.Present(h, now, enable);
    }

    method ReadSectorAt(sec: Sector)
      modifies this`drive
      ensures drive == ReadSector(old(drive), sec)
    {
      drive := drive.(lastLba := Lba(drive.readPos));
      drive := drive.(xa := sec.xa);
      drive := drive.(readPos := NextMsf(drive.readPos));
    }

    method DeliverSector(h: Host, dma: bool, sec: Sector)
      requires Valid()
      modifies this`drive, response, response.data, irq, int1
      ensures Valid() && State() == SectorDue(h, old(State()), dma, sec)
    {
      ReadSectorAt(sec);
      if !sec.data { return; }
      if irq.flag == 0 {
        Say([drive.stat], DATA_READY);
        irq.Present(h, now, enable);
        int1.Fired();
      } else if !dma {
        int1.Pend(drive.stat);
      }
    }

    method ProcessReadStream(h: Host, cycles: Cycles, dma: bool, sec: Sector)
      requires Valid()
      modifies this`drive, response, response.data, irq, int1
      ensures Valid() && State() == ProcessRead(h, old(State()), cycles, dma, sec)
    {
      if !drive.reading { return; }
      var left := drive.readDelay - cycles;
      if left > 0 {
        drive := drive.(readDelay := left);
      } else {
        DeliverSector(h, dma, sec);
        left := left + SectorDelay(h, drive);
        if left <= 0 {
          left := SectorDelay(h, drive);
        }
        drive := drive.(readDelay := left);
      }
    }

    method PresentPendingDataready(h: Host)
      requires Valid()
      modifies response, response.data, irq, int1
      ensures Valid() && State() == PresentPended(h, old(State()))
    {
      if !int1.pending || irq.flag != 0 { return; }
      var stat := int1.Shown();
      Say([stat], DATA_READY);
      irq.Present(h, now, enable);
    }

    // ---- entry points ----

    method Ack(h: Host, val: Byte)
      requires Valid()
      modifies this`drive, params, params.data, response, response.data, irq, second, int1, queued
      ensures Valid() && State() == Acknowledge(h, old(State()), val)
    {
      irq.Clear(val);
      if AndB(val, 0x40) != 0 {
        params.Clear();
      }
      PresentPendingDataready(h);
      ProcessPending(h);
      TryExecuteQueuedCommand(h);
    }

    /** cdrom_write */
    method Write(h: Host, reg: nat, val: Byte)
      requires Valid()
      modifies this, params, params.data, response, response.data, irq, second, int1, queued, queued.params
      ensures Valid() && State() == WriteReg(h, old(State()), reg, val)
    {
      if reg == 0 {
        index := AndB(val, 0x03);
      } else if reg == 1 && index == 0 {
        QueueOrExecCommand(h, val);
      } else if reg == 2 && index == 0 {
        params.Push(val);
      } else if reg == 2 && index == 1 {
        enable := AndB(val, 0x1F);
      } else if reg == 3 && index == 1 {
        Ack(h, val);
      }
    }

    /** cdrom_read; the data port is not part of the model. */
    method Read(reg: nat, dataReady: bool) returns (ret: Byte)
      requires Valid()
      modifies response
      ensures Valid() && (ret, State()) == ReadReg(old(State()), reg, dataReady)
    {
      ret := 0;
      match reg {
        case 0 =>
          ret := AndB(index, 0x03);
          if params.count == 0 { ret := ret + 0x08; }
          if params.count < FIFO_SIZE { ret := ret + 0x10; }
          if response.read < response.count { ret := ret + 0x20; }
          if dataReady { ret := ret + 0x40; }
          if queued.pending { ret := ret + 0x80; }
        case 1 => ret := response.Take();
        case 3 => ret := if index == 0 || index == 2 then enable else OrB(irq.flag, 0xE0);
        case _ =>
      }
    }

    /** cdrom_advance */
    method AdvanceBy(h: Host, cycles: Cycles, dma: bool, sec: Sector)
      requires Valid()
      modifies this`drive, params, params.data, response, response.data, irq, second, int1, queued
      ensures Valid() && State() == Advance(h, old(State()), cycles, dma, sec)
    {
      irq.Present(h, now, enable);
      ProcessPending(h);
      TryExecuteQueuedCommand(h);
      ProcessReadStream(h, cycles, dma, sec);
      irq.Present(h, now, enable);
    }

    /** cdrom_cycles_to_irq */
    method CyclesToInterrupt(h: Host, mask: Word) returns (best: nat)
      ensures best == CyclesToIrq(h, State(), mask)
    {
      if mask / 4 % 2 == 0 { return NEVER; }
      best := NEVER;
      if h.matches(enable, irq.flag) {
        best := Lesser(Remaining(now, irq.due), best);
      }
      if second.pending {
        if now < second.due {
          best := Lesser(Remaining(now, second.due), best);
        } else if irq.flag == 0 {
          best := 0;
        }
      }
      if drive.reading && drive.readDelay > 0 && drive.readDelay < best {
        best := drive.readDelay;
      }
    }
  }
}
