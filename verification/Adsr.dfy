/** The volume envelope of a sound voice (spu_voice_adsr_tick, key on and key off in
    source/hle/hle_spu.c), one tick for every output sample. */
module Adsr {
  import opened Words

  datatype Phase = Off | Attack | Decay | Sustain | Release

  type Level = x: int | -0x8000 <= x < 0x8000

  const PEAK: Level := 0x7FFF

  /** No period is longer than this many ticks. */
  const LONGEST: nat := 0x40_0000

  /** The envelope's part of a voice: two registers, the phase, the level and the cycle counter. */
  datatype Voice = Voice(low: Half, high: Half, phase: Phase, level: Level, counter: Word, on: bool)

  // ---- register fields ----

  function Exponential(v: Voice): bool {
    match v.phase
    case Attack => v.low / 0x8000 == 1
    case Sustain => v.high / 0x8000 == 1
    case Release => v.high / 0x20 % 2 == 1
    case _ => v.phase == Decay
  }

  function Rising(v: Voice): bool {
    v.phase == Attack || (v.phase == Sustain && v.high / 0x4000 % 2 == 0)
  }

  function Shift(v: Voice): (s: nat)
    ensures s < 32
  {
    match v.phase
    case Attack => v.low / 0x400 % 0x20
    case Decay => v.low / 0x10 % 0x10
    case Sustain => v.high / 0x100 % 0x20
    case Release => v.high % 0x20
    case Off => 0
  }

  /** The signed entry of the rate table. */
  function Slope(v: Voice): (s: int)
    ensures if Rising(v) then 4 <= s <= 7 else -8 <= s <= -5
  {
    match v.phase
    case Attack => 7 - v.low / 0x100 % 4
    case Sustain => if Rising(v) then 7 - v.high / 0x40 % 4 else v.high / 0x40 % 4 - 8
    case _ => -8
  }

  function SustainLevel(low: Half): (t: Level)
    ensures 0x0800 <= t <= PEAK
  {
    var t := (low % 0x10 + 1) * 0x0800;
    if t > 0x7FFF then 0x7FFF else t
  }

  lemma {:induction false} Pow2Grows(n: nat, m: nat)
    requires n <= m
    ensures Pow2(n) <= Pow2(m)
    decreases m - n
  {
    if n < m {
      Pow2Grows(n + 1, m);
    }
  }

  function Cycles(shift: nat): (c: nat)
    requires shift < 32
    ensures 1 <= c <= 0x10_0000
  {
    Pow2Grows(if shift > 11 then shift - 11 else 0, 20);
    assert Pow2(10) == 0x400;
    Pow2(if shift > 11 then shift - 11 else 0)
  }

  function Gain(shift: nat): (g: nat)
    requires shift < 32
    ensures 1 <= g <= 0x800
  {
    Pow2Grows(if shift < 11 then 11 - shift else 0, 11);
    assert Pow2(5) == 0x20;
    Pow2(if shift < 11 then 11 - shift else 0)
  }

  /** The ticks from one change of the level to the next. */
  function Period(v: Voice): (c: nat)
    ensures 1 <= c <= LONGEST
  {
    var c := Cycles(Shift(v));
    if Rising(v) && Exponential(v) && v.level > 0x6000 then 4 * c else c
  }

  /** The change itself: in a falling exponential phase, in proportion to the level and at least one. */
  function Step(v: Voice): int {
    var step := Slope(v) * Gain(Shift(v));
    if !Rising(v) && Exponential(v) then
      var curved := step * v.level / 0x8000;
      if curved >= 0 then -1 else curved
    else step
  }

  lemma StepBounds(v: Voice)
    ensures if Rising(v) then 4 <= Step(v) <= 0x3800 else -0x4000 <= Step(v) <= -1 || v.level < 0
    ensures v.level < 0 && !Rising(v) ==> -0x4000 <= Step(v) <= -1
  {
    var s, g := Slope(v), Gain(Shift(v));
    if Rising(v) {
      MulMono(s, 1, g);
      MulMono(s, g, 0x800);
      MulMono(g, s, 7);
    } else {
      assert s * g == -((-s) * g);
      MulMono(-s, 1, g);
      MulMono(-s, g, 0x800);
      var step := s * g;
      assert -0x4000 <= step <= -1;
      CurveBounds(step, v.level);
    }
  }

  lemma CurveBounds(step: int, level: Level)
    requires -0x4000 <= step <= -1
    ensures level <= 0 ==> step * level / 0x8000 >= 0
    ensures level > 0 ==> -0x4000 <= step * level / 0x8000 <= -1
  {
    if level > 0 {
      MulMono(-step, 1, level);
      MulMono(-step, level, 0x8000);
      assert step * level == -((-step) * level);
    } else {
      MulMono(-step, level, 0);
      assert step * level == -((-step) * level);
    }
  }

  // ---- one tick ----

  /** The level changes, and the phase with it when the end of the phase is reached. */
  function Update(v: Voice): Voice {
    StepBounds(v);
    var next := v.level + Step(v);
    match v.phase
    case Off => v
    case Attack => if next >= PEAK then v.(level := PEAK, phase := Decay) else v.(level := next)
    case Decay =>
      var target := SustainLevel(v.low);
      if next <= target then v.(level := target, phase := Sustain) else v.(level := next)
    case Sustain =>
      if Rising(v) then (if next >= PEAK then v.(level := PEAK) else v.(level := next))
      else (if next <= 0 then v.(level := 0) else v.(level := next))
    case Release => if next <= 0 then v.(level := 0, phase := Off, on := false) else v.(level := next)
  }

  function Tick(v: Voice): Voice {
    var counted := Wrap(v.counter + 1);
    if v.phase == Off then v.(level := 0)
    else if counted < Period(v) then v.(counter := counted)
    else Update(v.(counter := 0))
  }

  function Iterate<T>(f: T -> T, v: T, n: nat): T
    decreases n
  {
    if n == 0 then v else f(Iterate(f, v, n - 1))
  }

  lemma {:induction false} IterateAdds<T>(f: T -> T, v: T, m: nat, n: nat)
    ensures Iterate(f, v, m + n) == Iterate(f, Iterate(f, v, m), n)
    decreases n
  {
    if n > 0 {
      IterateAdds(f, v, m, n - 1);
    }
  }

  function Ticks(v: Voice, n: nat): Voice {
    Iterate(Tick, v, n)
  }

  function KeyOn(v: Voice): Voice {
    v.(phase := Attack, level := 0, counter := 0, on := true)
  }

  function KeyOff(v: Voice): Voice {
    if v.on then v.(phase := Release, counter := 0) else v
  }

  // ---- every run ----

  /** One output sample: a voice that is on ticks, and one released at level zero is switched off. */
  function Frame(v: Voice): Voice {
    if !v.on || v.phase == Off then v
    else
      var t := Tick(v);
      if t.level == 0 && t.phase == Release then t.(on := false, phase := Off) else t
  }

  /** The events that reach the envelope. A level written by a register is taken as it comes; Mute is the
      end of a sample that does not repeat. */
  datatype Event = Sample | Key | Unkey | Mute | WriteLow(h: Half) | WriteHigh(h: Half) | WriteLevel(l: Level)

  function React(v: Voice, e: Event): Voice {
    match e
    case Sample => Frame(v)
    case Mute => if v.on && v.phase != Off then v.(phase := Release, level := 0) else v
    case Key => KeyOn(v)
    case Unkey => KeyOff(v)
    case WriteLow(h) => v.(low := h)
    case WriteHigh(h) => v.(high := h)
    case WriteLevel(l) => v.(level := l)
  }

  function Play(v: Voice, events: seq<Event>): Voice
    decreases |events|
  {
    if events == [] then v else Play(React(v, events[0]), events[1..])
  }

  /** The level is between a floor and the peak, and the counter far from wrapping. */
  predicate VoiceIn(v: Voice, floor: Level) {
    floor <= v.level <= PEAK && v.counter < LONGEST && (v.phase != Off ==> v.on)
  }

  predicate VoiceOk(v: Voice) {
    VoiceIn(v, 0)
  }

  /** No register puts the level below the floor. */
  predicate LevelsIn(events: seq<Event>, floor: Level) {
    forall k :: 0 <= k < |events| && events[k].WriteLevel? ==> events[k].l >= floor
  }

  lemma TickKeeps(v: Voice)
    requires VoiceOk(v)
    ensures VoiceOk(Tick(v))
    ensures Tick(v).phase == v.phase || (v.phase == Attack && Tick(v).phase == Decay)
         || (v.phase == Decay && Tick(v).phase == Sustain) || (v.phase == Release && Tick(v).phase == Off)
    ensures v.phase == Attack ==> Tick(v).level >= v.level
    ensures v.phase == Release ==> Tick(v).level <= v.level
  {
    StepBounds(v);
  }

  lemma TickStays(v: Voice, floor: Level)
    requires VoiceIn(v, floor) && floor <= 0
    ensures VoiceIn(Tick(v), floor)
  {
    StepBounds(v);
  }

  /** Over every run, whatever the registers hold, the level stays at its peak or below and never falls
      below zero, nor below the lowest level that a register has put it to. */
  lemma {:induction false} PlayKeeps(v: Voice, floor: Level, events: seq<Event>)
    requires floor <= 0 && VoiceIn(v, floor) && LevelsIn(events, floor)
    ensures VoiceIn(Play(v, events), floor)
    decreases |events|
  {
    if events != [] {
      TickStays(v, floor);
      PlayKeeps(React(v, events[0]), floor, events[1..]);
    }
  }

  // ---- phases end ----

  lemma TicksAdd(v: Voice, m: nat, n: nat)
    ensures Ticks(v, m + n) == Ticks(Ticks(v, m), n)
  {
    IterateAdds(Tick, v, m, n);
  }

  lemma {:induction false} OffStays(v: Voice, n: nat)
    requires v.phase == Off && v.level == 0
    ensures Ticks(v, n) == v
    decreases n
  {
    if n > 0 {
      OffStays(v, n - 1);
    }
  }

  function Wait(v: Voice): (w: nat)
    ensures 1 <= w <= Period(v)
  {
    if v.counter + 1 >= Period(v) then 1 else Period(v) - v.counter
  }

  lemma TickCounts(v: Voice, u: Voice)
    requires v.phase != Off && v.counter + 1 < Period(v) && u == v.(counter := v.counter + 1)
    ensures Tick(v) == u && Period(u) == Period(v)
  {
  }

  lemma OneTick(v: Voice, u: Voice)
    requires Tick(v) == u
    ensures Ticks(v, 1) == u
  {
    assert Iterate(Tick, v, 0) == v;
  }

  /** Before the rest of its period is over, only the counter moves. */
  lemma {:induction false} OnlyCounts(v: Voice, n: nat)
    requires v.phase != Off && v.counter < LONGEST && n < Wait(v)
    ensures v.counter + n < LONGEST && Ticks(v, n) == v.(counter := v.counter + n)
    decreases n
  {
    if n > 0 {
      OnlyCounts(v, n - 1);
      TickCounts(v.(counter := v.counter + (n - 1)), v.(counter := v.counter + n));
    }
  }

  /** And then the level changes. */
  lemma NextUpdate(v: Voice)
    requires v.phase != Off && v.counter < LONGEST
    ensures Ticks(v, Wait(v)) == Update(v.(counter := 0))
    ensures forall n: nat {:trigger Ticks(v, n)} :: n < Wait(v) ==> Ticks(v, n).(counter := v.counter) == v
  {
    hide Tick, Update;
    forall n: nat | n < Wait(v) ensures Ticks(v, n).(counter := v.counter) == v { OnlyCounts(v, n); }
    OnlyCounts(v, Wait(v) - 1);
    LastTick(v, v.(counter := v.counter + (Wait(v) - 1)));
  }

  lemma LastTick(v: Voice, u: Voice)
    requires v.phase != Off && v.counter < LONGEST && u == v.(counter := v.counter + (Wait(v) - 1))
    ensures Tick(u) == Update(v.(counter := 0))
  {
    hide Update;
    assert Period(u) == Period(v);
  }

  lemma ReleaseUpdate(v: Voice) returns (u: Voice)
    requires v.phase == Release && VoiceOk(v)
    ensures u == Ticks(v, Wait(v))
    ensures (u.phase == Off && u.level == 0 && !u.on)
         || (u.phase == Release && VoiceOk(u) && 0 < u.level < v.level && Period(u) == Period(v))
  {
    NextUpdate(v);
    StepBounds(v);
    u := Update(v.(counter := 0));
  }

  predicate Silent(v: Voice) {
    v.phase == Off && v.level == 0 && !v.on
  }

  function Units(level: int): (n: nat)
    ensures n >= 1 && n >= level
  {
    if level > 1 then level else 1
  }

  lemma SilentLater(v: Voice, m: nat, n: nat)
    requires m <= n && Silent(Ticks(v, m))
    ensures Silent(Ticks(v, n))
  {
    var u := Ticks(v, m);
    TicksAdd(v, m, n - m);
    OffStays(u, n - m);
  }

  lemma EnoughTime(wait: nat, period: nat, level: nat, less: nat)
    requires wait <= period && 0 < less < level
    ensures wait + period * Units(less) <= period * Units(level)
  {
    MulMono(period, less, level - 1);
    assert period * (level - 1) == period * level - period;
  }

  lemma AllPeriods(period: nat, wait: nat, level: nat)
    requires wait <= period
    ensures wait <= period * Units(level)
  {
    MulMono(period, 1, Units(level));
  }

  lemma {:induction false} ReleaseWithin(v: Voice, period: nat, all: nat)
    requires v.phase == Release && VoiceOk(v) && Period(v) == period && all >= period * Units(v.level)
    ensures Silent(Ticks(v, all))
    decreases v.level
  {
    var wait := Wait(v);
    AllPeriods(period, wait, v.level);
    var u := ReleaseUpdate(v);
    if u.phase == Off {
      SilentLater(v, wait, all);
    } else {
      EnoughTime(wait, period, v.level, u.level);
      ReleaseWithin(u, period, all - wait);
      TicksAdd(v, wait, all - wait);
    }
  }

  /** A released voice is off, and silent, within a period for every unit of its level, in the linear
      and in the exponential mode. */
  lemma ReleaseEnds(v: Voice)
    requires v.phase == Release && VoiceOk(v)
    ensures Silent(Ticks(v, Period(v) * Units(v.level)))
  {
    ReleaseWithin(v, Period(v), Period(v) * Units(v.level));
  }

  /** The attack reaches the peak, and then the decay begins. */
  lemma {:induction false} AttackEnds(v: Voice) returns (n: nat)
    requires v.phase == Attack && VoiceOk(v)
    ensures Ticks(v, n) == v.(phase := Decay, level := PEAK, counter := 0)
    ensures 1 <= n <= LONGEST * (PEAK - v.level + 1)
    decreases PEAK - v.level
  {
    NextUpdate(v);
    StepBounds(v);
    var u := Update(v.(counter := 0));
    n := Wait(v);
    if u.phase == Attack {
      var more := AttackEnds(u);
      TicksAdd(v, n, more);
      MulMono(LONGEST, PEAK - u.level + 2, PEAK - v.level + 1);
      n := n + more;
    } else {
      MulMono(LONGEST, 1, PEAK - v.level + 1);
    }
  }

  /** The decay reaches the sustain level, exactly, and then the sustain begins. */
  lemma {:induction false} DecayEnds(v: Voice) returns (n: nat)
    requires v.phase == Decay && VoiceOk(v)
    ensures Ticks(v, n) == v.(phase := Sustain, level := SustainLevel(v.low), counter := 0)
    ensures 1 <= n <= LONGEST * (v.level + 1)
    decreases v.level
  {
    NextUpdate(v);
    StepBounds(v);
    var u := Update(v.(counter := 0));
    n := Wait(v);
    if u.phase == Decay {
      var more := DecayEnds(u);
      TicksAdd(v, n, more);
      MulMono(LONGEST, u.level + 2, v.level + 1);
      n := n + more;
    } else {
      MulMono(LONGEST, 1, v.level + 1);
    }
  }

  /** What a run of ticks never changes, and what it leaves when the voice ends. */
  predicate Fading(v: Voice, u: Voice) {
    u.low == v.low && u.high == v.high && VoiceOk(u)
    && (u.phase == Release || u == v.(phase := Off, level := 0, counter := 0, on := false))
  }

  lemma FadesOn(v: Voice, u: Voice)
    requires Fading(v, u)
    ensures Fading(v, Tick(u))
  {
    TickKeeps(u);
  }

  lemma {:induction false} Fades(v: Voice, n: nat)
    requires v.phase == Release && VoiceOk(v)
    ensures Fading(v, Ticks(v, n))
    decreases n
  {
    if n > 0 {
      Fades(v, n - 1);
      FadesOn(v, Ticks(v, n - 1));
    }
  }

  lemma HeldNote(v: Voice) returns (held: nat)
    requires v.counter < LONGEST
    ensures Ticks(KeyOn(v), held) == v.(phase := Sustain, level := SustainLevel(v.low), counter := 0, on := true)
  {
    var struck := KeyOn(v);
    var rise := AttackEnds(struck);
    var top := Ticks(struck, rise);
    var fall := DecayEnds(top);
    TicksAdd(struck, rise, fall);
    held := rise + fall;
  }

  /** Released at its sustain level a note falls silent, and nothing else of the voice changes. */
  lemma ReleasedNote(v: Voice) returns (released: nat)
    requires v.phase == Release && VoiceOk(v)
    ensures Ticks(v, released) == v.(phase := Off, level := 0, counter := 0, on := false)
  {
    released := Period(v) * Units(v.level);
    ReleaseEnds(v);
    Fades(v, released);
  }

  /** A note that is held comes to its sustain level; released there, it falls silent. */
  lemma NoteLives(v: Voice) returns (held: nat, released: nat)
    requires v.counter < LONGEST
    ensures Ticks(KeyOn(v), held) == v.(phase := Sustain, level := SustainLevel(v.low), counter := 0, on := true)
    ensures Ticks(KeyOff(Ticks(KeyOn(v), held)), released) == v.(phase := Off, level := 0, counter := 0, on := false)
  {
    held := HeldNote(v);
    released := ReleasedNote(v.(phase := Release, level := SustainLevel(v.low), counter := 0, on := true));
  }

  // ---- straight ramps ----

  predicate BeforeEnd(v: Voice, level: int) {
    0 <= level && if v.phase == Attack then level < PEAK else 0 < level <= PEAK
  }

  predicate Ramp(v: Voice) {
    (v.phase == Attack || v.phase == Release) && !Exponential(v) && VoiceOk(v) && v.counter == 0
  }

  lemma {:induction false} CountUp(v: Voice, ticks: nat)
    requires v.phase != Off && v.counter == 0 && ticks < Period(v)
    ensures Ticks(v, ticks) == v.(counter := ticks) && Period(v.(counter := ticks)) == Period(v)
    decreases ticks
  {
    if ticks > 0 {
      CountUp(v, ticks - 1);
      var u := v.(counter := ticks - 1);
      TickCounts(u, v.(counter := ticks));
      TicksAdd(v, ticks - 1, 1);
      OneTick(u, v.(counter := ticks));
    }
  }

  lemma RampStep(v: Voice, u: Voice, next: int)
    requires Ramp(v) && VoiceOk(u) && u == v.(level := u.level) && next == u.level + Step(v) && BeforeEnd(v, next)
    ensures Ticks(u, Period(v)) == v.(level := next)
  {
    NextUpdate(u);
    assert Period(u) == Period(v) && Step(u) == Step(v) && Wait(u) == Period(u);
  }

  lemma OneLess(n: nat, d: int)
    requires n > 0
    ensures n * d == (n - 1) * d + d
  {
  }

  /** Steps one way pass between where they began and where they end. */
  lemma StepsBetween(n: nat, s: int, level: int)
    requires n > 0
    ensures s > 0 ==> level <= level + (n - 1) * s < level + n * s
    ensures s < 0 ==> level + n * s < level + (n - 1) * s <= level
  {
    OneLess(n, s);
    if s > 0 { MulMono(s, 0, n - 1); }
    if s < 0 {
      MulMono(-s, 0, n - 1);
      assert (n - 1) * s == -(-s * (n - 1));
    }
  }

  lemma RampStepSign(v: Voice)
    requires Ramp(v)
    ensures if v.phase == Attack then Step(v) > 0 else Step(v) < 0
  {
    StepBounds(v);
  }

  lemma StillBefore(v: Voice, from: int, near: int, far: int)
    requires 0 <= v.level <= PEAK && from == v.level && BeforeEnd(v, far)
    requires if v.phase == Attack then from <= near < far else far < near <= from
    requires v.phase == Attack || v.phase == Release
    ensures BeforeEnd(v, near)
  {
  }

  /** With one step less the ramp is still before its end. */
  lemma RampSoFar(v: Voice, periods: nat, level: int, ticks: nat)
    requires Ramp(v) && periods > 0 && level == v.level + periods * Step(v) && ticks == periods * Period(v)
      && BeforeEnd(v, level)
    ensures level - Step(v) == v.level + (periods - 1) * Step(v) && ticks - Period(v) == (periods - 1) * Period(v) >= 0
    ensures periods > 1 ==> BeforeEnd(v, level - Step(v))
  {
    hide Step, Period, BeforeEnd;
    RampStepSign(v);
    OneLess(periods, Step(v));
    OneLess(periods, Period(v));
    StepsBetween(periods, Step(v), v.level);
    MulMono(Period(v), 0, periods - 1);
    if periods > 1 { StillBefore(v, v.level, level - Step(v), level); }
  }

  lemma {:induction false} WholePeriods(v: Voice, periods: nat, level: int, ticks: nat)
    requires Ramp(v) && level == v.level + periods * Step(v) && ticks == periods * Period(v)
      && (periods > 0 ==> BeforeEnd(v, level))
    ensures VoiceOk(v.(level := level)) && Ticks(v, ticks) == v.(level := level)
    decreases periods
  {
    if periods > 0 {
      RampSoFar(v, periods, level, ticks);
      WholePeriods(v, periods - 1, level - Step(v), ticks - Period(v));
      OneMorePeriod(v, level - Step(v), level, ticks);
    }
  }

  lemma OneMorePeriod(v: Voice, from: int, level: int, ticks: nat)
    requires Ramp(v) && BeforeEnd(v, level) && ticks >= Period(v) && from == level - Step(v) && 0 <= from <= PEAK
    requires VoiceOk(v.(level := from)) && Ticks(v, ticks - Period(v)) == v.(level := from)
    ensures VoiceOk(v.(level := level)) && Ticks(v, ticks) == v.(level := level)
  {
    RampStep(v, v.(level := from), level);
    TicksAdd(v, ticks - Period(v), Period(v));
  }

  lemma JoinTicks(v: Voice, m: nat, u: Voice, n: nat, w: Voice)
    requires Ticks(v, m) == u && Ticks(u, n) == w
    ensures Ticks(v, m + n) == w
  {
    TicksAdd(v, m, n);
  }

  lemma CountUpOn(v: Voice, level: Level, ticks: nat)
    requires Ramp(v) && VoiceOk(v.(level := level)) && ticks < Period(v)
    ensures Ticks(v.(level := level), ticks) == v.(level := level, counter := ticks)
  {
    CountUp(v.(level := level), ticks);
  }

  /** A linear phase moves by one step for every whole period, until the step that ends it. */
  lemma LinearRamp(v: Voice, periods: nat, ticks: nat, level: int, n: nat)
    requires Ramp(v) && ticks < Period(v) && (periods > 0 ==> BeforeEnd(v, level))
    requires level == v.level + periods * Step(v) && n == periods * Period(v)
    ensures VoiceOk(v.(level := level)) && Ticks(v, n + ticks) == v.(level := level, counter := ticks)
  {
    WholePeriods(v, periods, level, n);
    CountUpOn(v, level, ticks);
    JoinTicks(v, n, v.(level := level), ticks, v.(level := level, counter := ticks));
  }

  lemma LastStep(v: Voice, u: Voice)
    requires Ramp(v) && VoiceOk(u) && u == v.(level := u.level) && !BeforeEnd(v, u.level + Step(v))
    ensures Ticks(u, Period(v))
         == if v.phase == Attack then v.(phase := Decay, level := PEAK) else v.(phase := Off, level := 0, on := false)
  {
    NextUpdate(u);
    StepBounds(u);
    assert Period(u) == Period(v) && Step(u) == Step(v) && Wait(u) == Period(u);
  }

  /** It ends exactly one period after its last step before the end. */
  lemma LinearRampEnds(v: Voice, periods: nat, level: int, n: nat)
    requires Ramp(v) && (periods > 0 ==> BeforeEnd(v, level)) && !BeforeEnd(v, level + Step(v))
    requires level == v.level + periods * Step(v) && n == periods * Period(v)
    ensures Ticks(v, n + Period(v))
         == if v.phase == Attack then v.(phase := Decay, level := PEAK) else v.(phase := Off, level := 0, on := false)
  {
    WholePeriods(v, periods, level, n);
    var u := v.(level := level);
    LastStep(v, u);
    TicksAdd(v, n, Period(v));
  }

  // ---- the voice in place ----

  class Envelope {
    var low: Half
    var high: Half
    var phase: Phase
    var level: Level
    var counter: Word
    var on: bool

    ghost function State(): Voice
      reads this
    {
      Voice(low, high, phase, level, counter, on)
    }

    constructor ()
      ensures State() == Voice(0, 0, Off, 0, 0, false)
    {
      low, high, phase, level, counter, on := 0, 0, Off, 0, 0, false;
    }

    /** Key on. */
    method Strike()
      modifies this
      ensures State() == KeyOn(old(State()))
    {
      phase, level, counter, on := Attack, 0, 0, true;
    }

    /** Key off. */
    method LetGo()
      modifies this
      ensures State() == KeyOff(old(State()))
    {
      if on {
        phase, counter := Release, 0;
      }
    }

    /** Counts one tick, and tells whether a period of the given length is over. */
    method Count(cycles: nat) returns (due: bool)
      requires cycles > 0
      modifies this`counter
      ensures due == (Wrap(old(counter) + 1) >= cycles)
      ensures counter == if due then 0 else Wrap(old(counter) + 1)
    {
      counter := Wrap(counter + 1);
      due := counter >= cycles;
      if due {
        counter := 0;
      }
    }

    /** spu_voice_adsr_tick */
    method Advance()
      modifies this
      ensures State() == Tick(old(State()))
    {
      ghost var v := State();
      StepBounds(v);
      match phase {
        case Off => level := 0;
        case Attack =>
          var shift := low / 0x400 % 0x20;
          var cycles := Cycles(shift);
          if low / 0x8000 == 1 && level > 0x6000 { cycles := cycles * 4; }
          var due := Count(cycles);
          if due {
            var next := level + (7 - low / 0x100 % 4) * Gain(shift);
            if next >= 0x7FFF { level, phase := 0x7FFF, Decay; } else { level := next; }
          }
        case Decay =>
          var shift := low / 0x10 % 0x10;
          var target := SustainLevel(low);
          var due := Count(Cycles(shift));
          if due {
            var step := -8 * Gain(shift) * level / 0x8000;
            if step >= 0 { step := -1; }
            if level + step <= target { level, phase := target, Sustain; } else { level := level + step; }
          }
        case Sustain => Hold();
        case Release => Fade();
      }
    }

    /** The release branch of a tick. */
    method Fade()
      requires phase == Release
      modifies this
      ensures State() == Tick(old(State()))
    {
      ghost var v := State();
      StepBounds(v);
      var shift := high % 0x20;
      var due := Count(Cycles(shift));
      if due {
        var step := -8 * Gain(shift);
        if high / 0x20 % 2 == 1 {
          step := step * level / 0x8000;
          if step >= 0 { step := -1; }
        }
        if level + step <= 0 { level, phase, on := 0, Off, false; } else { level := level + step; }
      }
    }

    /** The sustain branch of a tick. */
    method Hold()
      requires phase == Sustain
      modifies this
      ensures State() == Tick(old(State()))
    {
      ghost var v := State();
      StepBounds(v);
      var rising := high / 0x4000 % 2 == 0;
      var shift := high / 0x100 % 0x20;
      var cycles := Cycles(shift);
      if high / 0x8000 == 1 && rising && level > 0x6000 { cycles := cycles * 4; }
      var due := Count(cycles);
      if due {
        var slope := high / 0x40 % 4;
        var step := (if rising then 7 - slope else slope - 8) * Gain(shift);
        if high / 0x8000 == 1 && !rising {
          step := step * level / 0x8000;
          if step >= 0 { step := -1; }
        }
        var next := level + step;
        if rising {
          level := if next >= 0x7FFF then 0x7FFF else next;
        } else {
          level := if next <= 0 then 0 else next;
        }
      }
    }
  }
}
