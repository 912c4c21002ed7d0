/** xa_resample_to_44100 (ext/oracle/psxrecomp_cdrom.c): linear interpolation from the rate of an
    XA stream to 44100 Hz, with an integer phase accumulator. */
module XaResample {
  import opened Words

  const OUT_RATE: nat := 44100

  type Sample = x: int | -0x8000 <= x < 0x8000

  /** A C int, as two's complement machines keep it. */
  function ToInt(x: int): int {
    Signed(Wrap(x))
  }

  /** The low 16 bits, signed. */
  function ToSample(x: int): Sample {
    var h := x % 0x1_0000;
    if h < 0x8000 then h else h - 0x1_0000
  }

  function Mix(cur: Sample, next: Sample, phase: nat): Sample {
    ToSample(cur + TruncDiv(ToInt((next - cur) * phase), OUT_RATE))
  }

  /** Where output frame k lies in the input: whole frames, and the phase within one. */
  function Position(k: nat, rate: nat): nat {
    k * rate / OUT_RATE
  }

  function Phase(k: nat, rate: nat): nat {
    k * rate % OUT_RATE
  }

  function NextFrame(pos: nat, frames: nat): nat {
    if pos + 1 < frames then pos + 1 else pos
  }

  /** One channel (0 or 1) of output frame k. */
  function Output(input: seq<Sample>, frames: nat, rate: nat, k: nat, channel: nat): Sample
    requires frames > 0 && |input| >= 2 * frames && channel < 2 && Position(k, rate) < frames
  {
    var pos := Position(k, rate);
    Mix(input[2 * pos + channel], input[2 * NextFrame(pos, frames) + channel], Phase(k, rate))
  }

  function CeilDiv(a: nat, b: nat): nat
    requires b > 0
  {
    (a + b - 1) / b
  }

  /** How many frames come out when the output has room. */
  function OutFrames(frames: nat, rate: nat): nat
    requires rate > 0
  {
    CeilDiv(frames * OUT_RATE, rate)
  }

  lemma CeilExact(k: nat, a: nat, b: nat)
    requires b > 0
    ensures k < CeilDiv(a, b) <==> k * b < a
  {
    var q, r := (a + b - 1) / b, (a + b - 1) % b;
    assert a + b - 1 == b * q + r;
    if k < q {
      MulMono(b, k + 1, q);
    } else {
      MulMono(b, q, k);
    }
  }

  /** Output frames lie inside the input exactly up to that count. */
  lemma InsideExact(k: nat, frames: nat, rate: nat)
    requires rate > 0
    ensures Position(k, rate) < frames <==> k < OutFrames(frames, rate)
  {
    CeilExact(k, frames * OUT_RATE, rate);
    var pos, phase := Position(k, rate), Phase(k, rate);
    assert k * rate == OUT_RATE * pos + phase;
    if pos < frames {
      MulMono(OUT_RATE, pos + 1, frames);
    } else {
      MulMono(OUT_RATE, frames, pos);
    }
  }

  /** The accumulator carries its whole frames over to the input position. */
  lemma Carried(k: nat, rate: nat, pos: nat, phase: nat)
    requires OUT_RATE * pos + phase == k * rate && phase < OUT_RATE
    ensures pos == Position(k, rate) && phase == Phase(k, rate)
  {
    DivModUnique(k * rate, OUT_RATE, pos, phase);
  }

  lemma OneFurther(k: nat, rate: nat)
    ensures (k + 1) * rate == k * rate + rate
  {
  }

  /** Both channels of output frame k. */
  ghost predicate FrameIs(input: seq<Sample>, frames: nat, rate: nat, out: seq<Sample>, k: nat)
    requires |input| >= 2 * frames
  {
    && Position(k, rate) < frames && 2 * k + 1 < |out|
    && out[2 * k] == Output(input, frames, rate, k, 0) && out[2 * k + 1] == Output(input, frames, rate, k, 1)
  }

  lemma FrameWritten(input: seq<Sample>, frames: nat, rate: nat, out: seq<Sample>, k: nat, pos: nat, phase: nat)
    requires |input| >= 2 * frames && pos < frames && 2 * k + 1 < |out| && pos == Position(k, rate)
      && phase == Phase(k, rate)
    requires out[2 * k] == Mix(input[2 * pos], input[2 * NextFrame(pos, frames)], phase)
    requires out[2 * k + 1] == Mix(input[2 * pos + 1], input[2 * NextFrame(pos, frames) + 1], phase)
    ensures FrameIs(input, frames, rate, out, k)
  {
  }

  lemma FrameKept(input: seq<Sample>, frames: nat, rate: nat, out: seq<Sample>, out': seq<Sample>, k: nat)
    requires |input| >= 2 * frames && FrameIs(input, frames, rate, out, k)
    requires |out'| == |out| && out'[2 * k] == out[2 * k] && out'[2 * k + 1] == out[2 * k + 1]
    ensures FrameIs(input, frames, rate, out', k)
  {
  }

  /** The frames that the loop writes: frame k interpolates at its exact position, as many frames
      come out as the input and the room allow, and the rest of the buffer is left alone. */
  method Resample(input: seq<Sample>, frames: int, rate: int, out: array<Sample>, room: int) returns (n: nat)
    requires frames >= 0 ==> |input| >= 2 * frames
    requires room >= 0 ==> out.Length >= 2 * room
    modifies out
    ensures frames <= 0 || rate <= 0 || room <= 0 ==> n == 0
    ensures frames > 0 && rate > 0 && room > 0
      ==> n == if OutFrames(frames, rate) < room then OutFrames(frames, rate) else room
    ensures frames > 0 && rate > 0 && room > 0 ==> forall k: nat :: k < n ==> FrameIs(input, frames, rate, out[..], k)
    ensures forall j :: 2 * n <= j < out.Length ==> out[j] == old(out[j])
  {
    if frames <= 0 || rate <= 0 || room <= 0 { return 0; }
    n := 0;
    var pos: nat, phase: nat := 0, 0;
    ghost var total: nat := 0;
    while pos < frames && n < room
      invariant n <= room && total == n * rate && phase < OUT_RATE && OUT_RATE * pos + phase == total
      invariant n <= OutFrames(frames, rate)
      invariant forall k: nat :: k < n ==> FrameIs(input, frames, rate, out[..], k)
      invariant forall j :: 2 * n <= j < out.Length ==> out[j] == old(out[j])
    {
      Carried(n, rate, pos, phase);
      InsideExact(n, frames, rate);
      WriteFrame(input, frames, rate, out, n, pos, phase);
      OneFurther(n, rate);
      n, total := n + 1, total + rate;
      pos, phase := Step(pos, phase + rate, total);
    }
    Carried(n, rate, pos, phase);
    InsideExact(n, frames, rate);
  }

  method WriteFrame(input: seq<Sample>, frames: nat, ghost rate: nat, out: array<Sample>, n: nat, pos: nat, phase: nat)
    requires |input| >= 2 * frames && pos < frames && 2 * n + 1 < out.Length && pos == Position(n, rate)
      && phase == Phase(n, rate)
    requires forall k: nat :: k < n ==> FrameIs(input, frames, rate, out[..], k)
    modifies out
    ensures forall k: nat :: k < n + 1 ==> FrameIs(input, frames, rate, out[..], k)
    ensures forall j :: 2 * n + 2 <= j < out.Length ==> out[j] == old(out[j])
  {
    var next := if pos + 1 < frames then pos + 1 else pos;
    out[2 * n] := Mix(input[2 * pos], input[2 * next], phase);
    out[2 * n + 1] := Mix(input[2 * pos + 1], input[2 * next + 1], phase);
    FrameWritten(input, frames, rate, out[..], n, pos, phase);
    forall k: nat | k < n ensures FrameIs(input, frames, rate, out[..], k) {
      FrameKept(input, frames, rate, old(out[..]), out[..], k);
    }
  }

  method Step(pos0: nat, phase0: nat, ghost total: nat) returns (pos: nat, phase: nat)
    requires OUT_RATE * pos0 + phase0 == total
    ensures phase < OUT_RATE && OUT_RATE * pos + phase == total
  {
    pos, phase := pos0, phase0;
    while phase >= OUT_RATE
      invariant OUT_RATE * pos + phase == total
    {
      phase := phase - OUT_RATE;
      pos := pos + 1;
    }
  }

  /** A full XA sector at the half rate fills the buffer that was sized for it, exactly. */
  lemma HalfRateFits()
    ensures OutFrames(4032, 18900) == 9408
  {
  }

  lemma QuotientBound(p: nat, d: nat)
    requires p <= d * OUT_RATE
    ensures 0 <= p / OUT_RATE <= d
  {
  }

  /** What the interpolation is meant to give: the share of the way from one sample to the next. */
  function Between(cur: Sample, next: Sample, phase: nat): int {
    cur + TruncDiv((next - cur) * phase, OUT_RATE)
  }

  /** A product that wraps is off by a quotient that no 16-bit wrap makes good. */
  lemma WrappedQuotient(p: int)
    requires 0x8000_0000 <= p < 0x1_0000_0000 || -0x1_0000_0000 < p < -0x8000_0000
    ensures ToInt(p) == if p > 0 then p - 0x1_0000_0000 else p + 0x1_0000_0000
    ensures var gap := TruncDiv(p, OUT_RATE) - TruncDiv(ToInt(p), OUT_RATE);
            97390 <= gap <= 97391 || -97391 <= gap <= -97390
  {
  }

  lemma Distance(d: int, phase: nat)
    requires phase < OUT_RATE && -0xFFFF <= d <= 0xFFFF
    ensures -0x1_0000_0000 < d * phase < 0x1_0000_0000
    ensures if d >= 0 then 0 <= TruncDiv(d * phase, OUT_RATE) <= d else d <= TruncDiv(d * phase, OUT_RATE) <= 0
  {
    var n: nat := if d >= 0 then d else -d;
    MulMono(n, 0, phase);
    MulMono(n, phase, OUT_RATE);
    MulMono(phase, n, 0xFFFF);
    QuotientBound(n * phase, n);
    assert d < 0 ==> d * phase == -(n * phase);
  }

  lemma SampleWraps(x: int, y: int)
    requires -0x8000 <= x < 0x8000 && (97390 <= x - y <= 97391 || -97391 <= x - y <= -97390)
    ensures ToSample(x) == x && ToSample(y) != x
  {
  }

  /** The interpolated sample is right exactly when the C product fits 32 bits. */
  lemma MixExact(cur: Sample, next: Sample, phase: nat)
    requires phase < OUT_RATE
    ensures Mix(cur, next, phase) == Between(cur, next, phase) <==> -0x8000_0000 <= (next - cur) * phase < 0x8000_0000
  {
    var p := (next - cur) * phase;
    Distance(next - cur, phase);
    if -0x8000_0000 <= p < 0x8000_0000 {
      assert ToInt(p) == p;
    } else {
      WrappedQuotient(p);
      SampleWraps(cur + TruncDiv(p, OUT_RATE), cur + TruncDiv(ToInt(p), OUT_RATE));
    }
  }

  lemma NearFits(d: int, phase: nat, far: nat, late: nat)
    requires phase <= late && -(far as int) <= d <= far && far * late < 0x8000_0000
    ensures -0x8000_0000 <= d * phase < 0x8000_0000
  {
    MulMono(phase, d, far);
    MulMono(phase, -(far as int), d);
    MulMono(far, phase, late);
    assert phase * d == d * phase && phase * -(far as int) == -(far * phase);
  }

  /** What is meant lies between the two samples; samples at most 48696 apart give it at every phase. */
  lemma MixBetween(cur: Sample, next: Sample, phase: nat)
    requires phase < OUT_RATE
    ensures if cur <= next then cur <= Between(cur, next, phase) <= next else next <= Between(cur, next, phase) <= cur
    ensures -48696 <= next - cur <= 48696 ==> Mix(cur, next, phase) == Between(cur, next, phase)
  {
    Distance(next - cur, phase);
    MixExact(cur, next, phase);
    if -48696 <= next - cur <= 48696 {
      NearFits(next - cur, phase, 48696, OUT_RATE - 1);
    }
  }

  // ---- at the rates of the program ----

  predicate XaRate(rate: nat) {
    rate == 37800 || rate == 18900
  }

  /** At both rates the phases are multiples of 6300, so the last seventh of a frame never occurs. */
  lemma XaPhases(k: nat, rate: nat)
    requires XaRate(rate)
    ensures Phase(k, rate) % 6300 == 0 && Phase(k, rate) <= 37800
  {
    var j := if rate == 37800 then 6 * k else 3 * k;
    DivModUnique(j * 6300, OUT_RATE, j / 7, j % 7 * 6300);
  }

  ghost predicate RightEverywhere(cur: Sample, next: Sample) {
    forall k: nat, rate: nat {:trigger Phase(k, rate)} :: XaRate(rate)
        ==> Mix(cur, next, Phase(k, rate)) == Between(cur, next, Phase(k, rate))
  }

  lemma NearIsRight(cur: Sample, next: Sample, phase: nat)
    requires -56811 <= next - cur <= 56811 && phase <= 37800
    ensures Mix(cur, next, phase) == Between(cur, next, phase)
  {
    NearFits(next - cur, phase, 56811, 37800);
    MixExact(cur, next, phase);
  }

  lemma SecondFrame()
    ensures Phase(1, 37800) == 37800 && Position(1, 37800) == 0
  {
  }

  lemma FarIsWrong(cur: Sample, next: Sample)
    requires next - cur > 56811 || next - cur < -56811
    ensures Mix(cur, next, 37800) != Between(cur, next, 37800)
  {
    MixExact(cur, next, 37800);
  }

  /** At its rates the program interpolates right at every place if and only if the samples are at most
      56811 apart. */
  lemma XaMixExact(cur: Sample, next: Sample)
    ensures RightEverywhere(cur, next) <==> -56811 <= next - cur <= 56811
  {
    if -56811 <= next - cur <= 56811 {
      forall k: nat, rate: nat | XaRate(rate)
          ensures Mix(cur, next, Phase(k, rate)) == Between(cur, next, Phase(k, rate)) {
        XaPhases(k, rate);
        NearIsRight(cur, next, Phase(k, rate));
      }
    } else {
      SecondFrame();
      FarIsWrong(cur, next);
    }
  }

  /** Two frames at 37800 Hz from the lowest to the highest sample: the second frame out is wrong. */
  lemma MixOverflows(input: seq<Sample>)
    requires input == [-32768, -32768, 32767, 32767]
    ensures Position(1, 37800) == 0 && Phase(1, 37800) == 37800
    ensures Between(-32768, 32767, 37800) == 23404 && Output(input, 2, 37800, 1, 0) != 23404
  {
    SecondFrame();
    MixExact(-32768, 32767, 37800);
  }
}
