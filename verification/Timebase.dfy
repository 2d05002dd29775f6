/** Bar, beat and tick from a frame count, in exact arithmetic. */
module Timebase {

  import opened Util

  /** An exact number; every float is one. */
  datatype Ratio = Ratio(num: int, den: nat)

  datatype Timebase = Timebase(bpm: Ratio, beatsPerBar: Ratio, beatType: int, ticksPerBeat: int)

  datatype Position = Position(bar: int, beat: int, tick: int, barStartTick: int)

  datatype TimebaseError = BadTempo | BadMeter | BadBeatType | BadTicks | BadSampleRate | TempoTooHigh

  /** Float to integer casts truncate and saturate. */
  function ToU64(num: nat, den: nat): nat
    requires den > 0
  {
    Min(num / den, MAX_U64)
  }

  function ToI32(num: int, den: nat): int
    requires den > 0
  {
    if num >= 0 then Min(num / den, MAX_I32) else Max(-(-num / den), MIN_I32)
  }

  function Scaled(a: nat, b: nat, c: nat): nat
    requires c > 0
  {
    a * b / c
  }

  /** The remainder that takes the sign of the dividend. */
  function Rem(a: int, b: nat): int
    requires b > 0
  {
    if a >= 0 then a % b else -((-a) % b)
  }

  function Validate(t: Timebase): Result<(), TimebaseError> {
    if t.bpm.num <= 0 then Err(BadTempo)
    else if t.beatsPerBar.num <= 0 then Err(BadMeter)
    else if t.beatType <= 0 then Err(BadBeatType)
    else if t.ticksPerBeat <= 0 then Err(BadTicks)
    else Ok(())
  }

  function FramesPerBeat(t: Timebase, rate: nat): nat
    requires t.bpm.num > 0
  {
    ToU64(60 * t.bpm.den * rate, t.bpm.num)
  }

  function FramesPerBar(m: nat, meter: Ratio): nat
    requires meter.num > 0 && meter.den > 0
  {
    ToU64(m * meter.num, meter.den)
  }

  /** The ratios are well formed; all else is checked. */
  function PositionAt(t: Timebase, frame: nat, rate: nat): Result<Position, TimebaseError>
    requires t.bpm.den > 0 && t.beatsPerBar.den > 0
  {
    var valid := Validate(t);
    if valid.Err? then Err(valid.error)
    else if rate == 0 then Err(BadSampleRate)
    else
      var perBeat := FramesPerBeat(t, rate);
      if perBeat == 0 then Err(TempoTooHigh)
      else Ok(PositionFrom(frame, perBeat, t.beatsPerBar, t.ticksPerBeat))
  }

  function PositionFrom(frame: nat, perBeat: nat, meter: Ratio, ticksPerBeat: nat): Position
    requires perBeat > 0 && meter.num > 0 && meter.den > 0 && ticksPerBeat > 0
  {
    var totalTicks := Min(Scaled(frame, ticksPerBeat, perBeat), MAX_I32);
    var perBar := FramesPerBar(perBeat, meter);
    var bar := if perBar == 0 then 1 else WrapI32(frame / perBar) + 1;
    var barStart := ToI32((bar - 1) * meter.num * ticksPerBeat, meter.den);
    var beat := if perBar == 0 then 1
                else WrapI32(Scaled(frame % perBar, ToU64(meter.num, meter.den), perBar)) + 1;
    Position(bar, beat, Rem(totalTicks - barStart, ticksPerBeat), barStart)
  }

  // ---- The decomposition ----

  /** Whole beats in a bar, and a position whose tick count fits in 32 bits. */
  predicate Regular(frame: nat, m: nat, beats: nat, ticks: nat) {
    && m > 0 && 0 < beats <= MAX_I32 && ticks > 0
    && frame <= MAX_U32 && frame * ticks / m < MAX_I32
  }

  /** Products of the beats `v` and the frames `r` into a beat, in a bar of `bar` frames. */
  lemma WithinBar(u: nat, v: nat, r: nat, m: nat, b: nat, bar: nat)
    requires v < b && r < m && bar == m * b
    ensures v * m + r < bar
    ensures (u * b + v) * m + r == u * bar + (v * m + r)
  {
    MulMonotone(v, b - 1, m);
    assert (b - 1) * m == m * b - m;
    assert (u * b + v) * m == u * (m * b) + v * m;
  }

  lemma BeatsScaled(v: nat, r: nat, m: nat, b: nat, bar: nat)
    requires r < m && b > 0 && bar == m * b
    ensures (v * m + r) * b == v * bar + r * b && 0 <= r * b < bar
  {
    MulMonotone(r, m - 1, b);
    assert (m - 1) * b == m * b - b;
    assert v * m * b == v * (m * b);
  }

  /** Dividing by a product is dividing twice. */
  lemma DivTwice(a: nat, m: nat, b: nat, u: nat, v: nat, r: nat, bar: nat)
    requires v < b && r < m && bar == m * b && a == (u * b + v) * m + r
    ensures bar > 0 && a / bar == u && a % bar * b / bar == v
  {
    WithinBar(u, v, r, m, b, bar);
    BeatsScaled(v, r, m, b, bar);
    DivTwiceAbstract(a, u, v * m + r, bar, b, v, r * b);
  }

  lemma DivTwiceAbstract(a: nat, u: nat, rest: nat, bar: nat, b: nat, v: nat, part: nat)
    requires rest < bar && a == u * bar + rest && rest * b == v * bar + part && part < bar
    ensures a / bar == u && a % bar * b / bar == v
  {
    DivModUnique(a, u, rest, bar);
    DivModUnique(rest * b, v, part, bar);
  }

  /** Ticks: the whole beats and the part of the beat under way. */
  lemma TicksSplit(q: nat, r: nat, m: nat, ticks: nat)
    requires r < m && ticks > 0
    ensures r * ticks / m < ticks
    ensures (q * m + r) * ticks / m == q * ticks + r * ticks / m
  {
    var u, v := r * ticks / m, r * ticks % m;
    DivModSplit(r * ticks, m);
    assert (q * m + r) * ticks == (q * ticks + u) * m + v by {
      assert (q * m + r) * ticks == q * ticks * m + r * ticks;
      assert (q * ticks + u) * m == q * ticks * m + u * m;
    }
    DivModUnique((q * m + r) * ticks, q * ticks + u, v, m);
    TickBounds(r, m, ticks, u);
  }

  lemma TickBounds(r: nat, m: nat, ticks: nat, u: nat)
    requires r < m && ticks > 0 && u * m <= r * ticks
    ensures u < ticks
  {
    MulMonotone(r, m - 1, ticks);
    assert (m - 1) * ticks == m * ticks - ticks;
    if ticks <= u {
      MulMonotone(ticks, u, m);
      assert false;
    }
  }

  /** The bar and beat divisions come out as if nothing saturated. */
  lemma BarAndBeat(frame: nat, m: nat, b: nat, u: nat, v: nat, r: nat)
    requires r < m && v < b <= MAX_I32 && frame <= MAX_U32 && frame == (u * b + v) * m + r
    ensures var perBar := FramesPerBar(m, Ratio(b, 1));
      perBar > 0 && frame / perBar == u && frame % perBar * b / perBar == v
  {
    var bar := m * b;
    WithinBar(u, v, r, m, b, bar);
    if bar <= MAX_U64 {
      DivTwice(frame, m, b, u, v, r, bar);
    } else {
      LongBar(frame, m, b, u, v, r, bar);
    }
  }

  /** A bar too long for 64 bits has beats longer than any frame count. */
  lemma LongBar(frame: nat, m: nat, b: nat, u: nat, v: nat, r: nat, bar: nat)
    requires r < m && v < b <= MAX_I32 && frame <= MAX_U32 && frame == (u * b + v) * m + r
    requires bar == m * b > MAX_U64
    ensures u == 0 && v == 0
    ensures frame / MAX_U64 == u && frame % MAX_U64 * b / MAX_U64 == v
  {
    MulMonotone(b, MAX_I32, m);
    assert b * m == m * b;
    assert m > MAX_U32;
    if u * b + v > 0 {
      MulMonotone(1, u * b + v, m);
      assert false;
    }
    if u > 0 {
      MulMonotone(1, u, b);
      assert false;
    }
    MulMonotone(frame, MAX_U32, b);
    MulMonotone(b, MAX_I32, MAX_U32);
    DivTwiceAbstract(frame, 0, frame, MAX_U64, b, 0, frame * b);
  }

  /** What is left of the ticks after the bar has been taken off. */
  lemma TickInBeat(u: nat, v: nat, b: nat, ticks: nat, part: nat)
    requires ticks > 0 && part < ticks
    ensures u * b * ticks <= (u * b + v) * ticks
    ensures Rem((u * b + v) * ticks + part - u * b * ticks, ticks) == part
  {
    assert (u * b + v) * ticks == u * b * ticks + v * ticks;
    DivModUnique(v * ticks + part, v, part, ticks);
  }

  lemma BarBelow(q: nat, u: nat, v: nat, b: nat, ticks: nat)
    requires b > 0 && ticks > 0 && q == u * b + v
    ensures u <= q && v <= q && q <= q * ticks
  {
    MulMonotone(1, b, u);
    MulMonotone(1, ticks, q);
  }

  /** The whole position, from the parts of the frame count. */
  lemma PositionFromParts(frame: nat, m: nat, beats: nat, ticks: nat, u: nat, v: nat, r: nat, part: nat)
    requires Regular(frame, m, beats, ticks)
    requires v < beats && r < m && frame == (u * beats + v) * m + r
    requires part < ticks && u < MAX_I32 && v < MAX_I32
    requires frame * ticks / m == (u * beats + v) * ticks + part
    ensures PositionFrom(frame, m, Ratio(beats, 1), ticks) == Position(u + 1, v + 1, part, u * beats * ticks)
  {
    BarAndBeat(frame, m, beats, u, v, r);
    TickInBeat(u, v, beats, ticks, part);
  }

  /** Bars and beats number the whole beats, and the tick is the part of the beat under way. */
  predicate Decomposes(p: Position, frame: nat, m: nat, beats: nat, ticks: nat)
    requires m > 0
  {
    && (p.bar - 1) * beats + (p.beat - 1) == frame / m
    && p.bar >= 1 && 1 <= p.beat <= beats
    && p.tick == frame % m * ticks / m && 0 <= p.tick < ticks
    && p.barStartTick == (p.bar - 1) * beats * ticks
  }

  lemma Divide(a: nat, b: nat) returns (q: nat, r: nat)
    requires b > 0
    ensures a == q * b + r && r < b && q == a / b && r == a % b
  {
    DivModSplit(a, b);
    q, r := a / b, a % b;
  }

  lemma FromPartsDecomposes(frame: nat, m: nat, beats: nat, ticks: nat)
    requires Regular(frame, m, beats, ticks)
    ensures Decomposes(PositionFrom(frame, m, Ratio(beats, 1), ticks), frame, m, beats, ticks)
  {
    var q, r := Divide(frame, m);
    var u, v := Divide(q, beats);
    SplitDecomposes(frame, m, beats, ticks, q, r, u, v, Scaled(r, ticks, m));
  }

  lemma SplitDecomposes(frame: nat, m: nat, beats: nat, ticks: nat,
                        q: nat, r: nat, u: nat, v: nat, part: nat)
    requires Regular(frame, m, beats, ticks)
    requires frame == q * m + r && r < m && q == frame / m && r == frame % m
    requires q == u * beats + v && v < beats && part == r * ticks / m
    ensures Decomposes(PositionFrom(frame, m, Ratio(beats, 1), ticks), frame, m, beats, ticks)
  {
    TicksOf(frame, q, r, m, ticks, part);
    PositionOfSplit(frame, m, beats, ticks, q, r, u, v, part);
    PartsDecompose(PositionFrom(frame, m, Ratio(beats, 1), ticks), frame, m, beats, ticks, u, v, r, part);
  }

  lemma TicksOf(frame: nat, q: nat, r: nat, m: nat, ticks: nat, part: nat)
    requires r < m && ticks > 0 && frame == q * m + r && part == r * ticks / m
    ensures part < ticks && frame * ticks / m == q * ticks + part
  {
    TicksSplit(q, r, m, ticks);
  }

  lemma PositionOfSplit(frame: nat, m: nat, beats: nat, ticks: nat, q: nat, r: nat, u: nat, v: nat, part: nat)
    requires Regular(frame, m, beats, ticks)
    requires frame == q * m + r && r < m && q == u * beats + v && v < beats
    requires part < ticks && frame * ticks / m == q * ticks + part
    ensures PositionFrom(frame, m, Ratio(beats, 1), ticks) == Position(u + 1, v + 1, part, u * beats * ticks)
  {
    BarBelow(q, u, v, beats, ticks);
    PositionFromParts(frame, m, beats, ticks, u, v, r, part);
  }

  lemma PartsDecompose(p: Position, frame: nat, m: nat, beats: nat, ticks: nat, u: nat, v: nat, r: nat, part: nat)
    requires m > 0 && v < beats && frame / m == u * beats + v && frame % m == r
    requires part == r * ticks / m && part < ticks
    requires p == Position(u + 1, v + 1, part, u * beats * ticks)
    ensures Decomposes(p, frame, m, beats, ticks)
  {
  }

  predicate Steady(t: Timebase, beats: nat, frame: nat, rate: nat) {
    && t.bpm.den > 0 && t.beatsPerBar == Ratio(beats, 1) && Validate(t).Ok? && rate > 0
    && Regular(frame, FramesPerBeat(t, rate), beats, t.ticksPerBeat)
  }

  lemma PositionDecomposes(t: Timebase, beats: nat, frame: nat, rate: nat)
    requires Steady(t, beats, frame, rate)
    ensures PositionAt(t, frame, rate).Ok?
    ensures Decomposes(PositionAt(t, frame, rate).value, frame, FramesPerBeat(t, rate), beats, t.ticksPerBeat)
  {
    FromPartsDecomposes(frame, FramesPerBeat(t, rate), beats, t.ticksPerBeat);
  }

  predicate NotAfter(p: Position, q: Position) {
    p.bar < q.bar || (p.bar == q.bar && (p.beat < q.beat || (p.beat == q.beat && p.tick <= q.tick)))
  }

  lemma QuotientsOrdered(q: nat, r: nat, q': nat, r': nat, m: nat)
    requires r < m && r' < m && q * m + r <= q' * m + r'
    ensures q < q' || (q == q' && r <= r')
  {
    if q' < q {
      MulMonotone(q' + 1, q, m);
      assert false;
    }
  }

  lemma DivMonotone(a: nat, b: nat, m: nat)
    requires m > 0 && a <= b
    ensures a / m < b / m || (a / m == b / m && a % m <= b % m)
  {
    DivModSplit(a, m);
    DivModSplit(b, m);
    QuotientsOrdered(a / m, a % m, b / m, b % m, m);
  }

  lemma DecompositionsOrdered(p: Position, q: Position, f: nat, g: nat, m: nat, beats: nat, ticks: nat)
    requires m > 0 && f <= g && Decomposes(p, f, m, beats, ticks) && Decomposes(q, g, m, beats, ticks)
    ensures NotAfter(p, q)
  {
    DivMonotone(f, g, m);
    QuotientsOrdered(p.bar - 1, p.beat - 1, q.bar - 1, q.beat - 1, beats);
    if f / m == g / m {
      MulMonotone(f % m, g % m, ticks);
      DivMonotone(f % m * ticks, g % m * ticks, m);
    }
  }

  /** Later frames never get an earlier bar, beat and tick. */
  lemma PositionIsMonotone(t: Timebase, beats: nat, f: nat, g: nat, rate: nat)
    requires f <= g && Steady(t, beats, f, rate) && Steady(t, beats, g, rate)
    ensures NotAfter(PositionAt(t, f, rate).value, PositionAt(t, g, rate).value)
  {
    var m := FramesPerBeat(t, rate);
    FromPartsDecomposes(f, m, beats, t.ticksPerBeat);
    FromPartsDecomposes(g, m, beats, t.ticksPerBeat);
    DecompositionsOrdered(PositionAt(t, f, rate).value, PositionAt(t, g, rate).value, f, g, m, beats, t.ticksPerBeat);
  }

  /** Which inputs have no position. */
  lemma PositionFailsIff(t: Timebase, frame: nat, rate: nat)
    requires t.bpm.den > 0 && t.beatsPerBar.den > 0
    ensures PositionAt(t, frame, rate).Err? <==>
      || t.bpm.num <= 0 || t.beatsPerBar.num <= 0 || t.beatType <= 0 || t.ticksPerBeat <= 0 || rate == 0
      || t.bpm.num > 60 * t.bpm.den * rate
    ensures PositionAt(t, frame, rate) == Err(BadSampleRate) <==> Validate(t).Ok? && rate == 0
    ensures PositionAt(t, frame, rate) == Err(TempoTooHigh)
      <==> Validate(t).Ok? && rate > 0 && t.bpm.num > 60 * t.bpm.den * rate
  {
    if Validate(t).Ok? && rate > 0 {
      NoQuotientIff(60 * t.bpm.den * rate, t.bpm.num);
    }
  }

  lemma NoQuotientIff(a: nat, b: nat)
    requires b > 0
    ensures a / b == 0 <==> a < b
  {
    DivModSplit(a, b);
    if a < b {
      DivModUnique(a, 0, a, b);
    }
  }

  // ---- Fractional meters ----

  /** The bar a frame is in, counted from zero, with no limit on any number. */
  function ExactBar(frame: nat, m: nat, meter: Ratio): nat
    requires m > 0 && meter.num > 0 && meter.den > 0
  {
    var perBar := Scaled(m, meter.num, meter.den);
    if perBar == 0 then 0 else frame / perBar
  }

  function ExactBarStart(frame: nat, m: nat, meter: Ratio, ticks: nat): nat
    requires m > 0 && meter.num > 0 && meter.den > 0
  {
    Scaled(ExactBar(frame, m, meter) * meter.num, ticks, meter.den)
  }

  function ExactTick(frame: nat, m: nat, meter: Ratio, ticks: nat): int
    requires m > 0 && meter.num > 0 && meter.den > 0 && ticks > 0
  {
    Rem(Scaled(frame, ticks, m) - ExactBarStart(frame, m, meter, ticks), ticks)
  }

  /** Where every result fits its integer type, the position has the exact tick. */
  lemma PositionTickIsExact(frame: nat, m: nat, meter: Ratio, ticks: nat)
    requires m > 0 && meter.num > 0 && meter.den > 0 && ticks > 0
    requires frame <= MAX_U32 && ExactBar(frame, m, meter) < MAX_I32
    requires Scaled(frame, ticks, m) <= MAX_I32 && ExactBarStart(frame, m, meter, ticks) <= MAX_I32
    ensures var p := PositionFrom(frame, m, meter, ticks);
      && p.bar == ExactBar(frame, m, meter) + 1
      && p.barStartTick == ExactBarStart(frame, m, meter, ticks)
      && p.tick == ExactTick(frame, m, meter, ticks)
  {
    var perBar := Scaled(m, meter.num, meter.den);
    if perBar > MAX_U64 {
      DivModUnique(frame, 0, frame, MAX_U64);
      DivModUnique(frame, 0, frame, perBar);
    }
  }

  /** A bar is a whole number of frames. */
  predicate WholeBars(m: nat, meter: Ratio)
    requires meter.num > 0 && meter.den > 0
  {
    m * meter.num % meter.den == 0
  }

  lemma FloorsEqual(a: nat, b: nat, c: nat, d: nat)
    requires b > 0 && d > 0 && a * d == c * b
    ensures a / b == c / d
  {
    var q, r := a / b, a % b;
    DivModSplit(a, b);
    var v := c - q * d;
    assert v * b == r * d by {
      assert (q * b + r) * d == q * d * b + r * d;
      assert v * b == c * b - q * d * b;
    }
    MulMonotone(r, b - 1, d);
    assert (b - 1) * d == d * b - d;
    RestInRange(v, r * d, b, d);
    DivModUnique(c, q, v, d);
  }

  lemma RestInRange(v: int, w: nat, b: nat, d: nat)
    requires b > 0 && d > 0 && v * b == w && w < d * b
    ensures 0 <= v < d
  {
    if v >= d {
      MulMonotone(d, v, b);
      assert false;
    }
  }

  /** With whole bars a bar starts at the ticks of its first frame. */
  lemma WholeBarStart(u: nat, m: nat, num: nat, den: nat, perBar: nat, ticks: nat)
    requires m > 0 && den > 0 && m * num == perBar * den
    ensures Scaled(u * num, ticks, den) == Scaled(u * perBar, ticks, m)
  {
    assert u * num * ticks * m == u * ticks * (m * num);
    assert u * perBar * ticks * den == u * ticks * (perBar * den);
    FloorsEqual(u * num * ticks, den, u * perBar * ticks, m);
  }

  lemma ScaledMonotone(a: nat, b: nat, ticks: nat, m: nat)
    requires m > 0 && a <= b
    ensures Scaled(a, ticks, m) <= Scaled(b, ticks, m)
  {
    MulMonotone(a, b, ticks);
    DivMonotone(a * ticks, b * ticks, m);
  }

  lemma WholeBarsKeepTicks(frame: nat, m: nat, meter: Ratio, ticks: nat)
    requires m > 0 && meter.num > 0 && meter.den > 0 && ticks > 0
    requires Scaled(m, meter.num, meter.den) == 0 || WholeBars(m, meter)
    ensures ExactBarStart(frame, m, meter, ticks) <= Scaled(frame, ticks, m)
    ensures 0 <= ExactTick(frame, m, meter, ticks) < ticks
  {
    var perBar, u := Scaled(m, meter.num, meter.den), ExactBar(frame, m, meter);
    if perBar == 0 {
      DivModUnique(0, 0, 0, meter.den);
    } else {
      DivModSplit(m * meter.num, meter.den);
      WholeBarStart(u, m, meter.num, meter.den, perBar, ticks);
      DivModSplit(frame, perBar);
      ScaledMonotone(u * perBar, frame, ticks, m);
    }
  }

  /** A frame whose bar starts later than the frame, by less than a beat. */
  function LateFrame(m: nat, perBar: nat, k: nat): nat {
    m * k * perBar
  }

  /** Bars cut short by `rest` frames out of `den` drift; after `m * k` bars by this many ticks. */
  lemma Drift(m: nat, k: nat, num: nat, den: nat, perBar: nat, rest: nat, ticks: nat)
    requires m > 0 && den > 0 && perBar > 0 && m * num == perBar * den + rest
    ensures LateFrame(m, perBar, k) / perBar == m * k
    ensures Scaled(LateFrame(m, perBar, k), ticks, m) == k * perBar * ticks
    ensures Scaled(m * k * num, ticks, den) == k * perBar * ticks + k * rest * ticks / den
  {
    DivModUnique(LateFrame(m, perBar, k), m * k, 0, perBar);
    assert m * k * perBar * ticks == k * perBar * ticks * m;
    DivModUnique(m * k * perBar * ticks, k * perBar * ticks, 0, m);
    assert m * k * num * ticks == k * ticks * (m * num);
    assert k * ticks * (perBar * den + rest) == k * perBar * ticks * den + k * rest * ticks;
    QuotientShift(k * perBar * ticks, k * rest * ticks, den);
  }

  lemma QuotientShift(q: nat, r: nat, m: nat)
    requires m > 0
    ensures (q * m + r) / m == q + r / m
  {
    DivModSplit(r, m);
    assert (q + r / m) * m == q * m + r / m * m;
    DivModUnique(q * m + r, q + r / m, r % m, m);
  }

  /** The first multiple of a step that reaches `den` passes it by less than `ticks - 1` times. */
  lemma FirstDrift(rest: nat, den: nat, ticks: nat) returns (k: nat)
    requires 0 < rest < den && ticks >= 2
    ensures 1 <= k * rest * ticks / den < ticks
  {
    var step := rest * ticks;
    MulMonotone(1, rest, ticks);
    if step >= den {
      k := 1;
      DivModSplit(step, den);
      QuotientBelow(step, den, ticks, rest);
      QuotientAtLeast(step, den, 1);
    } else {
      k := (den + step - 1) / step;
      DivModSplit(den + step - 1, step);
      assert k * rest * ticks == k * step;
      DivModUnique(k * step, 1, k * step - den, den);
    }
  }

  lemma QuotientBelow(step: nat, den: nat, ticks: nat, rest: nat)
    requires 0 < rest < den && step == rest * ticks && ticks > 0
    ensures step / den < ticks
  {
    DivModSplit(step, den);
    TickBounds(rest, den, ticks, step / den);
  }

  lemma QuotientAtLeast(a: nat, den: nat, q: nat)
    requires den > 0 && q * den <= a
    ensures q <= a / den
  {
    DivModSplit(a, den);
    if a / den < q {
      MulMonotone(a / den + 1, q, den);
      assert false;
    }
  }

  lemma NegativeRem(n: int, ticks: nat)
    requires 0 < n < ticks
    ensures Rem(-n, ticks) == -n
  {
    DivModUnique(n, 0, n, ticks);
  }

  lemma DriftGoesNegative(m: nat, meter: Ratio, ticks: nat) returns (frame: nat)
    requires m > 0 && meter.num > 0 && meter.den > 0 && ticks >= 2
    requires Scaled(m, meter.num, meter.den) > 0 && !WholeBars(m, meter)
    ensures ExactTick(frame, m, meter, ticks) < 0
  {
    var perBar, rest := Scaled(m, meter.num, meter.den), m * meter.num % meter.den;
    DivModSplit(m * meter.num, meter.den);
    var k := FirstDrift(rest, meter.den, ticks);
    Drift(m, k, meter.num, meter.den, perBar, rest, ticks);
    frame := LateFrame(m, perBar, k);
    NegativeRem(k * rest * ticks / meter.den, ticks);
  }

  /** So a position that fits its integer types has its tick in range, whatever the meter, if bars
      are whole numbers of frames or shorter than one. */
  lemma PositionTickInRange(frame: nat, m: nat, meter: Ratio, ticks: nat)
    requires m > 0 && meter.num > 0 && meter.den > 0 && ticks > 0
    requires frame <= MAX_U32 && ExactBar(frame, m, meter) < MAX_I32 && Scaled(frame, ticks, m) <= MAX_I32
    requires Scaled(m, meter.num, meter.den) == 0 || WholeBars(m, meter)
    ensures var p := PositionFrom(frame, m, meter, ticks);
      p.barStartTick <= Scaled(frame, ticks, m) && 0 <= p.tick < ticks
  {
    WholeBarsKeepTicks(frame, m, meter, ticks);
    PositionTickIsExact(frame, m, meter, ticks);
  }

  /** In exact arithmetic no tick is negative if and only if a bar is a whole number of frames,
      or shorter than a frame, or a beat is a single tick. */
  lemma TicksInRangeIff(m: nat, meter: Ratio, ticks: nat)
    requires m > 0 && meter.num > 0 && meter.den > 0 && ticks > 0
    ensures (forall frame: nat :: 0 <= ExactTick(frame, m, meter, ticks) < ticks)
      <==> Scaled(m, meter.num, meter.den) == 0 || WholeBars(m, meter) || ticks == 1
  {
    if Scaled(m, meter.num, meter.den) == 0 || WholeBars(m, meter) {
      forall frame: nat
        ensures 0 <= ExactTick(frame, m, meter, ticks) < ticks
      {
        WholeBarsKeepTicks(frame, m, meter, ticks);
      }
    } else if ticks > 1 {
      var frame := DriftGoesNegative(m, meter, ticks);
    }
  }

  /** Three halves of a beat to the bar at 130 beats a minute: the second bar starts at frame 30529
      with tick -1. */
  lemma FractionalMeterTick()
    ensures PositionAt(Timebase(Ratio(130, 1), Ratio(3, 2), 4, 480), 30529, 44100) == Ok(Position(2, 1, -1, 720))
  {
    assert FramesPerBeat(Timebase(Ratio(130, 1), Ratio(3, 2), 4, 480), 44100) == 20353;
    assert FramesPerBar(20353, Ratio(3, 2)) == 30529 && Scaled(30529, 480, 20353) == 719;
    assert PositionFrom(30529, 20353, Ratio(3, 2), 480) == Position(2, 1, -1, 720);
  }
}
