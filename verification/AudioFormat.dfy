/** The buffer size two devices agree on. */
module AudioFormat {

  import opened Util

  const MAX_CALLBACK_FRAMES: nat := 16384

  datatype BufferSize = Range(min: nat, max: nat) | Unknown

  datatype ConfigRange = ConfigRange(minRate: nat, maxRate: nat, buffer: BufferSize)

  predicate SupportsRate(r: ConfigRange, rate: nat) {
    r.minRate <= rate <= r.maxRate
  }

  function Limits(r: ConfigRange): (nat, nat) {
    match r.buffer
    case Range(min, max) => (min, max)
    case Unknown => (1, MAX_CALLBACK_FRAMES)
  }

  /** The intersection over the ranges that support the rate. */
  function CommonBufferLimit(ranges: seq<ConfigRange>, rate: nat): Option<(nat, nat)> {
    if ranges == [] then None
    else
      var before, last := CommonBufferLimit(ranges[..|ranges| - 1], rate), ranges[|ranges| - 1];
      if !SupportsRate(last, rate) then before
      else if before.None? then Some(Limits(last))
      else Some((Max(before.value.0, Limits(last).0), Min(before.value.1, Limits(last).1)))
  }

  function ChooseBufferFrames(preferred: nat, input: Option<(nat, nat)>, output: Option<(nat, nat)>): Option<nat> {
    if input.None? || output.None? then None
    else
      var min := Max(input.value.0, output.value.0);
      var max := Min(Min(input.value.1, output.value.1), MAX_CALLBACK_FRAMES);
      if min <= max then Some(Clamp(preferred, min, max)) else None
  }

  predicate HasRate(ranges: seq<ConfigRange>, rate: nat) {
    exists i | 0 <= i < |ranges| :: SupportsRate(ranges[i], rate)
  }

  /** A range without limits of its own allows what the callback's buffers hold. */
  predicate Allows(r: ConfigRange, f: nat) {
    && (r.buffer.Range? ==> r.buffer.min <= f <= r.buffer.max)
    && (r.buffer.Unknown? ==> 0 < f <= MAX_CALLBACK_FRAMES)
  }

  /** Every range that supports the rate allows buffers of `f` frames. */
  predicate AllAllow(ranges: seq<ConfigRange>, rate: nat, f: nat) {
    forall i | 0 <= i < |ranges| && ranges[i].minRate <= rate && rate <= ranges[i].maxRate :: Allows(ranges[i], f)
  }

  lemma {:induction false} CommonLimitIff(ranges: seq<ConfigRange>, rate: nat)
    ensures var limit := CommonBufferLimit(ranges, rate);
      && (limit.Some? <==> HasRate(ranges, rate))
      && (limit.Some? ==> forall f: nat :: AllAllow(ranges, rate, f) <==> limit.value.0 <= f <= limit.value.1)
  {
    if ranges != [] {
      var init, last := ranges[..|ranges| - 1], ranges[|ranges| - 1];
      CommonLimitIff(init, rate);
      assert forall i | 0 <= i < |init| :: init[i] == ranges[i];
      assert HasRate(ranges, rate) <==> HasRate(init, rate) || SupportsRate(last, rate) by {
        if HasRate(init, rate) {
          var i :| 0 <= i < |init| && SupportsRate(init[i], rate);
          assert SupportsRate(ranges[i], rate);
        }
      }
      forall f: nat
        ensures AllAllow(ranges, rate, f)
            <==> AllAllow(init, rate, f) && (SupportsRate(last, rate) ==> Allows(last, f))
      {
        AllAllowSnoc(init, last, rate, f);
        assert ranges == init + [last];
      }
      if !HasRate(init, rate) {
        assert forall f: nat :: AllAllow(init, rate, f);
      }
    }
  }

  lemma AllAllowSnoc(init: seq<ConfigRange>, last: ConfigRange, rate: nat, f: nat)
    ensures AllAllow(init + [last], rate, f)
        <==> AllAllow(init, rate, f) && (SupportsRate(last, rate) ==> Allows(last, f))
  {
    var all := init + [last];
    assert all[|init|] == last;
    if AllAllow(all, rate, f) {
      forall i | 0 <= i < |init| && SupportsRate(init[i], rate)
        ensures Allows(init[i], f)
      {
        assert all[i] == init[i];
      }
    }
  }

  function Distance(a: nat, b: nat): nat {
    if a <= b then b - a else a - b
  }

  /** A buffer size both devices take in full. */
  predicate Agreed(input: seq<ConfigRange>, output: seq<ConfigRange>, rate: nat, f: nat) {
    AllAllow(input, rate, f) && AllAllow(output, rate, f) && f <= MAX_CALLBACK_FRAMES
  }

  /** The choice is the agreed size nearest to the preferred one; there is none exactly when a
      device lacks the rate or no size is agreed. */
  lemma ChoiceIsNearest(preferred: nat, input: seq<ConfigRange>, output: seq<ConfigRange>, rate: nat)
    ensures var choice := ChooseBufferFrames(preferred, CommonBufferLimit(input, rate), CommonBufferLimit(output, rate));
      && (choice.None? <==>
            || !HasRate(input, rate) || !HasRate(output, rate)
            || forall f: nat :: !Agreed(input, output, rate, f))
      && (choice.Some? ==>
            && Agreed(input, output, rate, choice.value)
            && forall f: nat | Agreed(input, output, rate, f) :: Distance(choice.value, preferred) <= Distance(f, preferred))
  {
    CommonLimitIff(input, rate);
    CommonLimitIff(output, rate);
    var choice := ChooseBufferFrames(preferred, CommonBufferLimit(input, rate), CommonBufferLimit(output, rate));
    if choice.Some? {
      assert Agreed(input, output, rate, choice.value);
    }
  }
}
