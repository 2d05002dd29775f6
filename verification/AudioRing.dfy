/** The capture and playback callbacks of the desktop audio backend, which share one ring.

    Captured frames are numbered in the order the capture callback sees them.  One `Action` is
    one atomic step of one callback: an operation on the ring or on one shared counter.  The
    counters live as long as the backend; every activation makes a new ring, and what the old one
    still held is gone. */
module AudioRing {

  import opened Util
  import opened AudioFormat

  datatype Capture =
    | Quiet
    | Counted(frames: nat)                 // frames counted, none handled
    | Pushing(left: nat, failed: nat)      // about to push the next frame
    | Losing(failed: nat)                  // about to count the frames the ring refused

  datatype Playback =
    | Silent
    | Trimming(frames: nat, left: nat, trimmed: nat)   // `left` of the backlog still to pop
    | Trimmed(frames: nat, trimmed: nat)               // about to count them as trimmed
    | Overrun(frames: nat, trimmed: nat)               // about to count them as overruns
    | Filling(frames: nat, done: nat, left: nat, missing: nat)  // `left` frames in this chunk
    | Missed(frames: nat, done: nat, missing: nat)     // about to count silent frames
    | Underrun(frames: nat, done: nat, missing: nat)   // about to count them as underruns
    | Finished(frames: nat)                            // about to count the frames played

  /** What the processor is handed: a captured frame, or silence. */
  datatype Handed = Real(id: nat) | Silence

  datatype State = State(
    capacity: nat, inChannels: nat, outChannels: nat,
    ring: seq<nat>, seen: nat,
    capture: Capture, playback: Playback,
    handed: seq<Handed>,
    captureFrames: nat, overruns: nat, playbackFrames: nat,
    missing: nat, underruns: nat, trimmed: nat,
    refused: nat,           // frames the ring refused
    discarded: nat,         // frames popped by the trim
    abandoned: nat,         // frames still queued in a ring that was replaced
    skipped: nat)           // frames counted for a device without channels

  datatype Action =
    | CaptureStart(samples: nat)
    | CaptureStep
    | PlaybackStart(samples: nat)
    | PlaybackStep
    | Reactivate(capacity: nat, inChannels: nat, outChannels: nat)

  function Initial(capacity: nat, inChannels: nat, outChannels: nat): State {
    State(capacity, inChannels, outChannels, [], 0, Quiet, Silent, [], 0, 0, 0, 0, 0, 0, 0, 0, 0, 0)
  }

  predicate Enabled(s: State, a: Action) {
    match a
    case CaptureStart(_) => s.capture.Quiet?
    case CaptureStep => !s.capture.Quiet?
    case PlaybackStart(_) => s.playback.Silent?
    case PlaybackStep => !s.playback.Silent?
    // Both streams are paused and dropped first.
    case Reactivate(_, _, _) => s.capture.Quiet? && s.playback.Silent?
  }

  function StepCapture(s: State): State
    requires !s.capture.Quiet?
  {
    match s.capture
    case Counted(n) =>
      if s.inChannels == 0 then s.(capture := Quiet, skipped := s.skipped + n) else s.(capture := Pushing(n, 0))
    case Pushing(left, failed) =>
      if left == 0 then s.(capture := if failed == 0 then Quiet else Losing(failed))
      else if |s.ring| < s.capacity then
        s.(ring := s.ring + [s.seen], seen := s.seen + 1, capture := Pushing(left - 1, failed))
      else s.(seen := s.seen + 1, refused := s.refused + 1, capture := Pushing(left - 1, failed + 1))
    case Losing(failed) => s.(overruns := s.overruns + failed, capture := Quiet)
  }

  /** The next chunk of the output buffer, or the end of the callback. */
  function NextChunk(frames: nat, done: nat): Playback {
    if done >= frames then Finished(frames)
    else Filling(frames, done, Min(MAX_CALLBACK_FRAMES, frames - done), 0)
  }

  function StepPlayback(s: State): State
    requires !s.playback.Silent?
  {
    match s.playback
    case Trimming(frames, left, trimmed) =>
      if left > 0 then
        var t := s.(playback := Trimming(frames, left - 1, trimmed));
        if s.ring == [] then t else t.(ring := s.ring[1..], discarded := s.discarded + 1)
      else s.(playback := if trimmed == 0 then NextChunk(frames, 0) else Trimmed(frames, trimmed))
    case Trimmed(frames, trimmed) => s.(trimmed := s.trimmed + trimmed, playback := Overrun(frames, trimmed))
    case Overrun(frames, trimmed) => s.(overruns := s.overruns + trimmed, playback := NextChunk(frames, 0))
    case Filling(frames, done, left, missing) =>
      if left == 0 then s.(playback := if missing == 0 then NextChunk(frames, done) else Missed(frames, done, missing))
      else if s.ring == [] then
        s.(handed := s.handed + [Silence], playback := Filling(frames, done + 1, left - 1, missing + 1))
      else
        s.(handed := s.handed + [Real(s.ring[0])], ring := s.ring[1..],
           playback := Filling(frames, done + 1, left - 1, missing))
    case Missed(frames, done, missing) => s.(missing := s.missing + missing, playback := Underrun(frames, done, missing))
    case Underrun(frames, done, missing) =>
      s.(underruns := s.underruns + missing, playback := NextChunk(frames, done))
    case Finished(frames) => s.(playbackFrames := s.playbackFrames + frames, playback := Silent)
  }

  function Apply(s: State, a: Action): State
    requires Enabled(s, a)
  {
    match a
    case CaptureStart(samples) =>
      // Frames are counted even when the device has no channels.
      var n := samples / Max(s.inChannels, 1);
      s.(captureFrames := s.captureFrames + n, capture := Counted(n))
    case CaptureStep => StepCapture(s)
    case PlaybackStart(samples) =>
      if s.outChannels == 0 then s
      else
        var frames := samples / s.outChannels;
        var backlog := Max(|s.ring| - frames, 0);
        s.(playback := Trimming(frames, backlog, backlog))
    case PlaybackStep => StepPlayback(s)
    case Reactivate(capacity, inChannels, outChannels) =>
      s.(capacity := capacity, inChannels := inChannels, outChannels := outChannels,
         ring := [], abandoned := s.abandoned + |s.ring|)
  }

  predicate Runs(s: State, acts: seq<Action>)
    decreases |acts|
  {
    acts == [] || (Enabled(s, acts[0]) && Runs(Apply(s, acts[0]), acts[1..]))
  }

  function Exec(s: State, acts: seq<Action>): State
    requires Runs(s, acts)
    decreases |acts|
  {
    if acts == [] then s else Exec(Apply(s, acts[0]), acts[1..])
  }

  // ---- Where the frames are ----

  /** The captured frames among those handed over. */
  function Ids(handed: seq<Handed>): seq<nat> {
    if handed == [] then []
    else
      var last := handed[|handed| - 1];
      Ids(handed[..|handed| - 1]) + (if last.Real? then [last.id] else [])
  }

  /** How many captured frames were handed over. */
  function Heard(handed: seq<Handed>): nat {
    |Ids(handed)|
  }

  lemma IdsSnoc(handed: seq<Handed>, h: Handed)
    ensures Ids(handed + [h]) == Ids(handed) + (if h.Real? then [h.id] else [])
    ensures Heard(handed + [h]) == Heard(handed) + (if h.Real? then 1 else 0)
  {
    assert (handed + [h])[..|handed|] == handed;
  }

  /** Frames counted by the capture callback and not yet handled. */
  function Uncaptured(c: Capture): nat {
    match c
    case Counted(n) => n
    case Pushing(left, _) => left
    case _ => 0
  }

  /** Frames the ring refused and the counter does not show yet. */
  function Failed(c: Capture): nat {
    match c
    case Pushing(_, failed) => failed
    case Losing(failed) => failed
    case _ => 0
  }

  /** Frames trimmed and not yet counted, first as trimmed, then as overruns. */
  function Untrimmed(p: Playback): int {
    match p
    case Trimming(_, left, trimmed) => trimmed - left
    case Trimmed(_, trimmed) => trimmed
    case _ => 0
  }

  function Unlost(p: Playback): int {
    if p.Overrun? then p.trimmed else Untrimmed(p)
  }

  /** Frames of the running callback already handed over. */
  function Unplayed(p: Playback): nat {
    match p
    case Filling(_, done, _, _) => done
    case Missed(_, done, _) => done
    case Underrun(_, done, _) => done
    case Finished(frames) => frames
    case _ => 0
  }

  /** Silent frames handed over and not yet counted, first as missing, then as underruns. */
  function Unmissed(p: Playback): nat {
    match p
    case Filling(_, _, _, missing) => missing
    case Missed(_, _, missing) => missing
    case _ => 0
  }

  function Ununder(p: Playback): nat {
    if p.Underrun? then p.missing else Unmissed(p)
  }

  ghost predicate CaptureInv(s: State) {
    s.captureFrames == s.seen + Uncaptured(s.capture) + s.skipped
  }

  ghost predicate CallbackInv(s: State) {
    match s.playback
    case Trimming(_, left, trimmed) => left <= trimmed && left <= |s.ring|
    case Filling(frames, done, left, _) => done + left <= frames
    case Missed(frames, done, _) => done <= frames
    case Underrun(frames, done, _) => done <= frames
    case _ => true
  }

  /** Every captured frame was refused, discarded, handed over or abandoned, or is queued, and the counters
      lag behind by what the running callbacks still carry. */
  ghost predicate FlowInv(s: State) {
    && CaptureInv(s) && CallbackInv(s)
    && s.seen == s.refused + s.discarded + Heard(s.handed) + |s.ring| + s.abandoned
    && s.overruns + Failed(s.capture) + Unlost(s.playback) == s.refused + s.discarded
    && s.trimmed + Untrimmed(s.playback) == s.discarded
    && s.playbackFrames + Unplayed(s.playback) == |s.handed|
    && s.missing + Unmissed(s.playback) == |s.handed| - Heard(s.handed)
    && s.underruns + Ununder(s.playback) == |s.handed| - Heard(s.handed)
  }

  lemma FlowCaptureStart(s: State, a: Action)
    requires FlowInv(s) && Enabled(s, a) && a.CaptureStart?
    ensures FlowInv(Apply(s, a))
  {
  }

  lemma FlowPush(s: State)
    requires FlowInv(s) && s.capture.Pushing?
    ensures FlowInv(StepCapture(s))
  {
  }

  lemma FlowCaptureOther(s: State)
    requires FlowInv(s) && (s.capture.Counted? || s.capture.Losing?)
    ensures FlowInv(StepCapture(s))
  {
  }

  lemma FlowStart(s: State, a: Action)
    requires FlowInv(s) && Enabled(s, a) && a.PlaybackStart?
    ensures FlowInv(Apply(s, a))
  {
  }

  lemma FlowTrimPop(s: State)
    requires FlowInv(s) && s.playback.Trimming? && s.playback.left > 0
    ensures FlowInv(StepPlayback(s))
  {
  }

  lemma FlowTrimEnd(s: State)
    requires FlowInv(s) && s.playback.Trimming? && s.playback.left == 0
    ensures FlowInv(StepPlayback(s))
  {
  }

  lemma FlowFill(s: State)
    requires FlowInv(s) && s.playback.Filling?
    ensures FlowInv(StepPlayback(s))
  {
    if s.playback.left > 0 {
      IdsSnoc(s.handed, if s.ring == [] then Silence else Real(s.ring[0]));
    }
  }

  lemma FlowCount(s: State)
    requires FlowInv(s) && !s.playback.Silent? && !s.playback.Trimming? && !s.playback.Filling?
    ensures FlowInv(StepPlayback(s))
  {
  }

  lemma FlowReactivate(s: State, a: Action)
    requires FlowInv(s) && Enabled(s, a) && a.Reactivate?
    ensures FlowInv(Apply(s, a))
  {
  }

  lemma FlowStep(s: State, a: Action)
    requires FlowInv(s) && Enabled(s, a)
    ensures FlowInv(Apply(s, a))
  {
    if a.CaptureStart? {
      FlowCaptureStart(s, a);
    } else if a.CaptureStep? {
      if s.capture.Pushing? {
        FlowPush(s);
      } else {
        FlowCaptureOther(s);
      }
    } else if a.Reactivate? {
      FlowReactivate(s, a);
    } else if a.PlaybackStart? {
      FlowStart(s, a);
    } else if s.playback.Trimming? {
      if s.playback.left > 0 {
        FlowTrimPop(s);
      } else {
        FlowTrimEnd(s);
      }
    } else if s.playback.Filling? {
      FlowFill(s);
    } else {
      FlowCount(s);
    }
  }

  lemma {:induction false} FlowRuns(s: State, acts: seq<Action>)
    requires FlowInv(s) && Runs(s, acts)
    ensures FlowInv(Exec(s, acts))
    decreases |acts|
  {
    if acts != [] {
      FlowStep(s, acts[0]);
      FlowRuns(Apply(s, acts[0]), acts[1..]);
    }
  }

  /** Between callbacks, over any interleaving and any number of activations: overruns are the
      frames the ring refused and those trimmed, underruns are the missing frames, and every
      captured frame was lost, handed over, abandoned with its ring, or is queued.  Captured frames
      less overruns are the frames played less the missing ones, and those still queued, if and
      only if no ring was replaced with frames in it and none were counted for a device without
      channels. */
  lemma AccountingIff(capacity: nat, inChannels: nat, outChannels: nat, acts: seq<Action>)
    requires Runs(Initial(capacity, inChannels, outChannels), acts)
    ensures var s := Exec(Initial(capacity, inChannels, outChannels), acts);
      s.capture.Quiet? && s.playback.Silent? ==>
        && s.overruns == s.refused + s.trimmed && s.underruns == s.missing
        && s.seen == s.overruns + Heard(s.handed) + |s.ring| + s.abandoned
        && s.captureFrames - s.overruns == s.playbackFrames - s.missing + |s.ring| + s.abandoned + s.skipped
        && (s.captureFrames - s.overruns == s.playbackFrames - s.missing + |s.ring|
            <==> s.abandoned == 0 && s.skipped == 0)
  {
    FlowRuns(Initial(capacity, inChannels, outChannels), acts);
  }

  /** One activation: nothing is abandoned, and frames are skipped only without channels. */
  ghost predicate SingleInv(s: State) {
    && s.abandoned == 0
    && (if s.inChannels > 0 then s.skipped == 0 else s.seen == 0 && !s.capture.Pushing?)
  }

  lemma {:induction false} SingleRuns(s: State, acts: seq<Action>)
    requires SingleInv(s) && Runs(s, acts) && forall a | a in acts :: !a.Reactivate?
    ensures SingleInv(Exec(s, acts)) && Exec(s, acts).inChannels == s.inChannels
    decreases |acts|
  {
    if acts != [] {
      assert !acts[0].Reactivate?;
      SingleRuns(Apply(s, acts[0]), acts[1..]);
    }
  }

  /** Within one activation the balance fails only for a device without channels. */
  lemma SingleActivationIff(capacity: nat, inChannels: nat, outChannels: nat, acts: seq<Action>)
    requires Runs(Initial(capacity, inChannels, outChannels), acts) && forall a | a in acts :: !a.Reactivate?
    ensures var s := Exec(Initial(capacity, inChannels, outChannels), acts);
      s.capture.Quiet? && s.playback.Silent? ==>
        (s.captureFrames - s.overruns == s.playbackFrames - s.missing + |s.ring|
         <==> inChannels > 0 || s.captureFrames == 0)
  {
    SingleRuns(Initial(capacity, inChannels, outChannels), acts);
    AccountingIff(capacity, inChannels, outChannels, acts);
    FlowRuns(Initial(capacity, inChannels, outChannels), acts);
  }

  lemma RunCons(s: State, a: Action, rest: seq<Action>)
    requires Enabled(s, a) && Runs(Apply(s, a), rest)
    ensures Runs(s, [a] + rest) && Exec(s, [a] + rest) == Exec(Apply(s, a), rest)
  {
    assert ([a] + rest)[1..] == rest;
  }

  /** A recovery with a frame still queued breaks the balance although there are channels. */
  lemma RecoveryUnbalances(capacity: nat, inChannels: nat, outChannels: nat) returns (acts: seq<Action>)
    requires capacity > 0 && inChannels > 0
    ensures Runs(Initial(capacity, inChannels, outChannels), acts)
    ensures var s := Exec(Initial(capacity, inChannels, outChannels), acts);
      && s.capture.Quiet? && s.playback.Silent? && s.inChannels > 0
      && s.captureFrames - s.overruns != s.playbackFrames - s.missing + |s.ring|
  {
    var s0 := Initial(capacity, inChannels, outChannels);
    var counted := s0.(captureFrames := 1, capture := Counted(1));
    var pushing := counted.(capture := Pushing(1, 0));
    var pushed := pushing.(ring := [0], seen := 1, capture := Pushing(0, 0));
    var quiet := pushed.(capture := Quiet);
    var again := Reactivate(capacity, inChannels, outChannels);
    DivModUnique(inChannels, 1, 0, inChannels);
    assert [] + [0] == [0];
    RunCons(quiet, again, []);
    RunCons(pushed, CaptureStep, [again] + []);
    RunCons(pushing, CaptureStep, [CaptureStep] + ([again] + []));
    RunCons(counted, CaptureStep, [CaptureStep] + ([CaptureStep] + ([again] + [])));
    acts := [CaptureStep] + ([CaptureStep] + ([CaptureStep] + ([again] + [])));
    RunCons(s0, CaptureStart(inChannels), acts);
    acts := [CaptureStart(inChannels)] + acts;
  }

  /** The trim never finds the ring empty. */
  lemma TrimNeverFails(capacity: nat, inChannels: nat, outChannels: nat, acts: seq<Action>)
    requires Runs(Initial(capacity, inChannels, outChannels), acts)
    ensures var s := Exec(Initial(capacity, inChannels, outChannels), acts);
      s.playback.Trimming? && s.playback.left > 0 ==> s.ring != []
  {
    FlowRuns(Initial(capacity, inChannels, outChannels), acts);
  }

  // ---- Order ----

  predicate Increasing(ids: seq<nat>, bound: nat) {
    && (forall i, j | 0 <= i < j < |ids| :: ids[i] < ids[j])
    && (forall i | 0 <= i < |ids| :: ids[i] < bound)
  }

  ghost predicate OrderInv(s: State) {
    Increasing(Ids(s.handed) + s.ring, s.seen) && |s.ring| <= s.capacity
  }

  lemma IncreasingPush(ids: seq<nat>, bound: nat)
    requires Increasing(ids, bound)
    ensures Increasing(ids + [bound], bound + 1) && Increasing(ids, bound + 1)
  {
  }

  lemma IncreasingDrop(a: seq<nat>, x: nat, b: seq<nat>, bound: nat)
    requires Increasing(a + ([x] + b), bound)
    ensures Increasing(a + b, bound)
  {
    var whole, rest := a + ([x] + b), a + b;
    var up := (i: nat) => if i < |a| then i else i + 1;
    assert forall i: nat | i < |rest| :: up(i) < |whole| && rest[i] == whole[up(i)];
  }

  lemma OrderPush(s: State)
    requires OrderInv(s)
    ensures Increasing(Ids(s.handed) + (s.ring + [s.seen]), s.seen + 1) && Increasing(Ids(s.handed) + s.ring, s.seen + 1)
  {
    IncreasingPush(Ids(s.handed) + s.ring, s.seen);
    Regroup(Ids(s.handed), s.ring, [s.seen]);
  }

  lemma OrderPop(s: State)
    requires OrderInv(s) && s.ring != []
    ensures Increasing(Ids(s.handed) + s.ring[1..], s.seen)
    ensures Increasing(Ids(s.handed + [Real(s.ring[0])]) + s.ring[1..], s.seen)
  {
    var ids, x, rest := Ids(s.handed), s.ring[0], s.ring[1..];
    assert s.ring == [x] + rest;
    IncreasingDrop(ids, x, rest, s.seen);
    IdsSnoc(s.handed, Real(x));
    Regroup(ids, [x], rest);
  }

  lemma OrderCapture(s: State)
    requires OrderInv(s) && !s.capture.Quiet?
    ensures OrderInv(StepCapture(s))
  {
    OrderPush(s);
  }

  lemma OrderTrim(s: State)
    requires OrderInv(s) && s.playback.Trimming?
    ensures OrderInv(StepPlayback(s))
  {
    if s.ring != [] {
      OrderPop(s);
    }
  }

  lemma OrderFill(s: State)
    requires OrderInv(s) && s.playback.Filling?
    ensures OrderInv(StepPlayback(s))
  {
    if s.playback.left > 0 {
      if s.ring != [] {
        OrderPop(s);
      } else {
        IdsSnoc(s.handed, Silence);
        assert Ids(s.handed) + [] == Ids(s.handed);
      }
    }
  }

  lemma OrderPrefix(s: State)
    requires OrderInv(s)
    ensures Increasing(Ids(s.handed) + [], s.seen)
  {
    var whole := Ids(s.handed) + s.ring;
    assert forall i | 0 <= i < |Ids(s.handed)| :: Ids(s.handed)[i] == whole[i];
    assert Ids(s.handed) + [] == Ids(s.handed);
  }

  lemma OrderStep(s: State, a: Action)
    requires OrderInv(s) && Enabled(s, a)
    ensures OrderInv(Apply(s, a))
  {
    match a
    case CaptureStep => OrderCapture(s);
    case Reactivate(_, _, _) => OrderPrefix(s);
    case PlaybackStep =>
      if s.playback.Trimming? {
        OrderTrim(s);
      } else if s.playback.Filling? {
        OrderFill(s);
      }
    case _ =>
  }

  lemma {:induction false} OrderRuns(s: State, acts: seq<Action>)
    requires OrderInv(s) && Runs(s, acts)
    ensures OrderInv(Exec(s, acts))
    decreases |acts|
  {
    if acts != [] {
      OrderStep(s, acts[0]);
      OrderRuns(Apply(s, acts[0]), acts[1..]);
    }
  }

  /** The processor is handed captured frames in the order they were captured, each at most once,
      and silence only where a frame was missing. */
  lemma HandedInOrder(capacity: nat, inChannels: nat, outChannels: nat, acts: seq<Action>)
    requires Runs(Initial(capacity, inChannels, outChannels), acts)
    ensures var s := Exec(Initial(capacity, inChannels, outChannels), acts);
      && Increasing(Ids(s.handed), s.seen) && |s.ring| <= s.capacity
      && |s.handed| - Heard(s.handed) == s.missing + Unmissed(s.playback)
  {
    var s := Exec(Initial(capacity, inChannels, outChannels), acts);
    OrderRuns(Initial(capacity, inChannels, outChannels), acts);
    FlowRuns(Initial(capacity, inChannels, outChannels), acts);
    OrderPrefix(s);
    assert Ids(s.handed) + [] == Ids(s.handed);
  }

  // ---- How much is trimmed ----

  /** A trim that has anything to discard leaves one callback's frames, and a chunk fits the
      processor's buffers. */
  ghost predicate TrimInv(s: State) {
    match s.playback
    case Trimming(frames, left, trimmed) => left <= |s.ring| && (trimmed > 0 ==> |s.ring| >= left + frames)
    case Filling(_, _, left, _) => left <= MAX_CALLBACK_FRAMES
    case _ => true
  }

  lemma {:induction false} TrimRuns(s: State, acts: seq<Action>)
    requires TrimInv(s) && Runs(s, acts)
    ensures TrimInv(Exec(s, acts))
    decreases |acts|
  {
    if acts != [] {
      TrimStep(s, acts[0]);
      TrimRuns(Apply(s, acts[0]), acts[1..]);
    }
  }

  lemma TrimStep(s: State, a: Action)
    requires TrimInv(s) && Enabled(s, a)
    ensures TrimInv(Apply(s, a))
  {
    if a.CaptureStep? {
      assert StepCapture(s).playback == s.playback && |StepCapture(s).ring| >= |s.ring|;
    }
  }

  /** In every reachable state the trim has a full callback's frames left besides those it is
      still to discard, and the processor is never given more than a buffer. */
  lemma TrimLeavesACallback(capacity: nat, inChannels: nat, outChannels: nat, acts: seq<Action>)
    requires Runs(Initial(capacity, inChannels, outChannels), acts)
    ensures var s := Exec(Initial(capacity, inChannels, outChannels), acts);
      && (s.playback.Trimming? && s.playback.trimmed > 0 ==> |s.ring| >= s.playback.left + s.playback.frames)
      && (s.playback.Filling? ==> s.playback.left <= MAX_CALLBACK_FRAMES)
  {
    TrimRuns(Initial(capacity, inChannels, outChannels), acts);
  }

  /** A running callback that will not run dry, with `missing` the count when it began. */
  ghost predicate WellFed(s: State, missing: nat) {
    && s.missing == missing
    && match s.playback
       case Trimming(frames, left, _) => |s.ring| >= left + frames
       case Trimmed(frames, _) => |s.ring| >= frames
       case Overrun(frames, _) => |s.ring| >= frames
       case Filling(frames, done, left, silent) => silent == 0 && done + left <= frames && |s.ring| >= frames - done
       case Missed(_, _, _) => false
       case Underrun(_, _, _) => false
       case Finished(_) => true
       case Silent => true
  }

  lemma WellFedStep(s: State, missing: nat, a: Action)
    requires WellFed(s, missing) && Enabled(s, a) && !a.PlaybackStart?
    ensures WellFed(Apply(s, a), missing)
  {
    if a.CaptureStep? {
      assert StepCapture(s).playback == s.playback && StepCapture(s).missing == s.missing;
      assert |StepCapture(s).ring| >= |s.ring|;
    }
  }

  lemma {:induction false} WellFedRuns(s: State, missing: nat, acts: seq<Action>)
    requires WellFed(s, missing) && Runs(s, acts) && forall a | a in acts :: !a.PlaybackStart?
    ensures WellFed(Exec(s, acts), missing)
    decreases |acts|
  {
    if acts != [] {
      assert !acts[0].PlaybackStart?;
      WellFedStep(s, missing, acts[0]);
      WellFedRuns(Apply(s, acts[0]), missing, acts[1..]);
    }
  }

  /** A callback that begins with its frames queued hears no silence, whatever the capture side
      does meanwhile. */
  lemma FedCallbackMissesNothing(s: State, samples: nat, acts: seq<Action>)
    requires s.playback.Silent? && s.outChannels > 0 && |s.ring| >= samples / s.outChannels
    requires Runs(s, [PlaybackStart(samples)] + acts) && forall a | a in acts :: !a.PlaybackStart?
    ensures Exec(s, [PlaybackStart(samples)] + acts).missing == s.missing
  {
    assert ([PlaybackStart(samples)] + acts)[1..] == acts;
    WellFedRuns(Apply(s, PlaybackStart(samples)), s.missing, acts);
  }

  // ---- A callback by itself ----

  /** The newest `n` frames of a ring, or all it has. */
  function Newest(ring: seq<nat>, n: nat): seq<nat> {
    if |ring| > n then ring[|ring| - n..] else ring
  }

  /** What a callback of `n` frames hands over from them: the frames, then silence. */
  function Served(kept: seq<nat>, n: nat): seq<Handed> {
    seq(n, i requires 0 <= i < n => if i < |kept| then Real(kept[i]) else Silence)
  }

  ghost predicate HandedSoFar(s0: State, s: State, n: nat, done: nat) {
    var kept := Newest(s0.ring, n);
    && done <= n && s.handed == s0.handed + Served(kept, n)[..done]
    && s.ring == kept[Min(done, |kept|)..]
    && s.trimmed == s0.trimmed + |s0.ring| - |kept|
  }

  predicate IsSuffix(ring: seq<nat>, all: seq<nat>) {
    |ring| <= |all| && ring == all[|all| - |ring|..]
  }

  ghost predicate AloneInv(s0: State, s: State, n: nat) {
    var kept := Newest(s0.ring, n);
    var lost := |s0.ring| - |kept|;
    match s.playback
    case Trimming(frames, left, trimmed) =>
      && frames == n && trimmed == lost && left <= |s.ring| && |s.ring| - left == |kept|
      && IsSuffix(s.ring, s0.ring)
      && s.handed == s0.handed && s.missing == s0.missing && s.trimmed == s0.trimmed
    case Trimmed(frames, trimmed) =>
      frames == n && trimmed == lost && s.ring == kept && s.handed == s0.handed && s.missing == s0.missing && s.trimmed == s0.trimmed
    case Overrun(frames, _) =>
      frames == n && HandedSoFar(s0, s, n, 0) && s.missing == s0.missing
    case Filling(frames, done, left, missing) =>
      frames == n && done + left <= n && HandedSoFar(s0, s, n, done) && s.missing + missing == s0.missing + Max(done - |kept|, 0)
    case Missed(frames, done, missing) =>
      frames == n && HandedSoFar(s0, s, n, done) && s.missing + missing == s0.missing + Max(done - |kept|, 0)
    case Underrun(frames, done, _) =>
      frames == n && HandedSoFar(s0, s, n, done) && s.missing == s0.missing + Max(done - |kept|, 0)
    case Finished(frames) =>
      frames == n && HandedSoFar(s0, s, n, n) && s.missing == s0.missing + (n - |kept|)
    case Silent => HandedSoFar(s0, s, n, n) && s.missing == s0.missing + (n - |kept|)
  }

  lemma SuffixTail(ring: seq<nat>, all: seq<nat>)
    requires IsSuffix(ring, all) && ring != []
    ensures IsSuffix(ring[1..], all)
  {
  }

  lemma AloneTrimPop(s0: State, s: State, n: nat)
    requires AloneInv(s0, s, n) && s.playback.Trimming? && s.playback.left > 0
    ensures AloneInv(s0, StepPlayback(s), n)
  {
    SuffixTail(s.ring, s0.ring);
  }

  lemma SuffixIsNewest(ring: seq<nat>, all: seq<nat>, n: nat)
    requires IsSuffix(ring, all) && |ring| == |Newest(all, n)|
    ensures ring == Newest(all, n)
  {
  }

  lemma AloneTrimEnd(s0: State, s: State, n: nat)
    requires AloneInv(s0, s, n) && s.playback.Trimming? && s.playback.left == 0
    ensures AloneInv(s0, StepPlayback(s), n)
  {
    SuffixIsNewest(s.ring, s0.ring, n);
    if s.playback.trimmed == 0 {
      AloneChunk(s0, s, n);
    }
  }

  /** With the trim done, the first chunk begins. */
  lemma AloneChunk(s0: State, s: State, n: nat)
    requires s.ring == Newest(s0.ring, n) && s.trimmed == s0.trimmed + |s0.ring| - |s.ring|
    requires s.handed == s0.handed && s.missing == s0.missing
    ensures AloneInv(s0, s.(playback := NextChunk(n, 0)), n)
  {
    NothingServed(s0.handed, s.ring, n);
    assert HandedSoFar(s0, s, n, 0);
  }

  lemma NothingServed(handed: seq<Handed>, kept: seq<nat>, n: nat)
    ensures kept[0..] == kept && handed + Served(kept, n)[..0] == handed
  {
  }

  lemma AloneFill(s0: State, s: State, n: nat)
    requires AloneInv(s0, s, n) && s.playback.Filling?
    ensures AloneInv(s0, StepPlayback(s), n)
  {
    var kept, done := Newest(s0.ring, n), s.playback.done;
    if s.playback.left > 0 {
      var served := Served(kept, n);
      assert served[..done + 1] == served[..done] + [served[done]];
      Regroup(s0.handed, served[..done], [served[done]]);
    }
  }

  lemma AloneCount(s0: State, s: State, n: nat)
    requires AloneInv(s0, s, n) && !s.playback.Silent? && !s.playback.Trimming? && !s.playback.Filling?
    ensures AloneInv(s0, StepPlayback(s), n)
  {
    NothingServed(s0.handed, Newest(s0.ring, n), n);
  }

  lemma AloneStep(s0: State, s: State, n: nat)
    requires AloneInv(s0, s, n) && !s.playback.Silent?
    ensures AloneInv(s0, StepPlayback(s), n)
  {
    if s.playback.Trimming? {
      if s.playback.left > 0 {
        AloneTrimPop(s0, s, n);
      } else {
        AloneTrimEnd(s0, s, n);
      }
    } else if s.playback.Filling? {
      AloneFill(s0, s, n);
    } else {
      AloneCount(s0, s, n);
    }
  }

  lemma {:induction false} AloneRuns(s0: State, s: State, n: nat, acts: seq<Action>)
    requires AloneInv(s0, s, n) && Runs(s, acts) && forall a | a in acts :: a.PlaybackStep?
    ensures AloneInv(s0, Exec(s, acts), n)
    decreases |acts|
  {
    if acts != [] {
      assert acts[0].PlaybackStep?;
      AloneStep(s0, s, n);
      AloneRuns(s0, Apply(s, acts[0]), n, acts[1..]);
    }
  }

  /** A callback of `n` frames with no capture in between keeps the newest `n` frames queued, hands
      them over in order and then silence, and counts what it discarded and what was missing. */
  lemma CallbackAlone(s: State, samples: nat, acts: seq<Action>)
    requires s.playback.Silent? && s.outChannels > 0
    requires Runs(s, [PlaybackStart(samples)] + acts) && forall a | a in acts :: a.PlaybackStep?
    requires Exec(s, [PlaybackStart(samples)] + acts).playback.Silent?
    ensures var n, t := samples / s.outChannels, Exec(s, [PlaybackStart(samples)] + acts);
      var kept := Newest(s.ring, n);
      && t.handed == s.handed + Served(kept, n) && t.ring == []
      && t.trimmed == s.trimmed + |s.ring| - |kept|
      && t.missing == s.missing + n - |kept|
  {
    var n := samples / s.outChannels;
    assert ([PlaybackStart(samples)] + acts)[1..] == acts;
    AloneRuns(s, Apply(s, PlaybackStart(samples)), n, acts);
    assert Served(Newest(s.ring, n), n)[..n] == Served(Newest(s.ring, n), n);
  }

  /** Which steps of its callback remain: frames first, then the step within a frame. */
  function FramesLeft(p: Playback): nat {
    match p
    case Trimming(frames, _, _) => frames + 1
    case Trimmed(frames, _) => frames + 1
    case Overrun(frames, _) => frames + 1
    case Filling(frames, done, _, _) => if done <= frames then frames - done else 0
    case Missed(frames, done, _) => if done <= frames then frames - done else 0
    case Underrun(frames, done, _) => if done <= frames then frames - done else 0
    case _ => 0
  }

  function StepsLeft(p: Playback): nat {
    match p
    case Trimming(_, left, _) => left + 3
    case Trimmed(_, _) => 2
    case Overrun(_, _) => 1
    case Filling(_, _, left, _) => if left > 0 then 1 else 4
    case Missed(_, _, _) => 3
    case Underrun(_, _, _) => 2
    case Finished(_) => 1
    case Silent => 0
  }

  lemma StepsShrink(s0: State, s: State, n: nat)
    requires AloneInv(s0, s, n) && !s.playback.Silent?
    ensures var p, q := s.playback, StepPlayback(s).playback;
      FramesLeft(q) < FramesLeft(p) || (FramesLeft(q) == FramesLeft(p) && StepsLeft(q) < StepsLeft(p))
  {
  }

  lemma {:induction false} CallbackFinishes(s0: State, s: State, n: nat) returns (acts: seq<Action>)
    requires AloneInv(s0, s, n)
    ensures Runs(s, acts) && Exec(s, acts).playback.Silent? && forall a | a in acts :: a.PlaybackStep?
    decreases FramesLeft(s.playback), StepsLeft(s.playback)
  {
    if s.playback.Silent? {
      return [];
    }
    AloneStep(s0, s, n);
    StepsShrink(s0, s, n);
    var rest := CallbackFinishes(s0, StepPlayback(s), n);
    RunCons(s, PlaybackStep, rest);
    acts := [PlaybackStep] + rest;
  }

  /** Every callback can be completed by its own steps. */
  lemma CallbackCompletes(s: State, samples: nat) returns (acts: seq<Action>)
    requires s.playback.Silent? && s.outChannels > 0
    ensures Runs(s, [PlaybackStart(samples)] + acts) && forall a | a in acts :: a.PlaybackStep?
    ensures Exec(s, [PlaybackStart(samples)] + acts).playback.Silent?
  {
    var t := Apply(s, PlaybackStart(samples));
    acts := CallbackFinishes(s, t, samples / s.outChannels);
    RunCons(s, PlaybackStart(samples), acts);
  }

  /** The frames numbered from `from` to below `to`. */
  function Numbered(from: nat, to: nat): seq<nat>
    requires from <= to
  {
    seq(to - from, i requires 0 <= i => from + i)
  }

  ghost predicate CapturedSoFar(s0: State, s: State, n: nat, left: nat, failed: nat) {
    && left <= n && |s0.ring| <= s0.capacity && s.capacity == s0.capacity && s.inChannels == s0.inChannels
    && s.seen == s0.seen + (n - left) && failed <= n - left
    && s.ring == s0.ring + Numbered(s0.seen, s0.seen + (n - left - failed))
    && (failed > 0 ==> |s.ring| == s.capacity)
    && |s.ring| <= s.capacity
  }

  ghost predicate CaptureAloneInv(s0: State, s: State, n: nat) {
    match s.capture
    case Counted(frames) => frames == n && CapturedSoFar(s0, s, n, n, 0) && s.overruns == s0.overruns
    case Pushing(left, failed) => CapturedSoFar(s0, s, n, left, failed) && s.overruns == s0.overruns
    case Losing(failed) => CapturedSoFar(s0, s, n, 0, failed) && s.overruns == s0.overruns
    case Quiet => s.overruns >= s0.overruns && CapturedSoFar(s0, s, n, 0, s.overruns - s0.overruns)
  }

  lemma CaptureAloneStep(s0: State, s: State, n: nat)
    requires CaptureAloneInv(s0, s, n) && !s.capture.Quiet? && s.inChannels > 0
    ensures CaptureAloneInv(s0, StepCapture(s), n)
  {
    if s.capture.Pushing? && s.capture.left > 0 && |s.ring| < s.capacity {
      var k := s0.seen + (n - s.capture.left);
      assert Numbered(s0.seen, k + 1) == Numbered(s0.seen, k) + [k];
      Regroup(s0.ring, Numbered(s0.seen, k), [k]);
    }
  }

  lemma {:induction false} CaptureAloneRuns(s0: State, s: State, n: nat, acts: seq<Action>)
    requires CaptureAloneInv(s0, s, n) && s.inChannels > 0 && Runs(s, acts) && forall a | a in acts :: a.CaptureStep?
    ensures CaptureAloneInv(s0, Exec(s, acts), n)
    decreases |acts|
  {
    if acts != [] {
      assert acts[0].CaptureStep?;
      CaptureAloneStep(s0, s, n);
      CaptureAloneRuns(s0, Apply(s, acts[0]), n, acts[1..]);
    }
  }

  /** A capture callback of `n` frames with no playback in between queues as many of them as there
      is room for, the first ones, and counts the others as overruns. */
  lemma CaptureAlone(s: State, samples: nat, acts: seq<Action>)
    requires s.capture.Quiet? && s.inChannels > 0 && |s.ring| <= s.capacity
    requires Runs(s, [CaptureStart(samples)] + acts) && forall a | a in acts :: a.CaptureStep?
    requires Exec(s, [CaptureStart(samples)] + acts).capture.Quiet?
    ensures var n, t := samples / s.inChannels, Exec(s, [CaptureStart(samples)] + acts);
      var room: nat := Min(n, s.capacity - |s.ring|);
      && t.ring == s.ring + Numbered(s.seen, s.seen + room)
      && t.overruns == s.overruns + (n - room) && t.seen == s.seen + n
  {
    assert ([CaptureStart(samples)] + acts)[1..] == acts;
    assert s.ring + Numbered(s.seen, s.seen) == s.ring;
    CaptureAloneRuns(s, Apply(s, CaptureStart(samples)), samples / s.inChannels, acts);
  }

  function CaptureLeft(c: Capture): nat {
    match c
    case Counted(n) => n + 3
    case Pushing(left, _) => left + 2
    case Losing(_) => 1
    case Quiet => 0
  }

  lemma {:induction false} CaptureFinishes(s: State) returns (acts: seq<Action>)
    ensures Runs(s, acts) && Exec(s, acts).capture.Quiet? && forall a | a in acts :: a.CaptureStep?
    decreases CaptureLeft(s.capture)
  {
    if s.capture.Quiet? {
      return [];
    }
    var rest := CaptureFinishes(StepCapture(s));
    RunCons(s, CaptureStep, rest);
    acts := [CaptureStep] + rest;
  }

  /** Every capture callback can begin when none runs and be completed by its own steps. */
  lemma CaptureCompletes(s: State, samples: nat) returns (acts: seq<Action>)
    requires s.capture.Quiet?
    ensures Runs(s, [CaptureStart(samples)] + acts) && forall a | a in acts :: a.CaptureStep?
    ensures Exec(s, [CaptureStart(samples)] + acts).capture.Quiet?
  {
    acts := CaptureFinishes(Apply(s, CaptureStart(samples)));
    RunCons(s, CaptureStart(samples), acts);
  }

  /** An activation begins with an empty ring of the new size and the new channels: the first
      capture callback fills it and the first playback callback hears the newest of that. */
  lemma ActivationStartsEmpty(s: State, capacity: nat, inChannels: nat, outChannels: nat, samples: nat, acts: seq<Action>)
    requires s.capture.Quiet? && s.playback.Silent? && inChannels > 0
    requires Runs(s, [Reactivate(capacity, inChannels, outChannels)] + ([CaptureStart(samples)] + acts))
    requires forall a | a in acts :: a.CaptureStep?
    requires Exec(s, [Reactivate(capacity, inChannels, outChannels)] + ([CaptureStart(samples)] + acts)).capture.Quiet?
    ensures var t := Exec(s, [Reactivate(capacity, inChannels, outChannels)] + ([CaptureStart(samples)] + acts));
      var n := samples / inChannels;
      && t.ring == Numbered(s.seen, s.seen + Min(n, capacity)) && t.outChannels == outChannels
      && t.overruns == s.overruns + Max(n - capacity, 0) && t.abandoned == s.abandoned + |s.ring|
  {
    var start := Reactivate(capacity, inChannels, outChannels);
    var u := Apply(s, start);
    assert ([start] + ([CaptureStart(samples)] + acts))[1..] == [CaptureStart(samples)] + acts;
    CaptureAlone(u, samples, acts);
    KeepsOutput(u, [CaptureStart(samples)] + acts);
    assert [] + Numbered(s.seen, s.seen + Min(samples / inChannels, capacity)) == Numbered(s.seen, s.seen + Min(samples / inChannels, capacity));
  }

  lemma {:induction false} KeepsOutput(s: State, acts: seq<Action>)
    requires Runs(s, acts) && forall a | a in acts :: a.CaptureStart? || a.CaptureStep?
    ensures Exec(s, acts).outChannels == s.outChannels && Exec(s, acts).abandoned == s.abandoned
    decreases |acts|
  {
    if acts != [] {
      assert acts[0] in acts;
      KeepsOutput(Apply(s, acts[0]), acts[1..]);
    }
  }
}
