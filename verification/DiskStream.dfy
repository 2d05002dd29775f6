/** The disk streamer: an audio callback that pushes PCM blocks, an encode thread that writes
    them, and a control thread that asks it to stop.  The pool of blocks travels
    free -> callback -> ring -> encoder -> recycle ring -> free.

    `Stream` is the state of one generation; one `Action` is one atomic operation.  Blocks that
    carry no audio are interchangeable and are counted; a block in the ring is its frames. */
module DiskStream {

  import opened Util

  const POOL_BLOCKS: nat := 128

  type Word = int
  type Frame = (Word, Word)
  type Block = seq<Frame>

  datatype Status = Idle | Writing | StopPending | Error

  /** The encode thread's program counter. */
  datatype Encoder =
    | Opening                                  // about to create the file
    | Setup                                    // file created, encoder not yet open
    | Looping                                  // about to load the status
    | Popping(stopping: bool)                  // about to pop the ring
    | Holding(block: Block, stopping: bool)    // about to write a block
    | Returning(stopping: bool, failed: bool)  // written, about to recycle the block
    | Closing                                  // ring seen empty after a stop
    | Exiting(failed: bool)                    // about to store the final status
    | Done(failed: bool)

  /** Where the callback is in `push_audio`. */
  datatype Callback =
    | Resting
    | Entered                  // has seen WRITING, about to check shapes and size
    | Recycling(frames: nat)   // about to pop the recycle ring
    | Taking(frames: nat)      // done recycling, about to take a free block
    | Filled(frames: nat)      // about to push the block it took
    | Leaving                  // the push is decided, about to return

  datatype Stream = Stream(
    blockFrames: nat, status: Status,
    free: nat, callback: Callback, ring: seq<Block>, recycled: nat,
    encoder: Encoder, overruns: nat, lost: nat,
    onDisk: bool,           // the file this generation created is there
    cleanStop: bool,        // the stop was requested while no push was in flight
    accepted: seq<Block>, written: Block)

  /** What the file layer answers to one encoder operation: everything worked, or it failed
      after `frames` frames had reached the file (a short write counts as a failure). */
  datatype Disk = Works | Fails(frames: nat)

  datatype Action =
    | Load                  // callback: load the status
    | Check(fits: bool, frames: nat)  // callback: slices fit each other, frames fit a free block
    | Recycle               // callback: recycled.pop(), onto the free list
    | Take                  // callback: free.pop()
    | Push(block: Block)    // callback: producer.push
    | Return                // callback: leave push_audio
    | Encode(disk: Disk)    // encode thread: one step
    | RequestStop           // control: compare-exchange WRITING -> STOP_PENDING
    | FinalStore            // control: finalize stores IDLE after the join

  function Initial(blockFrames: nat): Stream {
    Stream(blockFrames, Writing, POOL_BLOCKS, Resting, [], 0, Opening, 0, 0, false, false, [], [])
  }

  predicate OfCallback(a: Action) {
    a.Load? || a.Check? || a.Recycle? || a.Take? || a.Push? || a.Return?
  }

  predicate Enabled(s: Stream, a: Action) {
    match a
    case Load => s.callback.Resting?
    case Check(_, _) => s.callback.Entered?
    case Recycle => s.callback.Recycling?
    case Take => s.callback.Taking?
    case Push(b) => s.callback.Filled? && |b| == s.callback.frames
    case Return => s.callback.Leaving?
    case Encode(_) => !s.encoder.Done?
    case RequestStop => true
    case FinalStore => s.encoder.Done?
  }

  function StepEncoder(s: Stream, disk: Disk): Stream
    requires !s.encoder.Done?
  {
    match s.encoder
    case Opening =>
      if disk.Works? then s.(encoder := Setup, onDisk := true) else s.(status := Error, encoder := Done(true))
    case Setup => s.(encoder := if disk.Works? then Looping else Exiting(true))
    case Looping =>
      s.(encoder := if s.status.StopPending? then Popping(true)
                    else if s.status.Error? then Exiting(true) else Popping(false))
    case Popping(stopping) =>
      if s.ring != [] then s.(encoder := Holding(s.ring[0], stopping), ring := s.ring[1..])
      else s.(encoder := if stopping then Closing else Looping)
    case Holding(block, stopping) =>
      if disk.Works? then s.(written := s.written + block, encoder := Returning(stopping, false))
      else s.(written := s.written + block[..Min(disk.frames, |block|)], encoder := Returning(stopping, true))
    case Returning(stopping, failed) =>
      var next := if failed then Exiting(true) else if stopping then Popping(true) else Looping;
      if s.recycled < POOL_BLOCKS then s.(recycled := s.recycled + 1, encoder := next)
      else s.(lost := s.lost + 1, encoder := next)
    case Closing => s.(encoder := Exiting(disk.Fails?))
    case Exiting(failed) =>
      // After a failure the file is removed first, if that works.
      if failed then s.(status := Error, onDisk := s.onDisk && !disk.Works?, encoder := Done(true))
      else s.(status := Idle, encoder := Done(false))
  }

  /** The frames the first free block takes; none without a free block. */
  function Room(s: Stream): nat {
    if s.free == 0 then 0 else s.blockFrames
  }

  /** A push that can still add frames: it holds a block for some, or will find one. */
  predicate InFlight(s: Stream) {
    match s.callback
    case Entered => Room(s) > 0
    case Recycling(frames) => frames > 0
    case Taking(frames) => frames > 0
    case Filled(frames) => frames > 0
    case _ => false
  }

  function Apply(s: Stream, a: Action): Stream
    requires Enabled(s, a)
  {
    match a
    case Load => s.(callback := if s.status.Writing? then Entered else Resting)
    case Check(fits, frames) =>
      // The free list is looked at before the recycle ring is drained.
      if fits && frames <= Room(s) then s.(callback := Recycling(frames))
      else s.(overruns := s.overruns + 1, callback := Leaving)
    case Recycle =>
      if s.free < POOL_BLOCKS && s.recycled > 0 then s.(recycled := s.recycled - 1, free := s.free + 1)
      else s.(callback := Taking(s.callback.frames))
    case Take =>
      if s.free > 0 then s.(free := s.free - 1, callback := Filled(s.callback.frames))
      else s.(overruns := s.overruns + 1, callback := Leaving)
    case Push(b) =>
      // A full ring hands the block back to the free list.
      if |s.ring| < POOL_BLOCKS then s.(callback := Leaving, ring := s.ring + [b], accepted := s.accepted + [b])
      else s.(callback := Leaving, free := s.free + 1, overruns := s.overruns + 1)
    case Return => s.(callback := Resting)
    case Encode(disk) => StepEncoder(s, disk)
    case RequestStop =>
      if s.status.Writing? then s.(status := StopPending, cleanStop := !InFlight(s)) else s
    case FinalStore => s.(status := Idle)
  }

  predicate Runs(s: Stream, acts: seq<Action>)
    decreases |acts|
  {
    acts == [] || (Enabled(s, acts[0]) && Runs(Apply(s, acts[0]), acts[1..]))
  }

  function Exec(s: Stream, acts: seq<Action>): Stream
    requires Runs(s, acts)
    decreases |acts|
  {
    if acts == [] then s else Exec(Apply(s, acts[0]), acts[1..])
  }

  // ---- Invariants ----

  function InEncoder(s: Stream): nat {
    if s.encoder.Holding? || s.encoder.Returning? then 1 else 0
  }

  function Held(s: Stream): nat {
    if s.callback.Filled? then 1 else 0
  }

  ghost predicate PoolInv(s: Stream) {
    && s.free + Held(s) + |s.ring| + InEncoder(s) + s.recycled == POOL_BLOCKS
    && s.lost == 0
    && (s.callback.Recycling? || s.callback.Taking? ==> s.callback.frames <= Room(s))
  }

  ghost predicate Broken(e: Encoder) {
    (e.Returning? && e.failed) || (e.Exiting? && e.failed) || (e.Done? && e.failed)
  }

  function InHand(e: Encoder): Block {
    if e.Holding? then e.block else []
  }

  /** Nothing is lost or reordered between the callback and the file, up to a failure. */
  ghost predicate DataInv(s: Stream) {
    if Broken(s.encoder) then s.written <= Concat(s.accepted)
    else s.written + InHand(s.encoder) + Concat(s.ring) == Concat(s.accepted)
  }

  ghost predicate StopInv(s: Stream) {
    && (s.encoder.Opening? || s.encoder.Setup? ==> s.written == [])
    && (s.cleanStop ==> !s.status.Writing? && !InFlight(s))
    && (s.cleanStop && Drained(s.encoder) ==> Concat(s.ring) == [])
    && (Stopping(s.encoder) ==> !s.status.Writing? || Broken(s.encoder))
  }

  /** The encoder has found the ring empty after a stop, and nothing failed. */
  ghost predicate Drained(e: Encoder) {
    e.Closing? || (e.Exiting? && !e.failed) || (e.Done? && !e.failed)
  }

  ghost predicate Stopping(e: Encoder) {
    || (e.Popping? && e.stopping) || (e.Holding? && e.stopping) || (e.Returning? && e.stopping)
    || e.Closing? || e.Exiting? || e.Done?
  }

  ghost predicate Inv(s: Stream) {
    PoolInv(s) && DataInv(s) && StopInv(s)
  }

  lemma PoolStep(s: Stream, a: Action)
    requires PoolInv(s) && Enabled(s, a)
    ensures PoolInv(Apply(s, a))
  {
    if a.Encode? {
      PoolEncode(s, a.disk);
    }
  }

  lemma PoolEncode(s: Stream, disk: Disk)
    requires PoolInv(s) && !s.encoder.Done?
    ensures PoolInv(StepEncoder(s, disk))
  {
  }

  lemma StopStep(s: Stream, a: Action)
    requires PoolInv(s) && StopInv(s) && Enabled(s, a)
    ensures StopInv(Apply(s, a))
  {
    if a.Push? {
      ConcatSnoc(s.ring, a.block);
    } else if a.Encode? {
      StopEncode(s, a.disk);
    }
  }

  lemma StopEncode(s: Stream, disk: Disk)
    requires PoolInv(s) && StopInv(s) && !s.encoder.Done?
    ensures StopInv(StepEncoder(s, disk))
  {
  }

  lemma ConcatHead(bs: seq<Block>)
    requires bs != []
    ensures Concat(bs) == bs[0] + Concat(bs[1..])
  {
  }

  lemma PopData(s: Stream, disk: Disk)
    requires DataInv(s) && s.encoder.Popping? && s.ring != []
    ensures DataInv(StepEncoder(s, disk))
  {
    var w := s.written;
    ConcatHead(s.ring);
    assert w + [] + Concat(s.ring) == w + s.ring[0] + Concat(s.ring[1..]);
  }

  lemma WriteData(s: Stream, disk: Disk)
    requires DataInv(s) && s.encoder.Holding?
    ensures DataInv(StepEncoder(s, disk))
  {
    var w, b, r := s.written, s.encoder.block, Concat(s.ring);
    if disk.Fails? {
      var k := Min(disk.frames, |b|);
      assert w + b + r == (w + b[..k]) + (b[k..] + r);
    } else {
      assert (w + b) + [] + r == w + b + r;
    }
  }

  lemma EncodeData(s: Stream, disk: Disk)
    requires DataInv(s) && !s.encoder.Done?
    ensures DataInv(StepEncoder(s, disk))
  {
    if s.encoder.Popping? && s.ring != [] {
      PopData(s, disk);
    } else if s.encoder.Holding? {
      WriteData(s, disk);
    } else if !Broken(s.encoder) {
      var w, r := s.written, Concat(s.ring);
      assert w <= w + [] + r;
    }
  }

  lemma PushData(s: Stream, b: Block)
    requires DataInv(s) && Enabled(s, Push(b))
    ensures DataInv(Apply(s, Push(b)))
  {
    ConcatSnoc(s.ring, b);
    ConcatSnoc(s.accepted, b);
    var w := s.written + InHand(s.encoder);
    assert w + (Concat(s.ring) + b) == w + Concat(s.ring) + b;
  }

  lemma InvStep(s: Stream, a: Action)
    requires Inv(s) && Enabled(s, a)
    ensures Inv(Apply(s, a))
  {
    PoolStep(s, a);
    StopStep(s, a);
    if a.Encode? {
      EncodeData(s, a.disk);
    } else if a.Push? {
      PushData(s, a.block);
    }
  }

  lemma {:induction false} InvRuns(s: Stream, acts: seq<Action>)
    requires Inv(s) && Runs(s, acts)
    ensures Inv(Exec(s, acts))
    decreases |acts|
  {
    if acts != [] {
      InvStep(s, acts[0]);
      InvRuns(Apply(s, acts[0]), acts[1..]);
    }
  }

  // ---- Theorems over every run ----

  /** The pool is conserved, so the two "cannot happen" branches never run: no block is lost on
      its way back, and a callback holding a block always finds room in the ring. */
  lemma PoolConserved(blockFrames: nat, acts: seq<Action>)
    requires Runs(Initial(blockFrames), acts)
    ensures var s := Exec(Initial(blockFrames), acts);
      && s.free + Held(s) + |s.ring| + InEncoder(s) + s.recycled == POOL_BLOCKS
      && s.lost == 0
      && (s.callback.Filled? ==> |s.ring| < POOL_BLOCKS)
      && (s.encoder.Returning? ==> s.recycled < POOL_BLOCKS)
  {
    InvRuns(Initial(blockFrames), acts);
  }

  /** Whatever the disk does, the frames in the file are a prefix of the frames accepted. */
  lemma WrittenIsPrefix(blockFrames: nat, acts: seq<Action>)
    requires Runs(Initial(blockFrames), acts)
    ensures var s := Exec(Initial(blockFrames), acts); s.written <= Concat(s.accepted)
  {
    InvRuns(Initial(blockFrames), acts);
    var s := Exec(Initial(blockFrames), acts);
    if !Broken(s.encoder) {
      assert Concat(s.accepted) == s.written + (InHand(s.encoder) + Concat(s.ring));
    }
  }

  /** A write that fails after `k` frames leaves exactly those in the file. */
  lemma FailedWriteKeeps(blockFrames: nat, acts: seq<Action>, k: nat)
    requires Runs(Initial(blockFrames), acts) && Exec(Initial(blockFrames), acts).encoder.Holding?
    ensures var s := Exec(Initial(blockFrames), acts);
      var t := Apply(s, Encode(Fails(k)));
      && t.written <= Concat(t.accepted)
      && |t.written| == |s.written| + (if k < |s.encoder.block| then k else |s.encoder.block|)
  {
    var s := Exec(Initial(blockFrames), acts);
    InvRuns(Initial(blockFrames), acts);
    InvStep(s, Encode(Fails(k)));
  }

  /** If the encode thread finished without error and no push was in flight when the stop was
      requested, every accepted frame is in the file. */
  lemma CleanStopWritesAll(blockFrames: nat, acts: seq<Action>)
    requires Runs(Initial(blockFrames), acts)
    requires var s := Exec(Initial(blockFrames), acts); s.encoder == Done(false) && s.cleanStop
    ensures var s := Exec(Initial(blockFrames), acts); s.written == Concat(s.accepted)
  {
    InvRuns(Initial(blockFrames), acts);
    var s := Exec(Initial(blockFrames), acts);
    assert s.written + [] + [] == s.written;
  }

  lemma RunCons(s: Stream, a: Action, rest: seq<Action>)
    requires Enabled(s, a) && Runs(Apply(s, a), rest)
    ensures Runs(s, [a] + rest) && Exec(s, [a] + rest) == Exec(Apply(s, a), rest)
  {
    assert ([a] + rest)[1..] == rest;
  }

  // ---- When a stop writes everything ----

  lemma {:induction false} RunsConcat(s: Stream, a: seq<Action>, b: seq<Action>)
    requires Runs(s, a) && Runs(Exec(s, a), b)
    ensures Runs(s, a + b) && Exec(s, a + b) == Exec(Exec(s, a), b)
    decreases |a|
  {
    if a == [] {
      assert a + b == b;
    } else {
      assert (a + b)[1..] == a[1..] + b;
      RunsConcat(Apply(s, a[0]), a[1..], b);
    }
  }

  /** The encoder steps left, on a disk that works, until it has exited after a stop. */
  function StepsLeft(s: Stream): nat {
    var blocks := 3 * |s.ring|;
    match s.encoder
    case Opening => blocks + 6
    case Setup => blocks + 5
    case Looping => blocks + 4
    case Popping(stopping) => if stopping then blocks + 3 else blocks + 5
    case Holding(_, stopping) => if stopping then blocks + 5 else blocks + 6
    case Returning(stopping, _) => if stopping then blocks + 4 else blocks + 5
    case Closing => 2
    case Exiting(_) => 1
    case Done(_) => 0
  }

  lemma EncoderStep(s: Stream)
    requires !Broken(s.encoder) && s.status.StopPending? && !s.encoder.Done?
    ensures var t := StepEncoder(s, Works);
      && !Broken(t.encoder) && (t.status.StopPending? || t.encoder.Done?) && StepsLeft(t) < StepsLeft(s)
      && t.callback == s.callback && t.free == s.free && t.blockFrames == s.blockFrames
  {
  }

  /** After a stop a working encoder can run to its end while the callback waits. */
  lemma {:induction false} EncoderFinishes(s: Stream) returns (acts: seq<Action>)
    requires Inv(s) && !Broken(s.encoder) && (s.status.StopPending? || s.encoder.Done?)
    ensures Runs(s, acts)
    ensures var t := Exec(s, acts);
      && Inv(t) && t.encoder == Done(false)
      && t.callback == s.callback && t.free == s.free && t.blockFrames == s.blockFrames
    decreases StepsLeft(s)
  {
    if s.encoder.Done? {
      return [];
    }
    var next := Encode(Works);
    InvStep(s, next);
    EncoderStep(s);
    var rest := EncoderFinishes(Apply(s, next));
    RunCons(s, next, rest);
    acts := [next] + rest;
  }

  /** A push in flight can complete, and accepts frames. */
  lemma {:induction false} PushCompletes(s: Stream, f: Frame) returns (acts: seq<Action>)
    requires Inv(s) && InFlight(s)
    ensures Runs(s, acts)
    ensures var t := Exec(s, acts);
      t.encoder == s.encoder && t.written == s.written && |Concat(t.accepted)| > |Concat(s.accepted)|
    decreases match s.callback case Entered => 3 case Recycling(_) => 2 case Taking(_) => 1 case _ => 0,
              POOL_BLOCKS - s.free
  {
    if s.callback.Filled? {
      var b: Block := seq(s.callback.frames, _ => f);
      ConcatSnoc(s.accepted, b);
      RunCons(s, Push(b), []);
      acts := [Push(b)] + [];
    } else {
      var next := if s.callback.Entered? then Check(true, 1) else if s.callback.Recycling? then Recycle else Take;
      InvStep(s, next);
      var rest := PushCompletes(Apply(s, next), f);
      RunCons(s, next, rest);
      acts := [next] + rest;
    }
  }

  ghost predicate WritesAll(s: Stream) {
    s.written == Concat(s.accepted)
  }

  /** The run `after` is possible from `s` and ends with the encoder done and no error. */
  ghost predicate EndsClean(s: Stream, after: seq<Action>) {
    Runs(s, after) && Exec(s, after).encoder == Done(false)
  }

  lemma LossFollows(s: Stream, f: Frame) returns (after: seq<Action>)
    requires Inv(s) && s.status.Writing? && !Broken(s.encoder) && InFlight(s)
    ensures EndsClean(Apply(s, RequestStop), after) && !WritesAll(Exec(Apply(s, RequestStop), after))
  {
    var t := Apply(s, RequestStop);
    InvStep(s, RequestStop);
    var first := EncoderFinishes(t);
    var u := Exec(t, first);
    var second := PushCompletes(u, f);
    RunsConcat(t, first, second);
    assert u.written <= Concat(u.accepted);
    after := first + second;
  }

  /** Once broken, the encoder never ends without error. */
  lemma {:induction false} BrokenStays(s: Stream, acts: seq<Action>)
    requires Broken(s.encoder) && Runs(s, acts)
    ensures Broken(Exec(s, acts).encoder)
    decreases |acts|
  {
    if acts != [] {
      BrokenStays(Apply(s, acts[0]), acts[1..]);
    }
  }

  lemma BrokenNeverEndsClean(s: Stream, acts: seq<Action>)
    requires Broken(s.encoder)
    ensures !EndsClean(s, acts)
  {
    if Runs(s, acts) {
      BrokenStays(s, acts);
    }
  }

  lemma {:induction false} CleanStopStays(s: Stream, acts: seq<Action>)
    requires s.cleanStop && !s.status.Writing? && Runs(s, acts)
    ensures Exec(s, acts).cleanStop
    decreases |acts|
  {
    if acts != [] {
      CleanStopStays(Apply(s, acts[0]), acts[1..]);
    }
  }

  /** A stop requested in a reachable state is followed by the writing of every accepted frame,
      in every run that ends without error, if and only if no push was in flight there (or the
      encoder had already failed, so that no run ends without error). */
  lemma StopWritesAllIff(blockFrames: nat, before: seq<Action>)
    requires Runs(Initial(blockFrames), before) && Exec(Initial(blockFrames), before).status.Writing?
    ensures var s := Exec(Initial(blockFrames), before);
      (forall after | EndsClean(Apply(s, RequestStop), after) :: WritesAll(Exec(Apply(s, RequestStop), after)))
      <==> !InFlight(s) || Broken(s.encoder)
  {
    var s := Exec(Initial(blockFrames), before);
    InvRuns(Initial(blockFrames), before);
    var t := Apply(s, RequestStop);
    InvStep(s, RequestStop);
    if Broken(s.encoder) {
      forall after
        ensures !EndsClean(t, after)
      {
        BrokenNeverEndsClean(t, after);
      }
    } else if InFlight(s) {
      var after := LossFollows(s, (0, 0));
    } else {
      forall after | EndsClean(t, after)
        ensures WritesAll(Exec(t, after))
      {
        CleanStopStays(t, after);
        InvRuns(t, after);
        DrainedWritesAll(Exec(t, after));
      }
    }
  }

  lemma DrainedWritesAll(s: Stream)
    requires Inv(s) && s.cleanStop && s.encoder == Done(false)
    ensures WritesAll(s)
  {
    assert s.written + [] + [] == s.written;
  }

  /** Such a run exists from the start: a callback that has seen WRITING is overtaken by a stop. */
  lemma LatePushIsLost(f: Frame) returns (acts: seq<Action>)
    ensures EndsClean(Initial(1), acts) && !WritesAll(Exec(Initial(1), acts))
  {
    var s := Initial(1).(callback := Entered);
    var after := LossFollows(s, f);
    RunCons(s, RequestStop, after);
    RunCons(Initial(1), Load, [RequestStop] + after);
    acts := [Load] + ([RequestStop] + after);
  }

  /** The pool can run out: every block pushed and none recycled. */
  lemma {:induction false} PoolRunsOut(s: Stream, b: Block) returns (acts: seq<Action>)
    requires Inv(s) && s.status.Writing? && s.callback.Resting? && s.recycled == 0 && |b| <= s.blockFrames
    ensures Runs(s, acts)
    ensures var t := Exec(s, acts); t.free == 0 && t.callback.Resting? && t.status.Writing?
    decreases s.free
  {
    if s.free == 0 {
      return [];
    }
    var push := [Load, Check(true, |b|), Recycle, Take, Push(b), Return];
    OnePush(s, b);
    InvRuns(s, push);
    var rest := PoolRunsOut(Exec(s, push), b);
    RunsConcat(s, push, rest);
    acts := push + rest;
  }

  lemma OnePush(s: Stream, b: Block)
    requires Inv(s) && s.status.Writing? && s.callback.Resting? && s.recycled == 0 && s.free > 0
    requires |b| <= s.blockFrames
    ensures var push := [Load, Check(true, |b|), Recycle, Take, Push(b), Return];
      Runs(s, push) && Exec(s, push) == s.(free := s.free - 1, ring := s.ring + [b], accepted := s.accepted + [b])
  {
    var s1 := s.(callback := Entered);
    var s2 := s.(callback := Recycling(|b|));
    var s3 := s.(callback := Taking(|b|));
    var s4 := s.(free := s.free - 1, callback := Filled(|b|));
    var s6 := s.(free := s.free - 1, ring := s.ring + [b], accepted := s.accepted + [b]);
    var s5 := s6.(callback := Leaving);
    RunCons(s5, Return, []);
    RunCons(s4, Push(b), [Return] + []);
    RunCons(s3, Take, [Push(b)] + ([Return] + []));
    RunCons(s2, Recycle, [Take] + ([Push(b)] + ([Return] + [])));
    RunCons(s1, Check(true, |b|), [Recycle] + ([Take] + ([Push(b)] + ([Return] + []))));
    RunCons(s, Load, [Check(true, |b|)] + ([Recycle] + ([Take] + ([Push(b)] + ([Return] + [])))));
    assert [Load, Check(true, |b|), Recycle, Take, Push(b), Return]
        == [Load] + ([Check(true, |b|)] + ([Recycle] + ([Take] + ([Push(b)] + ([Return] + [])))));
  }

  lemma ExhaustionIsReachable(b: Block) returns (acts: seq<Action>)
    ensures Runs(Initial(|b|), acts)
    ensures var t := Exec(Initial(|b|), acts); t.free == 0 && t.callback.Resting? && t.status.Writing?
  {
    acts := PoolRunsOut(Initial(|b|), b);
  }

  // ---- How it ends ----

  /** A step in which the file layer fails and the encoder has to give up. */
  predicate FailingStep(s: Stream, a: Action) {
    a.Encode? && a.disk.Fails? && (s.encoder.Opening? || s.encoder.Setup? || s.encoder.Holding? || s.encoder.Closing?)
  }

  predicate SawFailure(s: Stream, acts: seq<Action>)
    requires Runs(s, acts)
    decreases |acts|
  {
    acts != [] && (FailingStep(s, acts[0]) || SawFailure(Apply(s, acts[0]), acts[1..]))
  }

  ghost predicate OutcomeInv(s: Stream) {
    && (s.status.Error? ==> s.encoder == Done(true))
    && (s.encoder == Done(true) ==> s.status.Error? || s.status.Idle?)
    && (s.encoder == Done(false) ==> s.status.Idle?)
    && (s.status.Idle? ==> s.encoder.Done?)
    && (s.onDisk <==> !s.encoder.Opening? && !(s.encoder.Done? && s.encoder.failed && !s.onDisk))
  }

  lemma OutcomeStep(s: Stream, a: Action)
    requires OutcomeInv(s) && Enabled(s, a)
    ensures OutcomeInv(Apply(s, a))
    ensures Broken(Apply(s, a).encoder) <==> Broken(s.encoder) || FailingStep(s, a)
  {
  }

  lemma {:induction false} OutcomeRuns(s: Stream, acts: seq<Action>)
    requires OutcomeInv(s) && Runs(s, acts)
    ensures OutcomeInv(Exec(s, acts))
    ensures Broken(Exec(s, acts).encoder) <==> Broken(s.encoder) || SawFailure(s, acts)
    decreases |acts|
  {
    if acts != [] {
      OutcomeStep(s, acts[0]);
      OutcomeRuns(Apply(s, acts[0]), acts[1..]);
    }
  }

  /** The encode thread ends in error if and only if an operation that it depends on failed.  Then
      the status says so until the stream is finalized; otherwise it is idle and the file is there.
      No other thread ever sets the error status. */
  lemma EndsInErrorIff(blockFrames: nat, acts: seq<Action>)
    requires Runs(Initial(blockFrames), acts)
    ensures var s := Exec(Initial(blockFrames), acts);
      && (s.encoder.Done? ==> (s.encoder.failed <==> SawFailure(Initial(blockFrames), acts)))
      && (s.status.Error? ==> s.encoder == Done(true))
      && (s.encoder == Done(true) ==> s.status.Error? || s.status.Idle?)
      && (s.encoder == Done(false) ==> s.status.Idle? && s.onDisk)
      && (s.encoder.Done? ==> Apply(s, FinalStore).status.Idle?)
  {
    OutcomeRuns(Initial(blockFrames), acts);
  }

  /** A failure is reported as soon as the thread has ended, and the file is gone if it was never
      created or could be removed. */
  lemma ErrorIsReported(blockFrames: nat, acts: seq<Action>, disk: Disk)
    requires Runs(Initial(blockFrames), acts) && SawFailure(Initial(blockFrames), acts)
    requires !Exec(Initial(blockFrames), acts).encoder.Done?
    ensures var s := Exec(Initial(blockFrames), acts);
      s.encoder.Exiting? ==>
        Apply(s, Encode(disk)).status.Error? && (Apply(s, Encode(disk)).onDisk <==> disk.Fails?)
  {
    OutcomeRuns(Initial(blockFrames), acts);
  }

  // ---- Streaming without end ----

  /** Between pushes, with the encoder up to date. */
  ghost predicate UpToDate(s: Stream) {
    && Inv(s) && s.status.Writing? && s.callback.Resting? && s.ring == [] && s.encoder == Looping && s.free > 0
  }

  /** One push, with all that was recycled taken back first. */
  lemma {:induction false} RecyclesAll(s: Stream, b: Block) returns (acts: seq<Action>)
    requires Inv(s) && s.status.Writing? && s.callback == Recycling(|b|) && s.ring == [] && s.encoder == Looping && s.free > 0
    ensures Runs(s, acts)
    ensures var t := Exec(s, acts);
      && Inv(t) && t.status.Writing? && t.callback == Leaving && t.ring == [b] && t.encoder == Looping
      && t.recycled == 0 && t.free + 1 == s.free + s.recycled && t.accepted == s.accepted + [b] && t.overruns == s.overruns
      && t.written == s.written && t.blockFrames == s.blockFrames
    decreases s.recycled
  {
    if s.recycled > 0 {
      InvStep(s, Recycle);
      var rest := RecyclesAll(Apply(s, Recycle), b);
      RunCons(s, Recycle, rest);
      acts := [Recycle] + rest;
    } else {
      acts := TakesAndPushes(s, b);
    }
  }

  lemma TakesAndPushes(s: Stream, b: Block) returns (acts: seq<Action>)
    requires Inv(s) && s.status.Writing? && s.callback == Recycling(|b|) && s.ring == [] && s.encoder == Looping && s.free > 0
    requires s.recycled == 0
    ensures Runs(s, acts)
    ensures Inv(Exec(s, acts)) && Exec(s, acts) == s.(callback := Leaving, free := s.free - 1, ring := [b], accepted := s.accepted + [b])
  {
    var s3 := s.(callback := Taking(|b|));
    var s4 := s.(callback := Filled(|b|), free := s.free - 1);
    assert [] + [b] == [b];
    RunCons(s4, Push(b), []);
    RunCons(s3, Take, [Push(b)] + []);
    acts := [Recycle] + ([Take] + ([Push(b)] + []));
    RunCons(s, Recycle, [Take] + ([Push(b)] + []));
    InvRuns(s, acts);
  }

  /** The encoder pops, writes and returns the one block queued. */
  lemma EncodesOne(s: Stream, b: Block)
    requires Inv(s) && s.status.Writing? && s.callback == Leaving && s.ring == [b] && s.encoder == Looping
    requires s.recycled == 0
    ensures var acts := [Return] + ([Encode(Works)] + ([Encode(Works)] + ([Encode(Works)] + ([Encode(Works)] + []))));
      && Runs(s, acts)
      && Exec(s, acts) == s.(callback := Resting, ring := [], written := s.written + b, recycled := 1)
  {
    var s1 := s.(callback := Resting);
    var s2 := s1.(encoder := Popping(false));
    var s3 := s1.(encoder := Holding(b, false), ring := []);
    var s4 := s1.(encoder := Returning(false, false), ring := [], written := s.written + b);
    var w := Encode(Works);
    RunCons(s4, w, []);
    RunCons(s3, w, [w] + []);
    RunCons(s2, w, [w] + ([w] + []));
    RunCons(s1, w, [w] + ([w] + ([w] + [])));
    RunCons(s, Return, [w] + ([w] + ([w] + ([w] + []))));
  }

  lemma StreamsOne(s: Stream, b: Block) returns (acts: seq<Action>)
    requires UpToDate(s) && |b| <= s.blockFrames
    ensures Runs(s, acts)
    ensures var t := Exec(s, acts);
      && UpToDate(t) && t.blockFrames == s.blockFrames && t.accepted == s.accepted + [b] && t.written == s.written + b
      && t.overruns == s.overruns
  {
    var s1 := s.(callback := Entered);
    var s2 := s.(callback := Recycling(|b|));
    InvStep(s, Load);
    InvStep(s1, Check(true, |b|));
    var push := RecyclesAll(s2, b);
    var u := Exec(s2, push);
    EncodesOne(u, b);
    var w := Encode(Works);
    var encode := [Return] + ([w] + ([w] + ([w] + ([w] + []))));
    InvRuns(u, encode);
    RunsConcat(s2, push, encode);
    RunCons(s1, Check(true, |b|), push + encode);
    RunCons(s, Load, [Check(true, |b|)] + (push + encode));
    acts := [Load] + ([Check(true, |b|)] + (push + encode));
  }

  /** With an encoder that keeps up, any number of blocks of any contents can be pushed, far more
      than the pool holds: all are accepted and written, and nothing is dropped. */
  lemma {:induction false} StreamsForever(s: Stream, bs: seq<Block>) returns (acts: seq<Action>)
    requires UpToDate(s) && forall b | b in bs :: |b| <= s.blockFrames
    ensures Runs(s, acts)
    ensures var t := Exec(s, acts);
      && UpToDate(t) && t.accepted == s.accepted + bs && t.written == s.written + Concat(bs) && t.overruns == s.overruns
    decreases |bs|
  {
    if bs == [] {
      assert s.accepted + bs == s.accepted && s.written + [] == s.written;
      return [];
    }
    var first := StreamsOne(s, bs[0]);
    var rest := StreamsForever(Exec(s, first), bs[1..]);
    RunsConcat(s, first, rest);
    acts := first + rest;
    assert s.accepted + [bs[0]] + bs[1..] == s.accepted + bs;
    Regroup(s.written, bs[0], Concat(bs[1..]));
  }

  /** In particular from the start, once the file is open. */
  lemma StreamsFromStart(blockFrames: nat, bs: seq<Block>) returns (acts: seq<Action>)
    requires forall b | b in bs :: |b| <= blockFrames
    ensures Runs(Initial(blockFrames), acts)
    ensures var t := Exec(Initial(blockFrames), acts);
      t.accepted == bs && t.written == Concat(bs) && t.overruns == 0 && t.onDisk
  {
    var s, w := Initial(blockFrames), Encode(Works);
    var s1 := s.(encoder := Setup, onDisk := true);
    var s2 := s1.(encoder := Looping);
    InvStep(s, w);
    InvStep(s1, w);
    var rest := StreamsForever(s2, bs);
    RunCons(s1, w, rest);
    RunCons(s, w, [w] + rest);
    acts := [w] + ([w] + rest);
    OutcomeRuns(s, acts);
    var t := Exec(s, acts);
    assert [] + bs == bs && [] + Concat(bs) == Concat(bs);
  }

  // ---- push_audio, with the other threads running between its operations ----

  ghost predicate OthersRan(s: Stream, t: Stream) {
    exists acts :: Runs(s, acts) && Exec(s, acts) == t && forall a | a in acts :: !OfCallback(a)
  }

  /** What the other threads cannot touch. */
  lemma {:induction false} OthersKeep(s: Stream, acts: seq<Action>)
    requires Runs(s, acts) && forall a | a in acts :: !OfCallback(a)
    ensures var t := Exec(s, acts);
      && t.free == s.free && t.callback == s.callback && t.overruns == s.overruns
      && t.accepted == s.accepted && t.blockFrames == s.blockFrames
    decreases |acts|
  {
    if acts != [] {
      assert !OfCallback(acts[0]);
      OthersKeep(Apply(s, acts[0]), acts[1..]);
    }
  }

  lemma {:induction false} RunSnoc(s: Stream, acts: seq<Action>, a: Action)
    requires Runs(s, acts) && Enabled(Exec(s, acts), a)
    ensures Runs(s, acts + [a]) && Exec(s, acts + [a]) == Apply(Exec(s, acts), a)
    decreases |acts|
  {
    if acts != [] {
      assert (acts + [a])[1..] == acts[1..] + [a];
      RunSnoc(Apply(s, acts[0]), acts[1..], a);
    } else {
      assert ([a])[1..] == [];
    }
  }

  function Zip(left: seq<Word>, right: seq<Word>): (b: Block)
    requires |left| == |right|
    ensures |b| == |left| && forall i | 0 <= i < |b| :: b[i].0 == left[i] && b[i].1 == right[i]
  {
    seq(|left|, i requires 0 <= i < |left| && 0 <= i < |right| => (left[i], right[i]))
  }

  /** The callback's handle.  `s` is shared with the encode and control threads: every method
      below that calls `Others` lets them take any number of steps at that point. */
  class PcmOutput {
    var s: Stream

    constructor (blockFrames: nat)
      ensures s == Initial(blockFrames) && Inv(s)
    {
      s := Initial(blockFrames);
    }

    /** Any finite run of the encode and control threads. */
    method Others()
      requires Inv(s)
      modifies this
      ensures Inv(s) && OthersRan(old(s), s)
      ensures s.free == old(s.free) && s.callback == old(s.callback)
      ensures s.overruns == old(s.overruns) && s.accepted == old(s.accepted)
      ensures s.blockFrames == old(s.blockFrames)
    {
      ghost var acts: seq<Action> := [];
      var n: nat := *;
      while n > 0
        invariant Runs(old(s), acts) && Exec(old(s), acts) == s && Inv(s)
        invariant forall a | a in acts :: !OfCallback(a)
      {
        var a: Action := *;
        if Enabled(s, a) && !OfCallback(a) {
          RunSnoc(old(s), acts, a);
          InvStep(s, a);
          s := Apply(s, a);
          acts := acts + [a];
        }
        n := n - 1;
      }
      OthersKeep(old(s), acts);
    }

    /** One atomic operation of the callback, then the others. */
    method Do(a: Action)
      requires Inv(s) && Enabled(s, a)
      modifies this
      ensures Inv(s) && OthersRan(Apply(old(s), a), s)
      ensures var t := Apply(old(s), a);
        && s.free == t.free && s.callback == t.callback && s.overruns == t.overruns
        && s.accepted == t.accepted && s.blockFrames == t.blockFrames
    {
      InvStep(s, a);
      s := Apply(s, a);
      Others();
    }

    /** Takes back what was recycled, then takes a free block and queues it. */
    method Enqueue(block: Block) returns (ok: bool)
      requires Inv(s) && s.callback == Recycling(|block|)
      modifies this
      ensures Inv(s) && s.callback.Resting? && s.blockFrames == old(s.blockFrames)
      ensures old(s.free) > 0 ==> ok
      ensures s.accepted == if ok then old(s.accepted) + [block] else old(s.accepted)
      ensures s.overruns == old(s.overruns) + (if ok then 0 else 1)
    {
      while s.callback.Recycling?
        invariant Inv(s) && (s.callback == Recycling(|block|) || s.callback == Taking(|block|))
        invariant s.overruns == old(s.overruns) && s.accepted == old(s.accepted)
        invariant s.blockFrames == old(s.blockFrames) && s.free >= old(s.free)
        decreases s.callback.Recycling?, POOL_BLOCKS - s.free
      {
        Do(Recycle);
      }
      ok := s.free > 0;
      Do(Take);
      if !ok {
        Do(Return);
        return;
      }
      // The pool count rules out the full ring, which would hand the block back.
      Do(Push(block));
      Do(Return);
    }

    /** A push of at least one frame succeeds exactly when the status it loaded was WRITING, the
        slices fit each other and a block, and the free list was not empty on entry: the free
        list is consulted before the recycle ring is drained, so blocks waiting there do not
        help.  An empty push also succeeds if a block can be recycled.  A failed push changes
        nothing but the overrun counter and, for an empty push, the free list. */
    method PushAudio(left: seq<Word>, right: seq<Word>, frames: nat) returns (ok: bool)
      requires Inv(s) && s.callback.Resting?
      modifies this
      ensures Inv(s) && s.callback.Resting? && s.blockFrames == old(s.blockFrames)
      ensures frames > 0 ==>
        (ok <==> old(s.status) == Writing && |left| == |right| && frames <= |left|
                 && old(s.free) > 0 && frames <= old(s.blockFrames))
      ensures frames == 0 && ok ==> old(s.status) == Writing && |left| == |right|
      ensures frames == 0 && old(s.status) == Writing && |left| == |right| && old(s.free) > 0 ==> ok
      ensures ok ==> frames <= |left| && |left| == |right|
                     && s.accepted == old(s.accepted) + [Zip(left[..frames], right[..frames])]
      ensures !ok ==> s.accepted == old(s.accepted)
      ensures s.overruns == old(s.overruns) + (if ok || old(s.status) != Writing then 0 else 1)
      ensures frames > 0 && !ok ==> s.free == old(s.free)
      ensures old(s.free) == 0 && frames > 0 ==> s.free == 0
    {
      var status := s.status;
      Do(Load);
      if status != Writing {
        return false;
      }
      var fits := |left| == |right| && frames <= |left|;
      ok := fits && frames <= (if s.free == 0 then 0 else s.blockFrames);
      Do(Check(fits, frames));
      if !ok {
        Do(Return);
        return false;
      }
      ok := Enqueue(Zip(left[..frames], right[..frames]));
    }

    /** Exhaustion is permanent: once the free list is empty, no later push of audio succeeds,
        however many blocks the encoder returns in the meantime. */
    method PushSeries(pushes: seq<(seq<Word>, seq<Word>, nat)>) returns (outcomes: seq<bool>)
      requires Inv(s) && s.callback.Resting? && s.free == 0
      requires forall p | p in pushes :: p.2 > 0
      modifies this
      ensures |outcomes| == |pushes| && true !in outcomes
      ensures s.accepted == old(s.accepted) && s.free == 0
    {
      outcomes := [];
      for i := 0 to |pushes|
        invariant Inv(s) && s.callback.Resting? && s.free == 0
        invariant |outcomes| == i && true !in outcomes && s.accepted == old(s.accepted)
      {
        var ok := PushAudio(pushes[i].0, pushes[i].1, pushes[i].2);
        outcomes := outcomes + [ok];
      }
    }
  }
}
