/** The event manager: any number of posting threads, a dispatch worker that sleeps on a
    condition variable, any number of `process_pending` callers, and the owner's `Drop`.

    One `Action` is one atomic step: an atomic load or store, one critical section of the
    queue lock, or one operation on the lock that guards the ready flag.  That lock is held
    across several worker steps, so its holder is part of the worker's program counter. */
module EventManager {

  import opened Util

  type Event = nat

  /** Where the worker is.  `Holds` says which of these hold the ready flag's lock. */
  datatype Worker =
    | Head          // about to test the loop condition
    | Locking       // about to lock
    | Testing       // holding the lock, about to test the flag
    | Checking      // the flag was false, about to load `running`
    | Committing    // `running` was true, about to wait
    | Waiting       // asleep, lock released
    | Waking        // woken, about to take the lock again
    | Clearing      // holding the lock, about to clear the flag and unlock
    | Rechecking    // about to load `running` before a drain
    | Draining      // about to take the batch
    | Dispatching   // delivering its batch
    | Exited
  {
    predicate Holds() {
      Testing? || Checking? || Committing? || Clearing?
    }
  }

  /** How far the owner's `Drop` has got. */
  datatype Owner = Alive | Stopped | Passed | Joining

  /** `loaded`, `toFlag` and `toNotify` hold the posters that have seen `running`, have
      enqueued, and have set the flag.  `batches[0]` belongs to the worker, every other entry
      to one `process_pending` caller. */
  datatype State = State(
    cap: nat, queue: seq<Event>, ready: bool, running: bool, dropped: nat,
    worker: Worker, owner: Owner,
    loaded: multiset<Event>, toFlag: nat, toNotify: nat,
    batches: seq<seq<Event>>,
    posts: nat, accepted: seq<Event>, dispatched: seq<Event>)

  datatype Action =
    | WorkerStep
    | Spurious
    | PostLoad(event: Event)
    | PostEnqueue(event: Event)
    | PostFlag
    | PostNotify
    | Drain(thread: nat)
    | Dispatch(thread: nat)
    | OwnerStep

  /** `with_capacity` raises a zero capacity to one. */
  function Initial(capacity: nat, threads: nat): State {
    State(if capacity == 0 then 1 else capacity, [], false, true, 0, Head, Alive,
          multiset{}, 0, 0, seq(threads + 1, _ => []), 0, [], [])
  }

  predicate Enabled(s: State, a: Action) {
    match a
    case WorkerStep =>
      !s.worker.Waiting? && !s.worker.Exited?
      && (s.worker.Dispatching? || s.worker.Draining? ==> |s.batches| > 0)
    case Spurious => s.worker.Waiting?
    case PostLoad(_) => true
    case PostEnqueue(e) => e in s.loaded
    case PostFlag => s.toFlag > 0 && !s.worker.Holds()
    case PostNotify => s.toNotify > 0
    case Drain(t) => 0 < t < |s.batches| && s.batches[t] == []
    case Dispatch(t) => 0 < t < |s.batches| && s.batches[t] != []
    case OwnerStep => !s.owner.Joining? && (s.owner.Stopped? ==> !s.worker.Holds())
  }

  function Take(s: State, t: nat): State
    requires t < |s.batches|
  {
    s.(batches := s.batches[t := s.queue], queue := [])
  }

  function Deliver(s: State, t: nat): State
    requires t < |s.batches| && s.batches[t] != []
  {
    s.(batches := s.batches[t := s.batches[t][1..]], dispatched := s.dispatched + [s.batches[t][0]])
  }

  function StepWorker(s: State): State
    requires Enabled(s, WorkerStep)
  {
    match s.worker
    case Head => s.(worker := if s.running then Locking else Exited)
    case Locking => s.(worker := Testing)
    case Waking => s.(worker := Testing)
    case Testing => s.(worker := if s.ready then Clearing else Checking)
    case Checking => s.(worker := if s.running then Committing else Clearing)
    case Committing => s.(worker := Waiting)
    case Clearing => s.(ready := false, worker := Rechecking)
    case Rechecking => s.(worker := if s.running then Draining else Exited)
    case Draining => Take(s, 0).(worker := Dispatching)
    case Dispatching => if s.batches[0] == [] then s.(worker := Head) else Deliver(s, 0)
  }

  function Apply(s: State, a: Action): State
    requires Enabled(s, a)
  {
    match a
    case WorkerStep => StepWorker(s)
    case Spurious => s.(worker := Waking)
    case PostLoad(e) =>
      if s.running then s.(posts := s.posts + 1, loaded := s.loaded + multiset{e})
      else s.(posts := s.posts + 1, dropped := s.dropped + 1)
    case PostEnqueue(e) =>
      if |s.queue| >= s.cap then s.(loaded := s.loaded - multiset{e}, dropped := s.dropped + 1)
      else s.(loaded := s.loaded - multiset{e}, queue := s.queue + [e],
              accepted := s.accepted + [e], toFlag := s.toFlag + 1)
    case PostFlag => s.(ready := true, toFlag := s.toFlag - 1, toNotify := s.toNotify + 1)
    case PostNotify =>
      s.(toNotify := s.toNotify - 1, worker := if s.worker.Waiting? then Waking else s.worker)
    case Drain(t) => Take(s, t)
    case Dispatch(t) => Deliver(s, t)
    case OwnerStep =>
      match s.owner
      case Alive => s.(running := false, owner := Stopped)
      case Stopped => s.(owner := Passed)
      case Passed => s.(owner := Joining, worker := if s.worker.Waiting? then Waking else s.worker)
  }

  predicate Runs(s: State, acts: seq<Action>)
    decreases |acts|
  {
    acts == [] || (Enabled(s, acts[0]) && Runs(Apply(s, acts[0]), acts[1..]))
  }

  function Exec(s: State, acts: seq<Action>): State
    requires Runs(s, acts)
    decreases |acts|
  {
    if acts == [] then s else Exec(Apply(s, acts[0]), acts[1..])
  }

  // ---- The invariant behind both wake-up properties ----

  ghost predicate WakeInv(s: State) {
    && |s.batches| > 0
    && s.running == s.owner.Alive?
    && (s.worker.Checking? || s.worker.Committing? ==> !s.ready)
    // Whoever sleeps on a set flag is about to be notified.
    && (s.worker.Waiting? && s.ready ==> s.toNotify > 0)
    // Whoever sleeps, or is about to, although `running` is false, is about to be notified.
    && (s.worker.Committing? ==> s.owner.Alive? || s.owner.Stopped?)
    && (s.worker.Waiting? ==> !s.owner.Joining?)
    && (s.worker.Exited? ==> !s.running)
    // A queued event has its poster, the flag, or the draining worker behind it.
    && (s.queue != [] ==>
          s.toFlag > 0 || s.ready || s.worker.Rechecking? || s.worker.Draining? || s.worker.Exited?)
  }

  lemma WakeInvWorker(s: State)
    requires WakeInv(s) && Enabled(s, WorkerStep)
    ensures WakeInv(StepWorker(s))
  {
  }

  lemma WakeInvStep(s: State, a: Action)
    requires WakeInv(s) && Enabled(s, a)
    ensures WakeInv(Apply(s, a))
  {
    if a.WorkerStep? {
      WakeInvWorker(s);
    }
  }

  lemma {:induction false} WakeInvRuns(s: State, acts: seq<Action>)
    requires WakeInv(s) && Runs(s, acts)
    ensures WakeInv(Exec(s, acts))
    decreases |acts|
  {
    if acts != [] {
      WakeInvStep(s, acts[0]);
      WakeInvRuns(Apply(s, acts[0]), acts[1..]);
    }
  }

  /** No lost wake-up, in every reachable state: a queued event always has a poster between
      enqueue and flag, or the flag, or the worker between clearing it and draining; and while
      the manager runs, a sleeping worker with queued events is owed a notification. */
  lemma NoLostWakeup(capacity: nat, threads: nat, acts: seq<Action>)
    requires Runs(Initial(capacity, threads), acts)
    ensures var s := Exec(Initial(capacity, threads), acts);
      s.running && s.queue != [] ==>
        && (s.toFlag > 0 || s.ready || s.worker.Rechecking? || s.worker.Draining?)
        && (s.worker.Waiting? ==> s.toFlag > 0 || s.toNotify > 0)
        && !s.worker.Exited?
  {
    WakeInvRuns(Initial(capacity, threads), acts);
  }

  /** After `Drop` has stored `running = false`, passed the lock and notified, the worker is
      not asleep and never sleeps again. */
  lemma NeverLeftWaiting(capacity: nat, threads: nat, acts: seq<Action>)
    requires Runs(Initial(capacity, threads), acts)
    ensures var s := Exec(Initial(capacity, threads), acts);
      s.owner.Joining? ==> !s.worker.Waiting? && !s.worker.Committing?
  {
    WakeInvRuns(Initial(capacity, threads), acts);
  }

  // ---- Shutdown terminates ----

  /** Bound on the worker's remaining steps once the owner waits in `join`. */
  function Rank(s: State): nat
    requires |s.batches| > 0
  {
    match s.worker
    case Exited => 0
    case Head => 1
    case Rechecking => 1
    case Clearing => 2
    case Checking => 3
    case Testing => 4
    case Locking => 5
    case Waking => 5
    case Committing => 7
    case Waiting => 6
    case Dispatching => 2 + |s.batches[0]|
    case Draining => 3 + s.cap
  }

  function WorkerSteps(acts: seq<Action>): nat {
    if acts == [] then 0 else (if acts[0].WorkerStep? then 1 else 0) + WorkerSteps(acts[1..])
  }

  lemma RankWorker(s: State)
    requires WakeInv(s) && |s.queue| <= s.cap && s.owner.Joining? && Enabled(s, WorkerStep)
    ensures var t := StepWorker(s);
      t.owner.Joining? && |t.queue| <= t.cap && Rank(t) < Rank(s)
  {
  }

  lemma RankStep(s: State, a: Action)
    requires WakeInv(s) && |s.queue| <= s.cap && s.owner.Joining? && Enabled(s, a)
    ensures var t := Apply(s, a);
      && t.owner.Joining? && |t.queue| <= t.cap
      && Rank(t) + (if a.WorkerStep? then 1 else 0) <= Rank(s)
  {
    if a.WorkerStep? {
      RankWorker(s);
    }
  }

  lemma {:induction false} RankRuns(s: State, acts: seq<Action>)
    requires WakeInv(s) && |s.queue| <= s.cap && s.owner.Joining? && Runs(s, acts)
    ensures var t := Exec(s, acts);
      t.owner.Joining? && |t.batches| > 0 && WorkerSteps(acts) + Rank(t) <= Rank(s)
    decreases |acts|
  {
    if acts != [] {
      WakeInvStep(s, acts[0]);
      RankStep(s, acts[0]);
      RankRuns(Apply(s, acts[0]), acts[1..]);
    } else {
      assert WorkerSteps(acts) == 0;
    }
  }

  /** `join` returns: whatever the other threads do, from the owner's wait on the worker can
      always take its next step until it has exited, and it takes at most `Rank` of them. */
  lemma ShutdownTerminates(capacity: nat, threads: nat, before: seq<Action>, after: seq<Action>)
    requires Runs(Initial(capacity, threads), before)
    requires Exec(Initial(capacity, threads), before).owner.Joining?
    requires Runs(Exec(Initial(capacity, threads), before), after)
    ensures var s := Exec(Initial(capacity, threads), before);
      var t := Exec(s, after);
      && |s.batches| > 0 && WorkerSteps(after) <= Rank(s)
      && (t.worker.Exited? || Enabled(t, WorkerStep))
  {
    var s := Exec(Initial(capacity, threads), before);
    WakeInvRuns(Initial(capacity, threads), before);
    InitialBook(capacity, threads);
    BookRuns(Initial(capacity, threads), before);
    RankRuns(s, after);
    WakeInvRuns(s, after);
  }

  // ---- Conservation ----

  /** The events of every batch being delivered. */
  ghost function InFlight(bs: seq<seq<Event>>): multiset<Event> {
    if bs == [] then multiset{} else multiset(bs[0]) + InFlight(bs[1..])
  }

  ghost predicate Balanced(accepted: seq<Event>, queue: seq<Event>, bs: seq<seq<Event>>, dispatched: seq<Event>) {
    multiset(accepted) == multiset(queue) + InFlight(bs) + multiset(dispatched)
  }

  ghost predicate BookInv(s: State) {
    && |s.queue| <= s.cap
    && s.posts == |s.accepted| + s.dropped + |s.loaded|
    && Balanced(s.accepted, s.queue, s.batches, s.dispatched)
    && (!s.worker.Dispatching? && |s.batches| > 0 ==> s.batches[0] == [])
  }

  lemma {:induction false} InFlightUpdate(bs: seq<seq<Event>>, t: nat, b: seq<Event>)
    requires t < |bs|
    ensures InFlight(bs[t := b]) + multiset(bs[t]) == InFlight(bs) + multiset(b)
  {
    if t == 0 {
      assert bs[0 := b][1..] == bs[1..];
    } else {
      assert bs[t := b][1..] == bs[1..][t - 1 := b];
      InFlightUpdate(bs[1..], t - 1, b);
      var head, before, after := multiset(bs[0]), InFlight(bs[1..]), InFlight(bs[1..][t - 1 := b]);
      assert InFlight(bs[t := b]) == head + after;
      assert head + after + multiset(bs[t]) == head + (after + multiset(bs[t]));
      assert head + before + multiset(b) == head + (before + multiset(b));
    }
  }

  lemma {:induction false} InFlightEmpty(n: nat)
    ensures InFlight(seq(n, _ => [])) == multiset{}
  {
    if n > 0 {
      var s: seq<seq<Event>> := seq(n, _ => []);
      var r: seq<seq<Event>> := seq(n - 1, _ => []);
      InFlightEmpty(n - 1);
      assert s[1..] == r;
    }
  }

  lemma InitialBook(capacity: nat, threads: nat)
    ensures BookInv(Initial(capacity, threads))
  {
    InFlightEmpty(threads + 1);
  }

  lemma PostBook(accepted: seq<Event>, queue: seq<Event>, bs: seq<seq<Event>>, dispatched: seq<Event>, e: Event)
    requires Balanced(accepted, queue, bs, dispatched)
    ensures Balanced(accepted + [e], queue + [e], bs, dispatched)
  {
  }

  lemma Cancel(a: multiset<Event>, b: multiset<Event>, c: multiset<Event>)
    requires a + c == b + c
    ensures a == b
  {
    forall e: Event
      ensures a[e] == b[e]
    {
      assert (a + c)[e] == (b + c)[e];
    }
  }

  lemma TakeBook(accepted: seq<Event>, queue: seq<Event>, bs: seq<seq<Event>>, dispatched: seq<Event>, t: nat)
    requires Balanced(accepted, queue, bs, dispatched) && t < |bs| && bs[t] == []
    ensures Balanced(accepted, [], bs[t := queue], dispatched)
  {
    InFlightUpdate(bs, t, queue);
    assert InFlight(bs[t := queue]) == InFlight(bs) + multiset(queue);
  }

  lemma DeliverBook(accepted: seq<Event>, queue: seq<Event>, bs: seq<seq<Event>>, dispatched: seq<Event>, t: nat)
    requires Balanced(accepted, queue, bs, dispatched) && t < |bs| && bs[t] != []
    ensures Balanced(accepted, queue, bs[t := bs[t][1..]], dispatched + [bs[t][0]])
  {
    var b := bs[t];
    InFlightUpdate(bs, t, b[1..]);
    assert b == [b[0]] + b[1..];
    var first, rest := multiset{b[0]}, InFlight(bs[t := b[1..]]);
    assert multiset(b) == first + multiset(b[1..]);
    assert rest + first + multiset(b[1..]) == InFlight(bs) + multiset(b[1..]);
    Cancel(rest + first, InFlight(bs), multiset(b[1..]));
    assert multiset(dispatched + [b[0]]) == multiset(dispatched) + first;
  }

  lemma WorkerBook(s: State)
    requires BookInv(s) && Enabled(s, WorkerStep)
    ensures BookInv(StepWorker(s))
  {
    if s.worker.Draining? {
      TakeBook(s.accepted, s.queue, s.batches, s.dispatched, 0);
    } else if s.worker.Dispatching? && s.batches[0] != [] {
      DeliverBook(s.accepted, s.queue, s.batches, s.dispatched, 0);
    } else {
      BookSame(s, StepWorker(s));
    }
  }

  lemma EnqueueBook(s: State, e: Event)
    requires BookInv(s) && e in s.loaded
    ensures BookInv(Apply(s, PostEnqueue(e)))
  {
    PostBook(s.accepted, s.queue, s.batches, s.dispatched, e);
  }

  lemma CallerBook(s: State, a: Action)
    requires BookInv(s) && Enabled(s, a) && (a.Drain? || a.Dispatch?)
    ensures BookInv(Apply(s, a))
  {
    if a.Drain? {
      TakeBook(s.accepted, s.queue, s.batches, s.dispatched, a.thread);
    } else {
      DeliverBook(s.accepted, s.queue, s.batches, s.dispatched, a.thread);
    }
  }

  /** The other actions touch neither the queue nor a batch. */
  lemma OtherBook(s: State, a: Action)
    requires BookInv(s) && Enabled(s, a)
    requires !a.WorkerStep? && !a.PostLoad? && !a.PostEnqueue? && !a.Drain? && !a.Dispatch?
    ensures BookInv(Apply(s, a))
  {
    BookSame(s, Apply(s, a));
  }

  lemma BookSame(s: State, t: State)
    requires BookInv(s)
    requires t.cap == s.cap && t.queue == s.queue && t.batches == s.batches && t.loaded == s.loaded
    requires t.posts == s.posts && t.dropped == s.dropped && t.accepted == s.accepted && t.dispatched == s.dispatched
    requires !t.worker.Dispatching? && |t.batches| > 0 ==> t.batches[0] == []
    ensures BookInv(t)
  {
  }

  lemma LoadBook(s: State, e: Event)
    requires BookInv(s)
    ensures BookInv(Apply(s, PostLoad(e)))
  {
  }

  lemma BookStep(s: State, a: Action)
    requires BookInv(s) && Enabled(s, a)
    ensures BookInv(Apply(s, a))
  {
    match a
    case WorkerStep => WorkerBook(s);
    case PostLoad(e) => LoadBook(s, e);
    case PostEnqueue(e) => EnqueueBook(s, e);
    case Drain(_) => CallerBook(s, a);
    case Dispatch(_) => CallerBook(s, a);
    case _ => OtherBook(s, a);
  }

  lemma {:induction false} BookRuns(s: State, acts: seq<Action>)
    requires BookInv(s) && Runs(s, acts)
    ensures BookInv(Exec(s, acts))
    decreases |acts|
  {
    if acts != [] {
      BookStep(s, acts[0]);
      BookRuns(Apply(s, acts[0]), acts[1..]);
    }
  }

  /** With any number of drainers: the queue stays within its capacity, every post is either
      accepted, counted as dropped or still in flight, and the accepted events are, as a
      multiset, exactly those queued, in a batch being delivered, or delivered. */
  lemma EventConservation(capacity: nat, threads: nat, acts: seq<Action>)
    requires Runs(Initial(capacity, threads), acts)
    ensures var s := Exec(Initial(capacity, threads), acts);
      && |s.queue| <= Max(1, capacity)
      && s.posts == |s.accepted| + s.dropped + |s.loaded|
      && multiset(s.accepted) == multiset(s.queue) + InFlight(s.batches) + multiset(s.dispatched)
  {
    InitialBook(capacity, threads);
    BookRuns(Initial(capacity, threads), acts);
    CapFixed(Initial(capacity, threads), acts);
  }

  lemma {:induction false} CapFixed(s: State, acts: seq<Action>)
    requires Runs(s, acts)
    ensures Exec(s, acts).cap == s.cap && |Exec(s, acts).batches| == |s.batches|
    decreases |acts|
  {
    if acts != [] {
      CapFixed(Apply(s, acts[0]), acts[1..]);
    }
  }

  // ---- Nothing is dropped early ----

  /** While the manager runs, only a full queue drops an event. */
  ghost predicate DropInv(s: State) {
    && s.cap > 0 && |s.queue| <= |s.accepted|
    && (s.running && s.dropped > 0 ==> |s.accepted| >= s.cap)
  }

  lemma DropStep(s: State, a: Action)
    requires DropInv(s) && Enabled(s, a)
    ensures DropInv(Apply(s, a))
  {
    if a.WorkerStep? {
      assert StepWorker(s).cap == s.cap && StepWorker(s).accepted == s.accepted;
    }
  }

  lemma {:induction false} DropRuns(s: State, acts: seq<Action>)
    requires DropInv(s) && Runs(s, acts)
    ensures DropInv(Exec(s, acts))
    decreases |acts|
  {
    if acts != [] {
      DropStep(s, acts[0]);
      DropRuns(Apply(s, acts[0]), acts[1..]);
    }
  }

  /** While the manager runs, no event is dropped before a whole queue has been accepted; in
      particular none is when fewer are posted. */
  lemma NoEarlyDrop(capacity: nat, threads: nat, acts: seq<Action>)
    requires Runs(Initial(capacity, threads), acts)
    ensures var s := Exec(Initial(capacity, threads), acts);
      && (s.running && s.dropped > 0 ==> |s.accepted| >= Max(1, capacity))
      && (s.running && s.posts <= Max(1, capacity) ==> s.dropped == 0 && |s.accepted| + |s.loaded| == s.posts)
  {
    InitialBook(capacity, threads);
    DropRuns(Initial(capacity, threads), acts);
    BookRuns(Initial(capacity, threads), acts);
    CapFixed(Initial(capacity, threads), acts);
  }

  /** A post that finds the queue full is dropped and any other is accepted at its end. */
  lemma PostAcceptedIff(capacity: nat, threads: nat, acts: seq<Action>, e: Event)
    requires Runs(Initial(capacity, threads), acts) && e in Exec(Initial(capacity, threads), acts).loaded
    ensures var s := Exec(Initial(capacity, threads), acts);
      var t := Apply(s, PostEnqueue(e));
      && (t.dropped == s.dropped <==> |s.queue| < Max(1, capacity))
      && (t.dropped == s.dropped <==> t.queue == s.queue + [e] && t.accepted == s.accepted + [e])
      && (t.dropped != s.dropped ==> t.queue == s.queue && t.accepted == s.accepted)
  {
    InitialBook(capacity, threads);
    BookRuns(Initial(capacity, threads), acts);
    CapFixed(Initial(capacity, threads), acts);
  }

  /** The events that posters brought along a run. */
  ghost function Posted(acts: seq<Action>): multiset<Event> {
    if acts == [] then multiset{}
    else (if acts[0].PostLoad? then multiset{acts[0].event} else multiset{}) + Posted(acts[1..])
  }

  lemma PostedStep(s: State, a: Action)
    requires Enabled(s, a)
    ensures var t := Apply(s, a);
      multiset(t.accepted) + t.loaded <= multiset(s.accepted) + s.loaded + Posted([a])
  {
    PostedOne(a);
    if a.PostEnqueue? {
      EnqueuePosted(s, a.event);
    } else {
      assert Apply(s, a).accepted == s.accepted;
    }
  }

  lemma PostedOne(a: Action)
    ensures Posted([a]) == if a.PostLoad? then multiset{a.event} else multiset{}
  {
    assert [a][1..] == [];
  }

  lemma EnqueuePosted(s: State, e: Event)
    requires e in s.loaded
    ensures var t := Apply(s, PostEnqueue(e)); multiset(t.accepted) + t.loaded <= multiset(s.accepted) + s.loaded
  {
    assert multiset(s.accepted + [e]) == multiset(s.accepted) + multiset{e};
  }

  lemma {:induction false} PostedRuns(s: State, acts: seq<Action>)
    requires Runs(s, acts)
    ensures multiset(Exec(s, acts).accepted) + Exec(s, acts).loaded <= multiset(s.accepted) + s.loaded + Posted(acts)
    decreases |acts|
  {
    if acts != [] {
      PostedStep(s, acts[0]);
      PostedRuns(Apply(s, acts[0]), acts[1..]);
      assert [acts[0]][1..] == [];
    }
  }

  /** What is accepted was posted, each event at most as often, and only what was dropped is
      missing. */
  lemma AcceptedWerePosted(capacity: nat, threads: nat, acts: seq<Action>)
    requires Runs(Initial(capacity, threads), acts)
    ensures var s := Exec(Initial(capacity, threads), acts);
      && multiset(s.accepted) + s.loaded <= Posted(acts)
      && |Posted(acts)| == |s.accepted| + |s.loaded| + s.dropped
  {
    InitialBook(capacity, threads);
    PostedRuns(Initial(capacity, threads), acts);
    BookRuns(Initial(capacity, threads), acts);
    PostsCounted(Initial(capacity, threads), acts);
  }

  lemma PostsStep(s: State, a: Action)
    requires Enabled(s, a)
    ensures Apply(s, a).posts == s.posts + (if a.PostLoad? then 1 else 0)
  {
    assert a.WorkerStep? ==> Apply(s, a).posts == s.posts;
  }

  lemma {:induction false} PostsCounted(s: State, acts: seq<Action>)
    requires Runs(s, acts)
    ensures Exec(s, acts).posts == s.posts + |Posted(acts)|
    decreases |acts|
  {
    if acts != [] {
      PostsStep(s, acts[0]);
      PostsCounted(Apply(s, acts[0]), acts[1..]);
    }
  }

  // ---- After the stop ----

  ghost predicate StoppedFrom(s: State, t: State) {
    && !t.running && !t.worker.Draining?
    && t.loaded <= s.loaded && |t.accepted| + |t.loaded| <= |s.accepted| + |s.loaded|
  }

  lemma StoppedStep(s: State, a: Action)
    requires !s.running && !s.worker.Draining? && Enabled(s, a)
    ensures StoppedFrom(s, Apply(s, a))
  {
    if a.WorkerStep? {
      assert StepWorker(s).loaded == s.loaded && StepWorker(s).accepted == s.accepted;
    }
  }

  lemma {:induction false} StoppedRuns(s: State, acts: seq<Action>)
    requires !s.running && !s.worker.Draining? && Runs(s, acts)
    ensures StoppedFrom(s, Exec(s, acts))
    decreases |acts|
  {
    if acts != [] {
      StoppedStep(s, acts[0]);
      StoppedRuns(Apply(s, acts[0]), acts[1..]);
    }
  }

  /** Once the manager has stopped the worker takes no further batch, and no event is accepted
      but those whose posters had seen it running. */
  lemma NothingAfterStop(capacity: nat, threads: nat, before: seq<Action>, after: seq<Action>)
    requires Runs(Initial(capacity, threads), before)
    requires var s := Exec(Initial(capacity, threads), before);
      !s.owner.Alive? && !s.worker.Draining? && Runs(s, after)
    ensures var s := Exec(Initial(capacity, threads), before);
      var t := Exec(s, after);
      !t.worker.Draining? && t.loaded <= s.loaded && |t.accepted| + |t.loaded| <= |s.accepted| + |s.loaded|
  {
    WakeInvRuns(Initial(capacity, threads), before);
    StoppedRuns(Exec(Initial(capacity, threads), before), after);
  }

  // ---- Queued events are delivered ----

  lemma RunCons(s: State, a: Action, rest: seq<Action>)
    requires Enabled(s, a) && Runs(Apply(s, a), rest)
    ensures Runs(s, [a] + rest) && Exec(s, [a] + rest) == Exec(Apply(s, a), rest)
  {
    assert ([a] + rest)[1..] == rest;
  }

  /** A step of the worker, or of a poster whose event is already queued. */
  predicate Completing(a: Action) {
    a.WorkerStep? || a.PostFlag? || a.PostNotify?
  }

  predicate AllCompleting(acts: seq<Action>) {
    forall i | 0 <= i < |acts| :: Completing(acts[i])
  }

  /** What the worker is still delivering and what is queued, behind what was delivered. */
  function Due(s: State): seq<Event>
    requires |s.batches| > 0
  {
    s.dispatched + s.batches[0] + s.queue
  }

  /** Worker steps to the next drain. */
  function ToDrain(s: State): nat
    requires |s.batches| > 0
  {
    match s.worker
    case Draining => 0
    case Exited => 0
    case Waiting => 0
    case Rechecking => 1
    case Clearing => 2
    case Committing => 2
    case Checking => 3
    case Testing => 4
    case Locking => 5
    case Waking => 5
    case Head => 6
    case Dispatching => 7 + |s.batches[0]|
  }

  function NextCompleting(s: State): Action {
    if !s.worker.Waiting? then WorkerStep else if s.toNotify > 0 then PostNotify else PostFlag
  }

  lemma CompletingStep(s: State)
    requires WakeInv(s) && s.running && s.queue != [] && !s.worker.Draining?
    ensures var a := NextCompleting(s);
      && Enabled(s, a) && Completing(a)
      && var t := Apply(s, a);
        && t.running && t.queue == s.queue && |t.batches| > 0
        && (t.toFlag < s.toFlag || (t.toFlag == s.toFlag
            && (t.toNotify < s.toNotify || (t.toNotify == s.toNotify && ToDrain(t) < ToDrain(s)))))
  {
  }

  lemma CompletingKeepsDue(s: State)
    requires WakeInv(s) && s.running && s.queue != [] && !s.worker.Draining?
    ensures Enabled(s, NextCompleting(s)) && |Apply(s, NextCompleting(s)).batches| > 0
    ensures Due(Apply(s, NextCompleting(s))) == Due(s)
  {
    if s.worker.Dispatching? && s.batches[0] != [] {
      DueAfterDelivery(s);
    }
  }

  lemma DueAfterDelivery(s: State)
    requires |s.batches| > 0 && s.batches[0] != []
    ensures Due(Deliver(s, 0)) == Due(s)
  {
    var b := s.batches[0];
    assert b == [b[0]] + b[1..];
    Regroup(s.dispatched, [b[0]], b[1..]);
  }

  /** The worker delivers the batch it has taken. */
  lemma {:induction false} DeliversBatch(s: State) returns (acts: seq<Action>)
    requires s.worker.Dispatching? && |s.batches| > 0
    ensures Runs(s, acts) && AllCompleting(acts)
    ensures var t := Exec(s, acts); |t.batches| > 0 && t.batches[0] == [] && t.queue == s.queue && Due(t) == Due(s)
    decreases |s.batches[0]|
  {
    if s.batches[0] == [] {
      return [];
    }
    DueAfterDelivery(s);
    var rest := DeliversBatch(Apply(s, WorkerStep));
    RunCons(s, WorkerStep, rest);
    acts := [WorkerStep] + rest;
  }

  lemma DueAfterTake(s: State)
    requires |s.batches| > 0 && s.batches[0] == []
    ensures Due(Take(s, 0)) == Due(s)
  {
    assert s.dispatched + s.queue + [] == s.dispatched + [] + s.queue;
  }

  lemma {:induction false} DeliversQueue(s: State) returns (acts: seq<Action>)
    requires WakeInv(s) && BookInv(s) && s.running && s.queue != []
    ensures Runs(s, acts) && AllCompleting(acts)
    ensures var t := Exec(s, acts); |t.batches| > 0 && t.batches[0] == [] && t.queue == [] && Due(t) == Due(s)
    decreases s.toFlag, s.toNotify, ToDrain(s)
  {
    var rest;
    if s.worker.Draining? {
      DueAfterTake(s);
      rest := DeliversBatch(Apply(s, WorkerStep));
      RunCons(s, WorkerStep, rest);
      acts := [WorkerStep] + rest;
    } else {
      var a := NextCompleting(s);
      CompletingStep(s);
      CompletingKeepsDue(s);
      WakeInvStep(s, a);
      BookStep(s, a);
      rest := DeliversQueue(Apply(s, a));
      RunCons(s, a, rest);
      acts := [a] + rest;
    }
  }

  /** Queued events are delivered: from every reachable running state, steps of the worker and of
      posters that have already enqueued deliver the worker's batch and then the whole queue, in
      order. */
  lemma QueuedAreDelivered(capacity: nat, threads: nat, before: seq<Action>) returns (acts: seq<Action>)
    requires Runs(Initial(capacity, threads), before)
    requires Exec(Initial(capacity, threads), before).running && Exec(Initial(capacity, threads), before).queue != []
    ensures var s := Exec(Initial(capacity, threads), before);
      && Runs(s, acts) && AllCompleting(acts) && |s.batches| > 0
      && Exec(s, acts).queue == []
      && Exec(s, acts).dispatched == s.dispatched + s.batches[0] + s.queue
  {
    var s := Exec(Initial(capacity, threads), before);
    WakeInvRuns(Initial(capacity, threads), before);
    InitialBook(capacity, threads);
    BookRuns(Initial(capacity, threads), before);
    acts := DeliversQueue(s);
    var end := Exec(s, acts);
    assert end.dispatched + [] + [] == end.dispatched;
  }

  // ---- A caller of process_pending delivers ----

  lemma {:induction false} CallerFinishes(s: State, t: nat) returns (acts: seq<Action>)
    requires 0 < t < |s.batches|
    ensures Runs(s, acts) && forall i | 0 <= i < |acts| :: acts[i] == Dispatch(t)
    ensures var u := Exec(s, acts);
      u.queue == s.queue && u.dispatched == s.dispatched + s.batches[t]
    decreases |s.batches[t]|
  {
    var b := s.batches[t];
    if b == [] {
      assert s.dispatched + [] == s.dispatched;
      return [];
    }
    var rest := CallerFinishes(Apply(s, Dispatch(t)), t);
    RunCons(s, Dispatch(t), rest);
    assert b == [b[0]] + b[1..];
    Regroup(s.dispatched, [b[0]], b[1..]);
    acts := [Dispatch(t)] + rest;
  }

  /** In every reachable state an idle caller can drain the queue and deliver it in order, whether
      or not the manager still runs. */
  lemma CallerDelivers(capacity: nat, threads: nat, before: seq<Action>, t: nat) returns (acts: seq<Action>)
    requires Runs(Initial(capacity, threads), before) && 0 < t <= threads
    requires t < |Exec(Initial(capacity, threads), before).batches| && Exec(Initial(capacity, threads), before).batches[t] == []
    ensures var s := Exec(Initial(capacity, threads), before);
      && Runs(s, [Drain(t)] + acts) && (forall i | 0 <= i < |acts| :: acts[i] == Dispatch(t))
      && Exec(s, [Drain(t)] + acts).queue == []
      && Exec(s, [Drain(t)] + acts).dispatched == s.dispatched + s.queue
  {
    var s := Exec(Initial(capacity, threads), before);
    acts := CallerFinishes(Apply(s, Drain(t)), t);
    RunCons(s, Drain(t), acts);
  }

  // ---- The worker sleeps, and the owner gets its join ----

  predicate AllWorker(acts: seq<Action>) {
    forall i | 0 <= i < |acts| :: acts[i].WorkerStep?
  }

  /** Worker steps to its next wait, in a running manager whose flag is not set again. */
  function ToSleep(s: State): nat
    requires |s.batches| > 0
  {
    match s.worker
    case Waiting => 0
    case Committing => 1
    case Checking => 2
    case Testing => if s.ready then 13 + |s.queue| else 3
    case Locking => if s.ready then 14 + |s.queue| else 4
    case Waking => if s.ready then 14 + |s.queue| else 4
    case Head => if s.ready then 15 + |s.queue| else 5
    case Dispatching => |s.batches[0]| + (if s.ready then 16 + |s.queue| else 6)
    case Draining => |s.queue| + (if s.ready then 17 + |s.queue| else 7)
    case Rechecking => |s.queue| + (if s.ready then 18 + |s.queue| else 8)
    case Clearing => 9 + |s.queue|
    case Exited => 0
  }

  lemma ToSleepShrinks(s: State)
    requires WakeInv(s) && s.running && !s.worker.Waiting?
    ensures Enabled(s, WorkerStep)
    ensures var t := StepWorker(s); WakeInv(t) && t.running && ToSleep(t) < ToSleep(s)
  {
    WakeInvStep(s, WorkerStep);
  }

  lemma {:induction false} ReachesSleep(s: State) returns (acts: seq<Action>)
    requires WakeInv(s) && s.running
    ensures Runs(s, acts) && AllWorker(acts) && Exec(s, acts).worker.Waiting?
    decreases ToSleep(s)
  {
    if s.worker.Waiting? {
      return [];
    }
    ToSleepShrinks(s);
    var rest := ReachesSleep(StepWorker(s));
    RunCons(s, WorkerStep, rest);
    acts := [WorkerStep] + rest;
  }

  /** The worker does not spin: from every reachable running state its own steps lead to sleep. */
  lemma WorkerSleeps(capacity: nat, threads: nat, before: seq<Action>) returns (acts: seq<Action>)
    requires Runs(Initial(capacity, threads), before) && Exec(Initial(capacity, threads), before).running
    ensures var s := Exec(Initial(capacity, threads), before);
      Runs(s, acts) && AllWorker(acts) && Exec(s, acts).worker.Waiting?
  {
    WakeInvRuns(Initial(capacity, threads), before);
    acts := ReachesSleep(Exec(Initial(capacity, threads), before));
  }

  predicate OwnerAndWorker(acts: seq<Action>) {
    forall i | 0 <= i < |acts| :: acts[i].WorkerStep? || acts[i].OwnerStep?
  }

  /** What the owner still has to do before its join. */
  function OwnerLeft(s: State): nat {
    match s.owner case Alive => 3 case Stopped => 2 case Passed => 1 case Joining => 0
  }

  /** Worker steps until the lock is free, in a stopped manager. */
  function HoldLeft(s: State): nat {
    match s.worker
    case Testing => 3
    case Checking => 2
    case Committing => 1
    case Clearing => 1
    case _ => 0
  }

  function NextShutdown(s: State): Action {
    if s.owner.Joining? || (s.owner.Stopped? && s.worker.Holds()) then WorkerStep else OwnerStep
  }

  lemma ShutdownStep(s: State)
    requires WakeInv(s) && BookInv(s) && !(s.owner.Joining? && s.worker.Exited?)
    ensures var a := NextShutdown(s);
      && Enabled(s, a) && WakeInv(Apply(s, a)) && BookInv(Apply(s, a))
      && var t := Apply(s, a);
        || OwnerLeft(t) < OwnerLeft(s)
        || (OwnerLeft(t) == OwnerLeft(s) && OwnerLeft(s) > 0 && HoldLeft(t) < HoldLeft(s))
        || (OwnerLeft(t) == OwnerLeft(s) && OwnerLeft(s) == 0 && Rank(t) < Rank(s))
  {
    var a := NextShutdown(s);
    WakeInvStep(s, a);
    BookStep(s, a);
    ShutdownShrinks(s);
  }

  lemma ShutdownShrinks(s: State)
    requires WakeInv(s) && |s.queue| <= s.cap && !(s.owner.Joining? && s.worker.Exited?)
    ensures Enabled(s, NextShutdown(s)) && |Apply(s, NextShutdown(s)).batches| > 0
    ensures var t := Apply(s, NextShutdown(s));
      || OwnerLeft(t) < OwnerLeft(s)
      || (OwnerLeft(t) == OwnerLeft(s) && OwnerLeft(s) > 0 && HoldLeft(t) < HoldLeft(s))
      || (OwnerLeft(t) == OwnerLeft(s) && OwnerLeft(s) == 0 && Rank(t) < Rank(s))
  {
    if s.owner.Joining? {
      RankWorker(s);
    }
  }

  /** The owner's `Drop` can always be completed: from every reachable state, steps of the owner and
      of the worker reach the join with the worker gone. */
  lemma ShutdownCompletes(capacity: nat, threads: nat, before: seq<Action>) returns (acts: seq<Action>)
    requires Runs(Initial(capacity, threads), before)
    ensures var s := Exec(Initial(capacity, threads), before);
      && Runs(s, acts) && OwnerAndWorker(acts)
      && Exec(s, acts).owner.Joining? && Exec(s, acts).worker.Exited?
  {
    WakeInvRuns(Initial(capacity, threads), before);
    InitialBook(capacity, threads);
    BookRuns(Initial(capacity, threads), before);
    acts := ReachesJoin(Exec(Initial(capacity, threads), before));
  }

  lemma {:induction false} ReachesJoin(s: State) returns (acts: seq<Action>)
    requires WakeInv(s) && BookInv(s)
    ensures Runs(s, acts) && OwnerAndWorker(acts) && Exec(s, acts).owner.Joining? && Exec(s, acts).worker.Exited?
    decreases OwnerLeft(s), if s.owner.Joining? then Rank(s) else HoldLeft(s)
  {
    if s.owner.Joining? && s.worker.Exited? {
      return [];
    }
    var a := NextShutdown(s);
    ShutdownStep(s);
    var rest := ReachesJoin(Apply(s, a));
    RunCons(s, a, rest);
    acts := [a] + rest;
  }

  // ---- Order, with one drainer ----

  /** The drainer of a step: the worker is drainer 0. */
  predicate DrainsAs(s: State, a: Action, d: nat) {
    match a
    case WorkerStep => s.worker.Draining? ==> d == 0
    case Drain(t) => d == t
    case _ => true
  }

  predicate SoleDrainer(s: State, acts: seq<Action>, d: nat)
    requires Runs(s, acts)
    decreases |acts|
  {
    acts == [] || (DrainsAs(s, acts[0], d) && SoleDrainer(Apply(s, acts[0]), acts[1..], d))
  }

  ghost predicate InOrder(s: State, d: nat) {
    && d < |s.batches|
    && (forall t | 0 <= t < |s.batches| && t != d :: s.batches[t] == [])
    && (!s.worker.Dispatching? ==> s.batches[0] == [])
    && s.accepted == s.dispatched + s.batches[d] + s.queue
  }

  lemma InOrderTake(s: State, d: nat)
    requires InOrder(s, d) && s.batches[d] == []
    ensures Take(s, d).accepted == Take(s, d).dispatched + Take(s, d).batches[d] + Take(s, d).queue
  {
    assert s.dispatched + [] + s.queue == s.dispatched + s.queue + [];
  }

  lemma InOrderDeliver(s: State, d: nat)
    requires InOrder(s, d) && s.batches[d] != []
    ensures Deliver(s, d).accepted == Deliver(s, d).dispatched + Deliver(s, d).batches[d] + Deliver(s, d).queue
  {
    var b := s.batches[d];
    assert b == [b[0]] + b[1..];
    assert s.dispatched + ([b[0]] + b[1..]) == s.dispatched + [b[0]] + b[1..];
  }

  lemma InOrderStep(s: State, a: Action, d: nat)
    requires InOrder(s, d) && Enabled(s, a) && DrainsAs(s, a, d)
    ensures InOrder(Apply(s, a), d)
  {
    match a
    case WorkerStep =>
      if s.worker.Draining? {
        InOrderTake(s, d);
      } else if s.worker.Dispatching? && s.batches[0] != [] {
        InOrderDeliver(s, d);
      }
    case PostEnqueue(e) =>
      assert s.dispatched + s.batches[d] + (s.queue + [e]) == s.dispatched + s.batches[d] + s.queue + [e];
    case Drain(t) => InOrderTake(s, d);
    case Dispatch(t) => InOrderDeliver(s, d);
    case _ =>
  }

  lemma {:induction false} InOrderRuns(s: State, acts: seq<Action>, d: nat)
    requires InOrder(s, d) && Runs(s, acts) && SoleDrainer(s, acts, d)
    ensures InOrder(Exec(s, acts), d)
    decreases |acts|
  {
    if acts != [] {
      InOrderStep(s, acts[0], d);
      InOrderRuns(Apply(s, acts[0]), acts[1..], d);
    }
  }

  /** With one drainer, be it the worker or one caller, events are delivered in the order in
      which they were accepted, none skipped. */
  lemma DispatchInPostOrder(capacity: nat, threads: nat, acts: seq<Action>, d: nat)
    requires d <= threads
    requires Runs(Initial(capacity, threads), acts)
    requires SoleDrainer(Initial(capacity, threads), acts, d)
    ensures var s := Exec(Initial(capacity, threads), acts);
      d < |s.batches| && s.accepted == s.dispatched + s.batches[d] + s.queue
  {
    InOrderRuns(Initial(capacity, threads), acts, d);
  }
}
