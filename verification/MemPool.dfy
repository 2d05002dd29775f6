/** The preallocation pool: callers that take and return instances without waiting, and the
    manager thread that restocks and reclaims.  One `Action` is one queue or counter operation,
    so a caller's `ready.pop` and the `wake_up` that follows it are separate steps.  A caller that
    has upgraded its reference keeps the manager alive until its request is made, so the two are
    one step; once the last reference is gone no upgrade succeeds again, and the manager thread
    only works off what was queued.

    Instances are numbered in the order the factory made them. */
module MemPool {

  import opened Util

  type Id = nat

  /** `Other` is an update that another pool put on the shared manager queue. */
  datatype Update = Restock | Free(item: Id) | Other

  datatype Worker =
    | Idle
    | Got(update: Update)     // popped an update, not yet processed
    | Stocking(item: Id)      // chose the replacement, not yet pushed

  /** `unqueued` counts callers between `ready.pop` and the restock request. `gone` are the
      instances dropped by their holder or destroyed by the manager. */
  datatype State = State(
    count: nat, blockMode: bool, limit: nat, alive: bool,
    ready: seq<Id>, updates: seq<Update>, worker: Worker, recycled: seq<Id>,
    held: set<Id>, unqueued: nat,
    made: nat, dropped: set<Id>, destroyed: set<Id>,
    restockFailures: nat, readyOverflow: nat, peak: nat)

  datatype Action =
    | TakeReady            // rt_new: ready.pop() returned an instance
    | RequestRestock       // rt_new: upgrade succeeded, wake_up
    | ManagerGone          // rt_new: upgrade failed
    | DropManager          // the last reference to the manager goes
    | Delete(item: Id)     // rt_delete: wake_up
    | DropHeld(item: Id)   // the holder drops its box
    | PushOther            // another pool's update
    | WorkerPop
    | WorkerProcess
    | WorkerPush

  const QUEUE_SIZE: nat := 8192

  function InitiallyReady(count: nat, blockMode: bool): nat
    requires count > 0
  {
    if blockMode then count - 1 else count
  }

  /** `new` asserts a positive count, at least three in block mode. */
  predicate CountOk(count: nat, blockMode: bool) {
    count > 0 && (blockMode ==> count >= 3)
  }

  function Initial(count: nat, blockMode: bool): State
    requires CountOk(count, blockMode)
  {
    var n := InitiallyReady(count, blockMode);
    State(count, blockMode, n, true, seq(n, i requires 0 <= i => i), [], Idle, [], {}, 0, n, {}, {}, 0, 0, 0)
  }

  predicate Enabled(s: State, a: Action) {
    match a
    case TakeReady => s.ready != []
    case RequestRestock => s.unqueued > 0 && s.alive
    case ManagerGone => s.unqueued > 0 && !s.alive
    case DropManager => s.alive
    case Delete(i) => i in s.held
    case DropHeld(i) => i in s.held
    case PushOther => s.alive && |s.updates| < QUEUE_SIZE
    case WorkerPop => s.worker.Idle? && s.updates != []
    case WorkerProcess => s.worker.Got?
    case WorkerPush => s.worker.Stocking?
  }

  /** Instances on their way to destruction or recycling. */
  function Pending(us: seq<Update>): seq<Id> {
    if us == [] then []
    else (if us[0].Free? then [us[0].item] else []) + Pending(us[1..])
  }

  /** The instance the worker has popped and not yet reclaimed. */
  function Reclaiming(s: State): seq<Id> {
    if s.worker.Got? && s.worker.update.Free? then [s.worker.update.item] else []
  }

  /** Instances held or awaiting deletion. */
  function Demand(s: State): nat {
    |s.held| + |Reclaiming(s)| + |Pending(s.updates)|
  }

  function Observe(s: State): State {
    s.(peak := Max(s.peak, Demand(s)))
  }

  function Process(s: State): State
    requires s.worker.Got?
  {
    match s.worker.update
    case Other => s.(worker := Idle)
    case Free(i) =>
      if s.blockMode then s.(worker := Idle, recycled := s.recycled + [i])
      else s.(worker := Idle, destroyed := s.destroyed + {i})
    case Restock =>
      if s.blockMode && s.recycled != [] then
        s.(worker := Stocking(s.recycled[|s.recycled| - 1]), recycled := s.recycled[..|s.recycled| - 1])
      else
        s.(worker := Stocking(s.made), made := s.made + 1)
  }

  function Act(s: State, a: Action): State
    requires Enabled(s, a)
  {
    match a
    case TakeReady =>
      s.(ready := s.ready[1..], held := s.held + {s.ready[0]}, unqueued := s.unqueued + 1)
    case RequestRestock =>
      if |s.updates| < QUEUE_SIZE then s.(unqueued := s.unqueued - 1, updates := s.updates + [Restock])
      else s.(unqueued := s.unqueued - 1, restockFailures := s.restockFailures + 1)
    case ManagerGone => s.(unqueued := s.unqueued - 1, restockFailures := s.restockFailures + 1)
    case DropManager => s.(alive := false)
    case Delete(i) =>
      // On overflow, and without a manager, the instance stays with its holder.
      if s.alive && |s.updates| < QUEUE_SIZE then s.(held := s.held - {i}, updates := s.updates + [Free(i)]) else s
    case DropHeld(i) => s.(held := s.held - {i}, dropped := s.dropped + {i})
    case PushOther => s.(updates := s.updates + [Other])
    case WorkerPop => s.(worker := Got(s.updates[0]), updates := s.updates[1..])
    case WorkerProcess => Process(s)
    case WorkerPush =>
      if |s.ready| < s.count then s.(worker := Idle, ready := s.ready + [s.worker.item])
      else s.(worker := Idle, readyOverflow := s.readyOverflow + 1, destroyed := s.destroyed + {s.worker.item})
  }

  function Apply(s: State, a: Action): State
    requires Enabled(s, a)
  {
    Observe(Act(s, a))
  }

  predicate Runs(s: State, acts: seq<Action>)
    decreases |acts|
  {
    acts == [] || (Enabled(s, acts[0]) && Runs(Apply(s, acts[0]), acts[1..]))
  }

  function Exec(s: State, acts: seq<Action>): State
    requires Runs(s, acts)
    decreases |acts|
  {
    if acts == [] then s else Exec(Apply(s, acts[0]), acts[1..])
  }

  // ---- Slots ----

  function Restocks(us: seq<Update>): nat {
    if us == [] then 0 else (if us[0].Restock? then 1 else 0) + Restocks(us[1..])
  }

  /** Restocks owed by the worker's current update. */
  function InHand(s: State): nat {
    if (s.worker.Got? && s.worker.update.Restock?) || s.worker.Stocking? then 1 else 0
  }

  ghost predicate SlotInv(s: State) {
    && CountOk(s.count, s.blockMode)
    && s.limit == InitiallyReady(s.count, s.blockMode)
    && |s.ready| + s.unqueued + Restocks(s.updates) + InHand(s) + s.restockFailures == s.limit
    && s.readyOverflow == 0
  }

  lemma {:induction false} RestocksAppend(us: seq<Update>, u: Update)
    ensures Restocks(us + [u]) == Restocks(us) + (if u.Restock? then 1 else 0)
  {
    if us == [] {
      assert [u][1..] == [];
    } else {
      assert (us + [u])[1..] == us[1..] + [u];
      RestocksAppend(us[1..], u);
    }
  }

  lemma SlotWorker(s: State, a: Action)
    requires SlotInv(s) && Enabled(s, a) && (a.WorkerPop? || a.WorkerProcess? || a.WorkerPush?)
    ensures SlotInv(Apply(s, a))
  {
  }

  lemma SlotQueue(s: State, a: Action, u: Update)
    requires SlotInv(s) && Enabled(s, a)
    requires (a.RequestRestock? && u.Restock?) || (a.PushOther? && u.Other?) || (a.Delete? && u == Free(a.item))
    ensures SlotInv(Apply(s, a))
  {
    RestocksAppend(s.updates, u);
  }

  lemma SlotStep(s: State, a: Action)
    requires SlotInv(s) && Enabled(s, a)
    ensures SlotInv(Apply(s, a))
  {
    match a
    case RequestRestock => SlotQueue(s, a, Restock);
    case PushOther => SlotQueue(s, a, Other);
    case Delete(x) => SlotQueue(s, a, Free(x));
    case WorkerPop => SlotWorker(s, a);
    case WorkerProcess => SlotWorker(s, a);
    case WorkerPush => SlotWorker(s, a);
    case _ =>
  }

  lemma {:induction false} SlotRuns(s: State, acts: seq<Action>)
    requires SlotInv(s) && Runs(s, acts)
    ensures SlotInv(Exec(s, acts)) && Exec(s, acts).count == s.count && Exec(s, acts).limit == s.limit
    ensures Exec(s, acts).restockFailures >= s.restockFailures
    decreases |acts|
  {
    if acts != [] {
      SlotStep(s, acts[0]);
      SlotRuns(Apply(s, acts[0]), acts[1..]);
    }
  }

  /** Under every interleaving: ready instances, restocks owed (popped but unqueued, queued, or
      in the worker's hand) and lost restocks always total the initial stock, so the ready
      queue never overflows. */
  lemma SlotsConserved(count: nat, blockMode: bool, acts: seq<Action>)
    requires CountOk(count, blockMode) && Runs(Initial(count, blockMode), acts)
    ensures var s := Exec(Initial(count, blockMode), acts);
      && |s.ready| + s.unqueued + Restocks(s.updates) + InHand(s) + s.restockFailures
         == (if blockMode then count - 1 else count)
      && |s.ready| <= count && s.readyOverflow == 0
      && (s.worker.Stocking? ==> |s.ready| < count)
  {
    SlotRuns(Initial(count, blockMode), acts);
  }

  /** Nothing is ready and no replacement is on its way or can still be asked for. */
  predicate Exhausted(s: State) {
    s.ready == [] && Restocks(s.updates) == 0 && InHand(s) == 0 && (s.alive ==> s.unqueued == 0)
  }

  lemma ExhaustedStep(s: State, a: Action)
    requires Exhausted(s) && Enabled(s, a)
    ensures Exhausted(Apply(s, a)) && !a.TakeReady?
  {
    RestocksAppend(s.updates, Other);
    if a.Delete? {
      RestocksAppend(s.updates, Free(a.item));
    }
  }

  lemma {:induction false} ExhaustedRuns(s: State, acts: seq<Action>)
    requires Exhausted(s) && Runs(s, acts)
    ensures Exhausted(Exec(s, acts)) && TakeReady !in acts
    decreases |acts|
  {
    if acts != [] {
      ExhaustedStep(s, acts[0]);
      ExhaustedRuns(Apply(s, acts[0]), acts[1..]);
    }
  }

  /** While the manager lives, the pool is exhausted exactly when every restock was lost. */
  lemma ExhaustedIffAllLost(count: nat, blockMode: bool, acts: seq<Action>)
    requires CountOk(count, blockMode) && Runs(Initial(count, blockMode), acts)
    ensures var s := Exec(Initial(count, blockMode), acts);
      && (s.restockFailures == s.limit ==> Exhausted(s))
      && (s.alive && Exhausted(s) ==> s.restockFailures == s.limit)
  {
    SlotRuns(Initial(count, blockMode), acts);
  }

  /** Exhaustion is permanent: no run from there ever takes an instance. */
  lemma ExhaustionIsPermanent(count: nat, blockMode: bool, before: seq<Action>, after: seq<Action>)
    requires CountOk(count, blockMode) && Runs(Initial(count, blockMode), before)
    requires var s := Exec(Initial(count, blockMode), before);
      (s.restockFailures == s.limit || Exhausted(s)) && Runs(s, after)
    ensures TakeReady !in after
  {
    ExhaustedIffAllLost(count, blockMode, before);
    ExhaustedRuns(Exec(Initial(count, blockMode), before), after);
  }

  /** Steps left before the manager can have pushed the next replacement. */
  function Distance(s: State): nat {
    3 * |s.updates| + 4 * s.unqueued + (if s.worker.Got? then 2 else if s.worker.Stocking? then 1 else 0)
  }

  /** A schedule of manager steps and pending requests that makes an instance ready. */
  lemma {:induction false} Refill(s: State) returns (acts: seq<Action>)
    requires SlotInv(s) && !Exhausted(s)
    ensures Runs(s, acts) && Exec(s, acts).ready != []
    decreases Distance(s)
  {
    if s.ready != [] {
      return [];
    }
    var next := if s.worker.Stocking? then WorkerPush
                else if s.worker.Got? then WorkerProcess
                else if s.updates != [] then WorkerPop
                else RequestRestock;
    SlotStep(s, next);
    RefillStep(s, next);
    var rest := Refill(Apply(s, next));
    acts := [next] + rest;
    assert acts[1..] == rest;
  }

  lemma RefillStep(s: State, next: Action)
    requires !Exhausted(s) && Enabled(s, next) && s.ready == [] && s.count > 0
    requires next.WorkerPush? || next.WorkerProcess? || next.WorkerPop? || (next.RequestRestock? && s.updates == [])
    ensures !Exhausted(Apply(s, next)) && Distance(Apply(s, next)) < Distance(s)
  {
    RestocksAppend(s.updates, Restock);
  }

  /** The pool can serve another instance some day if and only if it is not exhausted: one is
      ready, a replacement is owed by the manager, or a live manager is about to be asked. */
  lemma RecoverableIff(count: nat, blockMode: bool, before: seq<Action>)
    requires CountOk(count, blockMode) && Runs(Initial(count, blockMode), before)
    ensures var s := Exec(Initial(count, blockMode), before);
      (exists acts :: Runs(s, acts) && Exec(s, acts).ready != [])
      <==> |s.ready| + Restocks(s.updates) + InHand(s) > 0 || (s.alive && s.unqueued > 0)
  {
    var s := Exec(Initial(count, blockMode), before);
    SlotRuns(Initial(count, blockMode), before);
    if !Exhausted(s) {
      var acts := Refill(s);
    } else {
      forall acts | Runs(s, acts)
        ensures Exec(s, acts).ready == []
      {
        ExhaustedRuns(s, acts);
      }
    }
  }

  /** Sustained overflow does exhaust a pool whose manager lives: with the update queue full,
      every instance taken loses its slot. */
  lemma {:induction false} OverflowExhausts(s: State) returns (acts: seq<Action>)
    requires SlotInv(s) && s.alive && s.worker.Idle? && s.unqueued == 0
    requires Restocks(s.updates) == 0 && |s.updates| <= QUEUE_SIZE
    ensures Runs(s, acts) && Exec(s, acts).restockFailures == s.limit && Exec(s, acts).alive
    decreases QUEUE_SIZE - |s.updates|, |s.ready|
  {
    if |s.updates| < QUEUE_SIZE {
      RestocksAppend(s.updates, Other);
      SlotStep(s, PushOther);
      var rest := OverflowExhausts(Apply(s, PushOther));
      acts := [PushOther] + rest;
      assert acts[1..] == rest;
    } else if s.ready != [] {
      var t := Apply(s, TakeReady);
      SlotStep(s, TakeReady);
      SlotStep(t, RequestRestock);
      var rest := OverflowExhausts(Apply(t, RequestRestock));
      var later := [RequestRestock] + rest;
      assert later[1..] == rest;
      acts := [TakeReady] + later;
      assert acts[1..] == later;
    } else {
      acts := [];
    }
  }

  lemma ExhaustionIsReachable(count: nat, blockMode: bool) returns (acts: seq<Action>)
    requires count > 0 && (blockMode ==> count > 2)
    ensures Runs(Initial(count, blockMode), acts)
    ensures var s := Exec(Initial(count, blockMode), acts); s.restockFailures == s.limit && s.alive
  {
    acts := OverflowExhausts(Initial(count, blockMode));
    SlotRuns(Initial(count, blockMode), acts);
  }

  // ---- Places ----

  function InWorker(s: State): seq<Id> {
    if s.worker.Stocking? then [s.worker.item] else []
  }

  function Count(xs: seq<Id>, i: Id): nat {
    if xs == [] then 0 else (if xs[0] == i then 1 else 0) + Count(xs[1..], i)
  }

  ghost function Member(xs: set<Id>, i: Id): nat {
    if i in xs then 1 else 0
  }

  /** How many places instance `i` is in. */
  ghost function PlacesOf(s: State, i: Id): nat {
    Count(s.ready, i) + Count(InWorker(s), i) + Member(s.held, i)
    + Count(Reclaiming(s), i) + Count(Pending(s.updates), i)
    + Count(s.recycled, i) + Member(s.dropped, i) + Member(s.destroyed, i)
  }

  /** Every instance made is in exactly one place, and nothing else is in any. */
  ghost predicate PlaceInv(s: State) {
    forall i: Id :: PlacesOf(s, i) == if i < s.made then 1 else 0
  }

  lemma {:induction false} PendingAppend(us: seq<Update>, u: Update)
    ensures Pending(us + [u]) == Pending(us) + (if u.Free? then [u.item] else [])
  {
    if us == [] {
      PendingFront(u, []);
      assert us + [u] == [u];
    } else {
      PendingAppend(us[1..], u);
      PendingFront(us[0], us[1..]);
      PendingFront(us[0], us[1..] + [u]);
      assert us == [us[0]] + us[1..];
      Regroup([us[0]], us[1..], [u]);
      Regroup(if us[0].Free? then [us[0].item] else [], Pending(us[1..]), if u.Free? then [u.item] else []);
    }
  }

  lemma PendingFront(u: Update, rest: seq<Update>)
    ensures Pending([u] + rest) == (if u.Free? then [u.item] else []) + Pending(rest)
  {
    assert ([u] + rest)[1..] == rest;
  }

  lemma {:induction false} CountAppend(xs: seq<Id>, x: Id, i: Id)
    ensures Count(xs + [x], i) == Count(xs, i) + (if x == i then 1 else 0)
  {
    if xs == [] {
      assert [x][1..] == [];
    } else {
      assert (xs + [x])[1..] == xs[1..] + [x];
      CountAppend(xs[1..], x, i);
    }
  }

  lemma CountOne(x: Id, i: Id)
    ensures Count([x], i) == if x == i then 1 else 0
  {
    assert [x][1..] == [];
  }

  lemma CountLast(xs: seq<Id>, i: Id)
    requires xs != []
    ensures Count(xs, i) == Count(xs[..|xs| - 1], i) + (if xs[|xs| - 1] == i then 1 else 0)
  {
    CountAppend(xs[..|xs| - 1], xs[|xs| - 1], i);
    assert xs == xs[..|xs| - 1] + [xs[|xs| - 1]];
  }

  lemma PlaceInvAt(s: State, i: Id)
    requires PlaceInv(s)
    ensures PlacesOf(s, i) == if i < s.made then 1 else 0
  {
  }

  lemma TakeReadyPlaces(s: State, i: Id)
    requires PlaceInv(s) && s.ready != []
    ensures PlacesOf(Apply(s, TakeReady), i) == PlacesOf(s, i)
  {
    PlaceInvAt(s, s.ready[0]);
  }

  lemma DeletePlaces(s: State, x: Id, i: Id)
    requires x in s.held
    ensures PlacesOf(Apply(s, Delete(x)), i) == PlacesOf(s, i)
  {
    if s.alive && |s.updates| < QUEUE_SIZE {
      PendingAppend(s.updates, Free(x));
      CountAppend(Pending(s.updates), x, i);
    }
  }

  lemma DropPlaces(s: State, x: Id, i: Id)
    requires PlaceInv(s) && x in s.held
    ensures PlacesOf(Apply(s, DropHeld(x)), i) == PlacesOf(s, i)
  {
    PlaceInvAt(s, x);
  }

  lemma RequestPlaces(s: State, a: Action, i: Id)
    requires Enabled(s, a) && (a.RequestRestock? || a.ManagerGone? || a.DropManager? || a.PushOther?)
    ensures PlacesOf(Apply(s, a), i) == PlacesOf(s, i)
  {
    PendingAppend(s.updates, if a.PushOther? then Other else Restock);
    assert Pending(s.updates) + [] == Pending(s.updates);
  }

  lemma PopPlaces(s: State, i: Id)
    requires Enabled(s, WorkerPop)
    ensures PlacesOf(Apply(s, WorkerPop), i) == PlacesOf(s, i)
  {
    if s.updates[0].Free? {
      CountOne(s.updates[0].item, i);
      assert Pending(s.updates) == [s.updates[0].item] + Pending(s.updates[1..]);
      assert Pending(s.updates)[1..] == Pending(s.updates[1..]);
    } else {
      assert Pending(s.updates) == Pending(s.updates[1..]);
    }
  }

  lemma ReclaimPlaces(s: State, i: Id)
    requires PlaceInv(s) && s.worker.Got? && s.worker.update.Free?
    ensures PlacesOf(Apply(s, WorkerProcess), i) == PlacesOf(s, i)
  {
    var x := s.worker.update.item;
    PlaceInvAt(s, x);
    CountOne(x, x);
    CountOne(x, i);
    CountAppend(s.recycled, x, i);
  }

  lemma RestockPlaces(s: State, i: Id)
    requires s.worker.Got? && !s.worker.update.Free?
    ensures PlacesOf(Apply(s, WorkerProcess), i)
      == PlacesOf(s, i) + (if Apply(s, WorkerProcess).made > s.made && i == s.made then 1 else 0)
  {
    if s.recycled != [] {
      CountLast(s.recycled, i);
      CountOne(s.recycled[|s.recycled| - 1], i);
    }
    CountOne(s.made, i);
  }

  lemma PushPlaces(s: State, i: Id)
    requires SlotInv(s) && Enabled(s, WorkerPush)
    ensures PlacesOf(Apply(s, WorkerPush), i) == PlacesOf(s, i)
  {
    CountAppend(s.ready, s.worker.item, i);
    CountOne(s.worker.item, i);
  }

  lemma PlaceStep(s: State, a: Action)
    requires PlaceInv(s) && SlotInv(s) && Enabled(s, a)
    ensures PlaceInv(Apply(s, a))
  {
    forall i: Id
      ensures PlacesOf(Apply(s, a), i) == if i < Apply(s, a).made then 1 else 0
    {
      PlaceInvAt(s, i);
      match a
      case TakeReady => TakeReadyPlaces(s, i);
      case WorkerPop => PopPlaces(s, i);
      case WorkerProcess => if s.worker.update.Free? { ReclaimPlaces(s, i); } else { RestockPlaces(s, i); }
      case WorkerPush => PushPlaces(s, i);
      case Delete(x) => DeletePlaces(s, x, i);
      case DropHeld(x) => DropPlaces(s, x, i);
      case _ => RequestPlaces(s, a, i);
    }
  }

  // ---- How many instances are ever made, in block mode ----

  ghost predicate MadeInv(s: State) {
    && s.made == |s.ready| + |InWorker(s)| + |s.held| + |Reclaiming(s)| + |Pending(s.updates)| + |s.recycled|
                 + |s.dropped| + |s.destroyed|
    && (s.blockMode ==> s.destroyed == {} && s.made <= s.limit + s.peak + |s.dropped|)
    && Demand(s) <= s.peak
  }

  lemma MadeTake(s: State)
    requires PlaceInv(s) && MadeInv(s) && Enabled(s, TakeReady)
    ensures MadeInv(Apply(s, TakeReady))
  {
    PlaceInvAt(s, s.ready[0]);
  }

  lemma MadeDelete(s: State, x: Id)
    requires PlaceInv(s) && MadeInv(s) && Enabled(s, Delete(x))
    ensures MadeInv(Apply(s, Delete(x)))
  {
    PlaceInvAt(s, x);
    PendingAppend(s.updates, Free(x));
  }

  lemma MadeDrop(s: State, x: Id)
    requires PlaceInv(s) && MadeInv(s) && Enabled(s, DropHeld(x))
    ensures MadeInv(Apply(s, DropHeld(x)))
  {
    PlaceInvAt(s, x);
  }

  lemma MadeQueue(s: State, a: Action)
    requires MadeInv(s) && Enabled(s, a)
    requires a.RequestRestock? || a.ManagerGone? || a.DropManager? || a.PushOther? || a.WorkerPop?
    ensures MadeInv(Apply(s, a))
  {
    PendingAppend(s.updates, if a.PushOther? then Other else Restock);
  }

  lemma MadeReclaim(s: State)
    requires PlaceInv(s) && MadeInv(s) && s.worker.Got? && s.worker.update.Free?
    ensures MadeInv(Apply(s, WorkerProcess))
  {
    PlaceInvAt(s, s.worker.update.item);
  }

  lemma MadeRestock(s: State)
    requires SlotInv(s) && MadeInv(s) && s.worker.Got? && !s.worker.update.Free?
    ensures MadeInv(Apply(s, WorkerProcess))
  {
  }

  lemma MadePush(s: State)
    requires SlotInv(s) && MadeInv(s) && s.worker.Stocking?
    ensures MadeInv(Apply(s, WorkerPush))
  {
  }

  lemma MadeStep(s: State, a: Action)
    requires PlaceInv(s) && SlotInv(s) && MadeInv(s) && Enabled(s, a)
    ensures MadeInv(Apply(s, a))
  {
    match a
    case TakeReady => MadeTake(s);
    case Delete(x) => MadeDelete(s, x);
    case DropHeld(x) => MadeDrop(s, x);
    case WorkerProcess => if s.worker.update.Free? { MadeReclaim(s); } else { MadeRestock(s); }
    case WorkerPush => MadePush(s);
    case _ => MadeQueue(s, a);
  }

  lemma InitialPlaces(count: nat, blockMode: bool)
    requires CountOk(count, blockMode)
    ensures PlaceInv(Initial(count, blockMode)) && MadeInv(Initial(count, blockMode))
  {
    var s := Initial(count, blockMode);
    forall i: Id
      ensures Count(s.ready, i) == if i < s.made then 1 else 0
    {
      IotaCount(s.made, i);
    }
  }

  lemma {:induction false} IotaCount(n: nat, i: Id)
    ensures Count(seq(n, k requires 0 <= k => k), i) == if i < n then 1 else 0
  {
    if n > 0 {
      var xs := seq(n, k requires 0 <= k => k);
      IotaCount(n - 1, i);
      assert xs[..n - 1] == seq(n - 1, k requires 0 <= k => k);
      CountLast(xs, i);
    }
  }

  lemma {:induction false} PlaceRuns(s: State, acts: seq<Action>)
    requires PlaceInv(s) && SlotInv(s) && MadeInv(s) && Runs(s, acts)
    ensures PlaceInv(Exec(s, acts)) && MadeInv(Exec(s, acts))
    decreases |acts|
  {
    if acts != [] {
      SlotStep(s, acts[0]);
      PlaceStep(s, acts[0]);
      MadeStep(s, acts[0]);
      PlaceRuns(Apply(s, acts[0]), acts[1..]);
    }
  }

  /** Every instance made is in exactly one place: ready, in the worker's hand, held, awaiting
      deletion, recycled, or gone; so none is handed out twice. */
  lemma InstancesNeverShared(count: nat, blockMode: bool, acts: seq<Action>, i: Id)
    requires CountOk(count, blockMode) && Runs(Initial(count, blockMode), acts)
    ensures var s := Exec(Initial(count, blockMode), acts);
      PlacesOf(s, i) == if i < s.made then 1 else 0
  {
    InitialPlaces(count, blockMode);
    PlaceRuns(Initial(count, blockMode), acts);
  }

  /** In block mode nothing is destroyed, and the factory is called at most as often as the
      initial stock plus the peak number of instances held or awaiting deletion, plus those
      their holder dropped instead of returning. */
  lemma BlockModeReuses(count: nat, acts: seq<Action>)
    requires CountOk(count, true) && Runs(Initial(count, true), acts)
    ensures var s := Exec(Initial(count, true), acts);
      s.destroyed == {} && s.made <= count - 1 + s.peak + |s.dropped|
  {
    InitialPlaces(count, true);
    PlaceRuns(Initial(count, true), acts);
    SlotRuns(Initial(count, true), acts);
    ModeFixed(Initial(count, true), acts);
  }

  lemma {:induction false} ModeFixed(s: State, acts: seq<Action>)
    requires Runs(s, acts)
    ensures Exec(s, acts).blockMode == s.blockMode && Exec(s, acts).count == s.count
    decreases |acts|
  {
    if acts != [] {
      ModeFixed(Apply(s, acts[0]), acts[1..]);
    }
  }

  // ---- What becomes of an instance given back ----

  lemma RunCons(s: State, a: Action, rest: seq<Action>)
    requires Enabled(s, a) && Runs(Apply(s, a), rest)
    ensures Runs(s, [a] + rest) && Exec(s, [a] + rest) == Exec(Apply(s, a), rest)
  {
    assert ([a] + rest)[1..] == rest;
  }

  predicate ByWorker(acts: seq<Action>) {
    forall a | a in acts :: a.WorkerPop? || a.WorkerProcess? || a.WorkerPush?
  }

  /** The last update still to be processed frees the instance. */
  predicate FreesLast(s: State, i: Id) {
    if s.updates == [] then s.worker == Got(Free(i)) else s.updates[|s.updates| - 1] == Free(i)
  }

  predicate Reclaimed(s: State, i: Id) {
    if s.blockMode then i in s.recycled else i in s.destroyed
  }

  function NextByWorker(s: State): Action {
    match s.worker
    case Idle => WorkerPop
    case Got(_) => WorkerProcess
    case Stocking(_) => WorkerPush
  }

  function WorkerLeft(s: State): nat {
    match s.worker
    case Got(_) => 2
    case Stocking(_) => 1
    case Idle => 0
  }

  lemma ReclaimStep(s: State, i: Id)
    requires FreesLast(s, i) && s.updates != []
    ensures var next := NextByWorker(s);
      && Enabled(s, next)
      && var t := Apply(s, next);
        && FreesLast(t, i) && t.held == s.held && t.blockMode == s.blockMode
        && (|t.updates| < |s.updates| || (|t.updates| == |s.updates| && WorkerLeft(t) < WorkerLeft(s)))
  {
  }

  lemma {:induction false} WorkerReclaims(s: State, i: Id) returns (acts: seq<Action>)
    requires FreesLast(s, i)
    ensures Runs(s, acts) && ByWorker(acts)
    ensures var t := Exec(s, acts); Reclaimed(t, i) && t.held == s.held && t.blockMode == s.blockMode
    decreases |s.updates|, WorkerLeft(s)
  {
    if s.updates == [] {
      RunCons(s, WorkerProcess, []);
      return [WorkerProcess] + [];
    }
    var next := NextByWorker(s);
    ReclaimStep(s, i);
    var rest := WorkerReclaims(Apply(s, next), i);
    RunCons(s, next, rest);
    acts := [next] + rest;
  }

  /** A deletion keeps the instance with its holder if and only if the manager is gone or its queue
      is full, and otherwise hands it to the manager. */
  lemma DeleteKeepsIff(s: State, i: Id)
    requires i in s.held
    ensures i in Apply(s, Delete(i)).held <==> !s.alive || |s.updates| >= QUEUE_SIZE
    ensures i !in Apply(s, Delete(i)).held ==> FreesLast(Apply(s, Delete(i)), i)
  {
  }

  /** From every reachable state with a live manager and room in its queue, a deletion and steps of
      the manager recycle a held instance in block mode and destroy it otherwise. */
  lemma DeletedIsReclaimed(count: nat, blockMode: bool, before: seq<Action>, i: Id) returns (acts: seq<Action>)
    requires CountOk(count, blockMode) && Runs(Initial(count, blockMode), before)
    requires var s := Exec(Initial(count, blockMode), before); s.alive && |s.updates| < QUEUE_SIZE && i in s.held
    ensures var s := Exec(Initial(count, blockMode), before);
      && Runs(s, [Delete(i)] + acts) && ByWorker(acts)
      && var t := Exec(s, [Delete(i)] + acts);
        i !in t.held && (if blockMode then i in t.recycled else i in t.destroyed)
  {
    var s := Exec(Initial(count, blockMode), before);
    ModeFixed(Initial(count, blockMode), before);
    DeleteKeepsIff(s, i);
    acts := WorkerReclaims(Apply(s, Delete(i)), i);
    RunCons(s, Delete(i), acts);
  }

  /** In every reachable state: a restock in block mode makes the last recycled instance ready and
      no new one, if there is one; otherwise exactly one is made. */
  lemma RestockReuses(count: nat, blockMode: bool, before: seq<Action>)
    requires CountOk(count, blockMode) && Runs(Initial(count, blockMode), before)
    requires Exec(Initial(count, blockMode), before).worker == Got(Restock)
    ensures var s := Exec(Initial(count, blockMode), before);
      && Runs(s, [WorkerProcess] + ([WorkerPush] + []))
      && var t := Exec(s, [WorkerProcess] + ([WorkerPush] + []));
        && (blockMode && s.recycled != [] ==>
              t.made == s.made && t.recycled == s.recycled[..|s.recycled| - 1]
              && t.ready == s.ready + [s.recycled[|s.recycled| - 1]])
        && (!(blockMode && s.recycled != []) ==>
              t.made == s.made + 1 && t.ready == s.ready + [s.made] && t.recycled == s.recycled)
  {
    var s := Exec(Initial(count, blockMode), before);
    ModeFixed(Initial(count, blockMode), before);
    SlotRuns(Initial(count, blockMode), before);
    RestockPush(s, if blockMode && s.recycled != [] then s.recycled[|s.recycled| - 1] else s.made);
  }

  lemma RestockPush(s: State, i: Id)
    requires SlotInv(s) && s.worker == Got(Restock)
    requires i == if s.blockMode && s.recycled != [] then s.recycled[|s.recycled| - 1] else s.made
    ensures Runs(s, [WorkerProcess] + ([WorkerPush] + []))
    ensures var t, u := Exec(s, [WorkerProcess] + ([WorkerPush] + [])), Process(s);
      t.ready == s.ready + [i] && t.made == u.made && t.recycled == u.recycled
  {
    var u := Apply(s, WorkerProcess);
    SlotStep(s, WorkerProcess);
    RunCons(u, WorkerPush, []);
    RunCons(s, WorkerProcess, [WorkerPush] + []);
  }

  // ---- After the manager ----

  lemma {:induction false} GoneRuns(s: State, acts: seq<Action>)
    requires !s.alive && Runs(s, acts)
    ensures !Exec(s, acts).alive && RequestRestock !in acts && PushOther !in acts
    ensures |Exec(s, acts).updates| <= |s.updates|
    decreases |acts|
  {
    if acts != [] {
      GoneRuns(Apply(s, acts[0]), acts[1..]);
    }
  }

  /** Once its last reference is dropped, the manager is never asked again: its queue only shrinks,
      and every caller that still owes a request loses its slot. */
  lemma DroppedManagerIsGone(s: State, acts: seq<Action>)
    requires s.alive && Runs(Apply(s, DropManager), acts)
    ensures var t := Exec(Apply(s, DropManager), acts);
      && !t.alive && RequestRestock !in acts && PushOther !in acts && |t.updates| <= |s.updates|
      && (t.unqueued > 0 ==> Enabled(t, ManagerGone) && Apply(t, ManagerGone).restockFailures == t.restockFailures + 1)
  {
    GoneRuns(Apply(s, DropManager), acts);
  }
}
