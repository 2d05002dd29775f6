/** The browser's item list and its cursors. */
module Browser {

  import opened Util

  datatype Kind = Loop | Scene | Patch | LoopTray | SceneTray | Division

  /** Modification times are in nanoseconds. */
  datatype Item = Item(kind: Kind, name: string, defaultName: bool, modified: Option<int>, matchId: Option<int>)

  const DIVIDER := Item(Division, "", true, None, None)
  const SECOND: nat := 1_000_000_000

  predicate Real(item: Item) {
    item.kind != Division
  }

  /** How many real items come before index `i`. */
  function Rank(items: seq<Item>, i: nat): nat
    requires i <= |items|
  {
    if i == 0 then 0 else Rank(items, i - 1) + (if Real(items[i - 1]) then 1 else 0)
  }

  function Reals(items: seq<Item>): nat {
    Rank(items, |items|)
  }

  lemma {:induction false} RankMonotone(items: seq<Item>, i: nat, j: nat)
    requires i <= j <= |items|
    ensures Rank(items, i) <= Rank(items, j)
    ensures i < j && Real(items[i]) ==> Rank(items, i) < Rank(items, j)
    decreases j
  {
    if i < j {
      RankMonotone(items, i, j - 1);
    }
  }

  /** The real item with `t` real items before it. */
  predicate Has(items: seq<Item>, at: Option<nat>, t: int) {
    at.Some? && at.value < |items| && Real(items[at.value]) && Rank(items, at.value) == t
  }

  lemma HasUnique(items: seq<Item>, a: Option<nat>, b: Option<nat>, t: int)
    requires Has(items, a, t) && Has(items, b, t)
    ensures a == b
  {
    if a.value < b.value {
      RankMonotone(items, a.value, b.value);
    } else if b.value < a.value {
      RankMonotone(items, b.value, a.value);
    }
  }

  // ---- Moving by ranks ----

  /** The rank a move by `k` from index `cur` lands on. */
  function Landing(items: seq<Item>, cur: nat, k: int): int
    requires cur < |items|
  {
    var n := Reals(items);
    if k == 0 then
      if Real(items[cur]) then Rank(items, cur) else 0
    else if k < 0 then Max(Rank(items, cur) + k, 0)
    else
      var t := Rank(items, cur + 1) + k - 1;
      if t < n then t
      else if Real(items[|items| - 1]) then n - 1
      else 0
  }

  /** From a real item a move lands on the clamped rank, unless it runs past the end of a list
      that ends in a division: then it goes back to the first item. */
  lemma MoveIsClampedIff(items: seq<Item>, cur: nat, k: int)
    requires cur < |items| && Real(items[cur])
    ensures var n := Reals(items);
      Landing(items, cur, k) == Clamp(Rank(items, cur) + k, 0, n - 1)
      <==> (Real(items[|items| - 1]) || Rank(items, cur) + k < n || k <= 0 || n == 1)
  {
    RankMonotone(items, cur, |items|);
  }

  // ---- Moving by divisions ----

  /** The nearest division after `i`. */
  function DivisionAfter(items: seq<Item>, i: nat): Option<nat>
    decreases |items| - i
  {
    if i + 1 >= |items| then None
    else if !Real(items[i + 1]) then Some(i + 1)
    else DivisionAfter(items, i + 1)
  }

  function DivisionBefore(items: seq<Item>, i: nat): Option<nat>
    requires i <= |items|
  {
    if i == 0 then None
    else if !Real(items[i - 1]) then Some(i - 1)
    else DivisionBefore(items, i - 1)
  }

  lemma {:induction false} DivisionAfterInRange(items: seq<Item>, i: nat)
    requires i < |items|
    ensures DivisionAfter(items, i).Some? ==>
      var d := DivisionAfter(items, i).value;
      i < d < |items| && !Real(items[d]) && forall j | i < j < d :: Real(items[j])
    ensures DivisionAfter(items, i).None? ==> forall j | i < j < |items| :: Real(items[j])
    decreases |items| - i
  {
    if i + 1 < |items| && Real(items[i + 1]) {
      DivisionAfterInRange(items, i + 1);
    }
  }

  lemma {:induction false} DivisionBeforeInRange(items: seq<Item>, i: nat)
    requires i < |items|
    ensures DivisionBefore(items, i).Some? ==>
      var d := DivisionBefore(items, i).value;
      d < i && !Real(items[d]) && forall j | d < j < i :: Real(items[j])
    ensures DivisionBefore(items, i).None? ==> forall j | 0 <= j < i :: Real(items[j])
    decreases i
  {
    if i > 0 && Real(items[i - 1]) {
      DivisionBeforeInRange(items, i - 1);
    }
  }

  function FirstReal(items: seq<Item>): (at: Option<nat>)
    ensures at.Some? ==> Has(items, at, 0)
    ensures at.None? <==> Reals(items) == 0
  {
    FirstRealFrom(items, 0)
  }

  function FirstRealFrom(items: seq<Item>, i: nat): (at: Option<nat>)
    requires i <= |items| && Rank(items, i) == 0
    ensures at.Some? ==> Has(items, at, 0)
    ensures at.None? <==> Reals(items) == 0
    decreases |items| - i
  {
    if i == |items| then None
    else if Real(items[i]) then
      RankMonotone(items, i, |items|);
      Some(i)
    else FirstRealFrom(items, i + 1)
  }

  /** One step of a jump. */
  function JumpStep(items: seq<Item>, cur: nat, forward: bool, final: bool): (next: nat)
    requires cur < |items|
    ensures next < |items|
  {
    DivisionAfterInRange(items, cur);
    DivisionBeforeInRange(items, cur);
    if forward then
      var d := DivisionAfter(items, cur);
      if d.Some? && d.value + 1 < |items| then d.value + 1 else cur
    else
      var d := DivisionBefore(items, cur);
      if d.Some? then
        if final then d.value + 1
        else if d.value > 0 then d.value - 1
        else cur
      else if final then
        var first := FirstReal(items);
        if first.Some? then first.value else cur
      else cur
  }

  /** `steps` more steps of a jump. */
  function JumpSteps(items: seq<Item>, cur: nat, forward: bool, steps: nat): (next: nat)
    requires cur < |items|
    ensures next < |items|
    decreases steps
  {
    if steps == 0 then cur
    else JumpSteps(items, JumpStep(items, cur, forward, steps == 1), forward, steps - 1)
  }

  /** A backward jump takes one step more, to reach the head of the group. */
  function Jumped(items: seq<Item>, cur: nat, jump: int): (next: nat)
    requires cur < |items|
    ensures next < |items|
  {
    if jump == 0 then cur
    else if jump > 0 then JumpSteps(items, cur, true, jump)
    else JumpSteps(items, cur, false, -jump + 1)
  }

  /** How many divisions come before: the number of the group. */
  function Group(items: seq<Item>, i: nat): nat
    requires i <= |items|
  {
    if i == 0 then 0 else Group(items, i - 1) + (if Real(items[i - 1]) then 0 else 1)
  }

  lemma {:induction false} GroupFlat(items: seq<Item>, i: nat, j: nat)
    requires i <= j <= |items| && forall k | i <= k < j :: Real(items[k])
    ensures Group(items, i) == Group(items, j)
    decreases j
  {
    if i < j {
      GroupFlat(items, i, j - 1);
    }
  }

  /** Divisions only separate: none leads, none trails, no two meet. */
  predicate Tidy(items: seq<Item>) {
    && items != [] && Real(items[0]) && Real(items[|items| - 1])
    && forall i | 0 <= i < |items| - 1 :: Real(items[i]) || Real(items[i + 1])
  }

  /** The first item of its group. */
  predicate Head(items: seq<Item>, i: nat) {
    i < |items| && Real(items[i]) && (i == 0 || !Real(items[i - 1]))
  }

  lemma BesideDivision(items: seq<Item>, d: nat)
    requires Tidy(items) && d < |items| && !Real(items[d])
    ensures 0 < d < |items| - 1 && Real(items[d - 1]) && Real(items[d + 1])
  {
    assert d != 0 && d != |items| - 1;
  }

  lemma FirstIsHead(items: seq<Item>)
    requires items != [] && Real(items[0])
    ensures FirstReal(items) == Some(0)
  {
  }

  lemma StepForward(items: seq<Item>, cur: nat, final: bool)
    requires Tidy(items) && cur < |items| && Real(items[cur])
    ensures var next, total := JumpStep(items, cur, true, final), Group(items, |items|);
      && Real(items[next]) && Group(items, cur) <= total
      && Group(items, next) == Min(Group(items, cur) + 1, total)
      && (if Group(items, cur) == total then next == cur else Head(items, next))
  {
    DivisionAfterInRange(items, cur);
    var d := DivisionAfter(items, cur);
    if d.Some? {
      GroupFlat(items, cur, d.value);
      GroupGrows(items, d.value + 1, |items|);
      BesideDivision(items, d.value);
    } else {
      GroupFlat(items, cur, |items|);
    }
  }

  lemma {:induction false} GroupGrows(items: seq<Item>, i: nat, j: nat)
    requires i <= j <= |items|
    ensures Group(items, i) <= Group(items, j)
    decreases j
  {
    if i < j {
      GroupGrows(items, i, j - 1);
    }
  }

  lemma StepBackward(items: seq<Item>, cur: nat)
    requires Tidy(items) && cur < |items| && Real(items[cur])
    ensures var next := JumpStep(items, cur, false, false);
      Real(items[next]) && Group(items, next) == Max(Group(items, cur) - 1, 0)
  {
    DivisionBeforeInRange(items, cur);
    var d := DivisionBefore(items, cur);
    if d.Some? {
      GroupFlat(items, d.value + 1, cur);
      BesideDivision(items, d.value);
    } else {
      GroupFlat(items, 0, cur);
    }
  }

  lemma StepToHead(items: seq<Item>, cur: nat)
    requires Tidy(items) && cur < |items| && Real(items[cur])
    ensures var next := JumpStep(items, cur, false, true);
      Head(items, next) && Group(items, next) == Group(items, cur)
  {
    DivisionBeforeInRange(items, cur);
    var d := DivisionBefore(items, cur);
    if d.Some? {
      GroupFlat(items, d.value + 1, cur);
      BesideDivision(items, d.value);
    } else {
      GroupFlat(items, 0, cur);
      FirstIsHead(items);
    }
  }

  lemma {:induction false} JumpForward(items: seq<Item>, cur: nat, steps: nat)
    requires Tidy(items) && cur < |items| && Real(items[cur])
    ensures var next, total := JumpSteps(items, cur, true, steps), Group(items, |items|);
      && Group(items, next) == Min(Group(items, cur) + steps, total)
      && (if Group(items, cur) == total || steps == 0 then next == cur else Head(items, next))
    decreases steps
  {
    GroupGrows(items, cur, |items|);
    if steps > 0 {
      StepForward(items, cur, steps == 1);
      JumpForward(items, JumpStep(items, cur, true, steps == 1), steps - 1);
    }
  }

  lemma {:induction false} JumpBackward(items: seq<Item>, cur: nat, steps: nat)
    requires Tidy(items) && cur < |items| && Real(items[cur])
    ensures var next := JumpSteps(items, cur, false, steps + 1);
      Head(items, next) && Group(items, next) == Max(Group(items, cur) - steps, 0)
    decreases steps
  {
    if steps == 0 {
      StepToHead(items, cur);
    } else {
      StepBackward(items, cur);
      JumpBackward(items, JumpStep(items, cur, false, false), steps - 1);
    }
  }

  /** In a list whose divisions only separate, a jump goes to the head of the group that many
      groups on, clamped; only a forward jump within the last group does not move. */
  lemma JumpIsClamped(items: seq<Item>, cur: nat, jump: int, next: nat)
    requires Tidy(items) && cur < |items| && Real(items[cur]) && jump != 0
    requires next == Jumped(items, cur, jump)
    ensures Group(items, next) == Clamp(Group(items, cur) + jump, 0, Group(items, |items|))
    ensures if jump > 0 && Group(items, cur) == Group(items, |items|) then next == cur else Head(items, next)
  {
    GroupGrows(items, cur, |items|);
    if jump > 0 {
      JumpForward(items, cur, jump);
    } else {
      JumpBackward(items, cur, -jump);
    }
  }

  // ---- Divisions by time ----

  /** Whole seconds by which `next` is older than `current`, towards zero. */
  function CompareDelta(next: Item, current: Item): int {
    if next.kind == current.kind && (next.kind == Loop || next.kind == Scene)
       && current.modified.Some? && next.modified.Some?
    then
      var d := current.modified.value - next.modified.value;
      if d >= 0 then Min(d / SECOND, MAX_I64) else -Min(-d / SECOND, MAX_I64)
    else 0
  }

  predicate Together(current: Item, next: Item, maxDelta: int) {
    && CompareDelta(next, current) < maxDelta
    && ((current.defaultName && next.defaultName) || !Real(current) || !Real(next))
  }

  function Divided(items: seq<Item>, maxDelta: int): seq<Item> {
    if |items| < 2 then items
    else if Together(items[0], items[1], maxDelta) then [items[0]] + Divided(items[1..], maxDelta)
    else [items[0], DIVIDER] + Divided(items[1..], maxDelta)
  }

  /** Two items are close by their times: with a positive bound, if the next is less than that many
      seconds older; otherwise, if it is a second newer than the bound says; and if they have no
      times to compare, whenever the bound is positive. */
  lemma CloseIff(current: Item, next: Item, maxDelta: I32)
    ensures var timed := current.kind == next.kind && (current.kind == Loop || current.kind == Scene)
                         && current.modified.Some? && next.modified.Some?;
      && (timed && maxDelta > 0 ==>
            (CompareDelta(next, current) < maxDelta
             <==> current.modified.value - next.modified.value < maxDelta * SECOND))
      && (timed && maxDelta <= 0 ==>
            (CompareDelta(next, current) < maxDelta
             <==> current.modified.value - next.modified.value <= (maxDelta - 1) * SECOND))
      && (!timed ==> (CompareDelta(next, current) < maxDelta <==> maxDelta > 0))
  {
    if current.modified.Some? && next.modified.Some? {
      var d, m: int := current.modified.value - next.modified.value, maxDelta;
      assert d >= 0 && m > 0 ==> (d / SECOND < m <==> d < m * SECOND);
      assert d < 0 && m <= 0 ==> (-d / SECOND > -m <==> -d >= (-m + 1) * SECOND);
    }
  }

  /** Neighbours stay together if they are close and both have default names or one is a division. */
  lemma TogetherIff(current: Item, next: Item, maxDelta: int)
    ensures Together(current, next, maxDelta)
      <==> CompareDelta(next, current) < maxDelta
           && (current.kind == Division || next.kind == Division || (current.defaultName && next.defaultName))
  {
  }

  /** How many of the first `i` items are separated from the one after them. */
  function Separations(items: seq<Item>, maxDelta: int, i: nat): nat
    requires i < |items|
  {
    if i == 0 then 0
    else Separations(items, maxDelta, i - 1) + (if Together(items[i - 1], items[i], maxDelta) then 0 else 1)
  }

  lemma {:induction false} SeparationsFront(items: seq<Item>, maxDelta: int, i: nat)
    requires 0 < i < |items|
    ensures Separations(items, maxDelta, i)
         == Separations(items[1..], maxDelta, i - 1) + (if Together(items[0], items[1], maxDelta) then 0 else 1)
    decreases i
  {
    if i > 1 {
      SeparationsFront(items, maxDelta, i - 1);
    }
  }

  lemma {:induction false} DividedLength(items: seq<Item>, maxDelta: int)
    requires items != []
    ensures |Divided(items, maxDelta)| == |items| + Separations(items, maxDelta, |items| - 1)
  {
    if |items| >= 2 {
      SeparationsFront(items, maxDelta, |items| - 1);
      DividedLength(items[1..], maxDelta);
    }
  }

  /** Where everything goes: each item after the divisions that precede it, and a division right
      after exactly the items that are separated from the next. */
  lemma {:induction false} DividedPlaces(items: seq<Item>, maxDelta: int, i: nat)
    requires i < |items|
    ensures var d, at := Divided(items, maxDelta), i + Separations(items, maxDelta, i);
      && at < |d| && d[at] == items[i]
      && (i + 1 < |items| ==>
            at + 1 < |d| && d[at + 1] == if Together(items[i], items[i + 1], maxDelta) then items[i + 1] else DIVIDER)
    decreases i
  {
    if i > 0 {
      var tail := items[1..];
      SeparationsFront(items, maxDelta, i);
      DividedPlaces(tail, maxDelta, i - 1);
      if Together(items[0], items[1], maxDelta) {
        assert Divided(items, maxDelta)[1..] == Divided(tail, maxDelta);
      } else {
        assert Divided(items, maxDelta)[2..] == Divided(tail, maxDelta);
      }
    } else if |items| >= 2 {
      DividedEnds(items[1..], maxDelta);
    }
  }

  function Erased(items: seq<Item>): seq<Item> {
    if items == [] then []
    else (if Real(items[0]) then [items[0]] else []) + Erased(items[1..])
  }

  /** Dividing adds nothing but divisions, and none at either end. */
  lemma DividedKeepsItems(items: seq<Item>, maxDelta: int)
    ensures Erased(Divided(items, maxDelta)) == Erased(items)
    ensures items != [] ==>
      var d := Divided(items, maxDelta);
      d != [] && d[0] == items[0] && d[|d| - 1] == items[|items| - 1]
  {
    DividedErases(items, maxDelta);
    DividedEnds(items, maxDelta);
  }

  lemma {:induction false} DividedEnds(items: seq<Item>, maxDelta: int)
    ensures |Divided(items, maxDelta)| >= |items|
    ensures |Divided(items, maxDelta)| == |items| <==> Divided(items, maxDelta) == items
    ensures items != [] ==>
      var d := Divided(items, maxDelta);
      d[0] == items[0] && d[|d| - 1] == items[|items| - 1]
  {
    if |items| >= 2 {
      DividedEnds(items[1..], maxDelta);
      assert items == [items[0]] + items[1..];
    }
  }

  lemma {:induction false} DividedErases(items: seq<Item>, maxDelta: int)
    ensures Erased(Divided(items, maxDelta)) == Erased(items)
  {
    if |items| >= 2 {
      var tail := Divided(items[1..], maxDelta);
      DividedErases(items[1..], maxDelta);
      ErasedFront(items[0], items[1..]);
      assert items == [items[0]] + items[1..];
      if Together(items[0], items[1], maxDelta) {
        ErasedFront(items[0], tail);
      } else {
        ErasedPair(items[0], tail);
      }
    }
  }

  lemma ErasedPair(item: Item, tail: seq<Item>)
    ensures Erased([item, DIVIDER] + tail) == (if Real(item) then [item] else []) + Erased(tail)
  {
    ErasedFront(DIVIDER, tail);
    assert [] + Erased(tail) == Erased(tail);
    ErasedFront(item, [DIVIDER] + tail);
    assert [item, DIVIDER] + tail == [item] + ([DIVIDER] + tail);
  }

  lemma ErasedFront(item: Item, tail: seq<Item>)
    ensures Erased([item] + tail) == (if Real(item) then [item] else []) + Erased(tail)
  {
    assert ([item] + tail)[1..] == tail;
  }

  /** Whether any two neighbours would be separated. */
  predicate Settled(items: seq<Item>, maxDelta: int) {
    forall i | 0 <= i < |items| - 1 :: Together(items[i], items[i + 1], maxDelta)
  }

  lemma SettledFront(items: seq<Item>, maxDelta: int)
    requires |items| >= 2
    ensures Settled(items, maxDelta) <==> Together(items[0], items[1], maxDelta) && Settled(items[1..], maxDelta)
  {
    var tail := items[1..];
    assert forall i | 0 <= i < |tail| :: tail[i] == items[i + 1];
    if Together(items[0], items[1], maxDelta) && Settled(tail, maxDelta) {
      forall i | 0 <= i < |items| - 1
        ensures Together(items[i], items[i + 1], maxDelta)
      {
        assert i > 0 ==> Together(tail[i - 1], tail[i], maxDelta);
      }
    }
    if Settled(items, maxDelta) {
      forall i | 0 <= i < |tail| - 1
        ensures Together(tail[i], tail[i + 1], maxDelta)
      {
        assert Together(items[i + 1], items[i + 2], maxDelta);
      }
    }
  }

  lemma {:induction false} SettledIff(items: seq<Item>, maxDelta: int)
    ensures Divided(items, maxDelta) == items <==> Settled(items, maxDelta)
  {
    if |items| >= 2 {
      var tail := items[1..];
      SettledFront(items, maxDelta);
      SettledIff(tail, maxDelta);
      DividedEnds(tail, maxDelta);
      assert items == [items[0]] + tail;
      if Together(items[0], items[1], maxDelta) {
        assert ([items[0]] + Divided(tail, maxDelta))[1..] == Divided(tail, maxDelta);
      }
    }
  }

  lemma {:induction false} DividedSettles(items: seq<Item>, maxDelta: int)
    requires maxDelta > 0
    ensures Settled(Divided(items, maxDelta), maxDelta)
  {
    if |items| >= 2 {
      DividedSettles(items[1..], maxDelta);
      DividedEnds(items[1..], maxDelta);
    }
  }

  lemma {:induction false} DividedHasDivision(items: seq<Item>, maxDelta: int)
    requires maxDelta <= 0 && Divided(items, maxDelta) != items
    ensures !Settled(Divided(items, maxDelta), maxDelta)
  {
    var d := Divided(items, maxDelta);
    if Together(items[0], items[1], maxDelta) {
      var tail := Divided(items[1..], maxDelta);
      assert d == [items[0]] + tail && items == [items[0]] + items[1..];
      DividedHasDivision(items[1..], maxDelta);
      var i :| 0 <= i < |tail| - 1 && !Together(tail[i], tail[i + 1], maxDelta);
      assert d[i + 1] == tail[i] && d[i + 2] == tail[i + 1];
    } else {
      assert d[1] == DIVIDER && !Together(d[0], d[1], maxDelta);
    }
  }

  /** Dividing again changes nothing, unless the bound is not positive and a division was added. */
  lemma DividingAgainIff(items: seq<Item>, maxDelta: int)
    ensures var d := Divided(items, maxDelta);
      Divided(d, maxDelta) == d <==> maxDelta > 0 || d == items
  {
    var d := Divided(items, maxDelta);
    SettledIff(d, maxDelta);
    if maxDelta > 0 {
      DividedSettles(items, maxDelta);
    } else if d != items {
      DividedHasDivision(items, maxDelta);
    }
  }

  // ---- Order ----

  function NewerThan(a: Option<int>, b: Option<int>): bool {
    a.Some? && (b.None? || a.value > b.value)
  }

  /** Loops and scenes sort newest first; anything else is equal. */
  predicate Before(left: Item, right: Item) {
    left.kind == right.kind && (left.kind == Loop || left.kind == Scene) && NewerThan(left.modified, right.modified)
  }

  function InsertPosition(items: seq<Item>, item: Item, i: nat): (at: nat)
    requires i <= |items|
    ensures i <= at <= |items|
    ensures at < |items| ==> Before(item, items[at])
    ensures forall j | i <= j < at :: !Before(item, items[j])
    decreases |items| - i
  {
    if i == |items| then i
    else if Before(item, items[i]) then i
    else InsertPosition(items, item, i + 1)
  }

  /** By their times, the newest first, and those without a time last. */
  predicate NewestFirst(items: seq<Item>) {
    forall i, j | 0 <= i < j < |items| && items[j].modified.Some? ::
      items[i].modified.Some? && items[i].modified.value >= items[j].modified.value
  }

  function Inserted<T>(s: seq<T>, at: nat, x: T): seq<T>
    requires at <= |s|
  {
    s[..at] + [x] + s[at..]
  }

  /** Inserting into a list of loops or of scenes keeps it newest first, after all of the same age;
      what has no order goes to the end. */
  lemma InsertKeepsOrder(items: seq<Item>, item: Item)
    requires NewestFirst(items) && forall i | 0 <= i < |items| :: items[i].kind == item.kind
    ensures var at := InsertPosition(items, item, 0);
      && (item.kind == Loop || item.kind == Scene ==> NewestFirst(Inserted(items, at, item)))
      && (item.kind != Loop && item.kind != Scene ==> at == |items|)
      && forall i | 0 <= i < |items| && items[i].modified == item.modified :: i < at
  {
    var at := InsertPosition(items, item, 0);
    var all := Inserted(items, at, item);
    if item.kind == Loop || item.kind == Scene {
      forall i, j | 0 <= i < j < |all| && all[j].modified.Some?
        ensures all[i].modified.Some? && all[i].modified.value >= all[j].modified.value
      {
        if i == at {
          assert all[j] == items[j - 1];
          assert at < j - 1 ==> items[at].modified.Some? && items[at].modified.value >= items[j - 1].modified.value;
        } else if j == at {
          assert all[i] == items[i];
        }
      }
    }
  }

  // ---- The browser ----

  function Removed<T>(s: seq<T>, at: nat): seq<T>
    requires at < |s|
  {
    s[..at] + s[at + 1..]
  }

  function Matching(items: seq<Item>, id: int, i: nat): (at: nat)
    requires i <= |items|
    ensures i <= at <= |items| && forall j | i <= j < at :: items[j].matchId != Some(id)
    ensures at < |items| ==> items[at].matchId == Some(id)
    decreases |items| - i
  {
    if i == |items| || items[i].matchId == Some(id) then i else Matching(items, id, i + 1)
  }

  /** A cursor after the item at `at` has gone: it follows its own item, and a cursor on the item
      that went takes the next one, or the new last. */
  function Shifted(slot: Option<nat>, at: nat, last: nat): Option<nat> {
    if slot.None? then None
    else Some(Min(if slot.value > at then slot.value - 1 else slot.value, last))
  }

  /** A cursor stays with its own item; only on the item that went does it take the next, or the new
      last. */
  lemma ShiftedFollows(items: seq<Item>, slot: Option<nat>, at: nat)
    requires at < |items| && |items| > 1
    ensures var moved := Shifted(slot, at, |items| - 2);
      && (moved.None? <==> slot.None?)
      && (slot.Some? && slot.value < |items| && slot.value != at ==>
            moved.value < |items| - 1 && Removed(items, at)[moved.value] == items[slot.value])
      && (slot.Some? && slot.value < at ==> moved == slot)
      && (slot == Some(at) ==> moved == if at + 1 < |items| then slot else Some(at - 1))
      && (slot.Some? && slot.value >= |items| ==> moved == Some(|items| - 2))
  {
  }

  class Browser {
    const itemType: Kind
    var items: seq<Item>
    var currentIndex: Option<nat>
    var selectedIndex: Option<nat>
    var renaming: bool
    var lastBrowsed: bool

    constructor (itemType: Kind)
      ensures this.itemType == itemType && items == [] && currentIndex == None && selectedIndex == None
      ensures !renaming && !lastBrowsed
    {
      this.itemType, items, currentIndex, selectedIndex := itemType, [], None, None;
      renaming, lastBrowsed := false, false;
    }

    method ReplaceItems(newItems: seq<Item>)
      modifies this
      ensures items == newItems && selectedIndex == None && !renaming
      ensures Reals(items) == 0 ==> currentIndex == None
      ensures Reals(items) > 0 ==> Has(items, currentIndex, 0)
      ensures lastBrowsed <==> Reals(items) > 0
    {
      items := newItems;
      currentIndex := FirstReal(items);
      selectedIndex, renaming := None, false;
      lastBrowsed := currentIndex.Some?;
    }

    /** The cursor is not shifted: it stays on its item exactly when the new one goes in behind it. */
    method AddItem(item: Item, sort: bool)
      modifies this`items, this`currentIndex
      ensures var at := if sort then InsertPosition(old(items), item, 0) else |old(items)|;
        && items == Inserted(old(items), at, item)
        && currentIndex == (if old(currentIndex).None? then Some(at) else old(currentIndex))
        && (forall c: nat | old(currentIndex) == Some(c) && c < |old(items)| ::
              items[c] == if c < at then old(items)[c] else if c == at then item else old(items)[c - 1])
    {
      var position := |items|;
      if sort {
        position := 0;
        while position < |items| && !Before(item, items[position])
          invariant position <= |items|
          invariant InsertPosition(items, item, 0) == InsertPosition(items, item, position)
        {
          position := position + 1;
        }
      }
      items := items[..position] + [item] + items[position..];
      if currentIndex.None? {
        currentIndex := Some(position);
      }
    }

    method RemoveItem(matchId: int) returns (found: bool)
      modifies this
      ensures var at := Matching(old(items), matchId, 0);
        && (found <==> at < |old(items)|)
        && (if found then items == Removed(old(items), at) else items == old(items))
        && (!found || items != [] ==> lastBrowsed == old(lastBrowsed))
        && (!found ==> currentIndex == old(currentIndex) && selectedIndex == old(selectedIndex))
        && (found && items == [] ==> currentIndex == None && selectedIndex == None && !lastBrowsed)
        && (found && items != [] ==>
              && currentIndex == Shifted(old(currentIndex), at, |items| - 1)
              && selectedIndex == Shifted(old(selectedIndex), at, |items| - 1)
              && (forall c: nat | old(currentIndex) == Some(c) && c < |old(items)| && c != at ::
                    currentIndex.Some? && currentIndex.value < |items| && items[currentIndex.value] == old(items)[c])
              && (forall c: nat | old(selectedIndex) == Some(c) && c < |old(items)| && c != at ::
                    selectedIndex.Some? && selectedIndex.value < |items| && items[selectedIndex.value] == old(items)[c]))
      ensures renaming == old(renaming)
    {
      var index := 0;
      while index < |items| && items[index].matchId != Some(matchId)
        invariant index <= |items|
        invariant Matching(items, matchId, 0) == Matching(items, matchId, index)
      {
        index := index + 1;
      }
      if index == |items| {
        return false;
      }
      items := items[..index] + items[index + 1..];
      if items == [] {
        currentIndex, selectedIndex, lastBrowsed := None, None, false;
      } else {
        var last := |items| - 1;
        ShiftedFollows(old(items), currentIndex, index);
        ShiftedFollows(old(items), selectedIndex, index);
        currentIndex := Shifted(currentIndex, index, last);
        selectedIndex := Shifted(selectedIndex, index, last);
      }
      found := true;
    }

    method MoveToBeginning()
      modifies this`currentIndex, this`lastBrowsed
      ensures currentIndex == FirstReal(items) && lastBrowsed == (Reals(items) > 0)
    {
      currentIndex := FirstReal(items);
      lastBrowsed := currentIndex.Some?;
    }

    /** Walks to a division and past it. */
    method Probe(cur: nat, forward: bool, final: bool) returns (probe: Option<nat>)
      requires forward || cur <= |items|
      ensures probe == Probed(items, cur, forward, final)
    {
      probe := Some(cur);
      while probe.Some?
        invariant probe.Some? && (probe.value < |items| || probe.value == cur)
        invariant if forward then DivisionAfter(items, probe.value) == DivisionAfter(items, cur)
                  else DivisionBefore(items, probe.value) == DivisionBefore(items, cur)
        decreases if probe.None? then 0 else if forward then Max(0, |items| - probe.value) + 1 else probe.value + 1
      {
        probe := if forward then NextIndex(items, probe.value) else PrevIndex(probe.value);
        if probe.None? {
          break;
        }
        if !Real(items[probe.value]) {
          probe := if forward || final then NextIndex(items, probe.value) else PrevIndex(probe.value);
          break;
        }
      }
    }

    method Jump(start: nat, jump: int) returns (cur: nat)
      requires start < |items|
      ensures cur == Jumped(items, start, jump)
    {
      cur := start;
      if jump != 0 {
        var forward := jump >= 0;
        var magnitude := if forward then jump else -jump + 1;
        for step := 0 to magnitude
          invariant cur < |items|
          invariant JumpSteps(items, cur, forward, magnitude - step) == Jumped(items, start, jump)
        {
          var prev := cur;
          var probe := Probe(cur, forward, step + 1 >= magnitude);
          ProbeIsStep(items, cur, forward, step + 1 >= magnitude);
          if probe.Some? {
            cur := probe.value;
          } else if !forward && step + 1 >= magnitude {
            var first := FirstReal(items);
            cur := if first.Some? then first.value else prev;
          }
        }
      }
    }

    method Adjust(start: nat, adjust: int) returns (cur: nat)
      requires start < |items|
      ensures cur < |items|
      ensures Landing(items, start, adjust) == if Real(items[cur]) then Rank(items, cur) else 0
    {
      cur := start;
      if adjust != 0 {
        var forward := adjust >= 0;
        var magnitude: nat := if forward then adjust else -adjust;
        var moved := 0;
        while moved < magnitude
          invariant cur < |items| && moved <= magnitude
          invariant forward ==> start <= cur && Rank(items, cur + 1) == Rank(items, start + 1) + moved
          invariant !forward ==> cur <= start && Rank(items, cur) + moved == Rank(items, start)
          invariant moved == magnitude ==> Real(items[cur])
          decreases magnitude - moved, if forward then |items| - cur else cur
        {
          var next := if forward then NextIndex(items, cur) else PrevIndex(cur);
          if next.None? {
            break;
          }
          cur := next.value;
          if Real(items[cur]) {
            moved := moved + 1;
          }
        }
        RankMonotone(items, cur, |items|);
        RankMonotone(items, cur + 1, |items|);
      }
    }

    /** The cursor lands on a real item whenever there is one, whatever it was before. */
    method MoveTo(adjust: int, jump: int)
      modifies this`currentIndex, this`lastBrowsed
      ensures Reals(items) == 0 ==> currentIndex == None
      ensures Reals(items) > 0 ==> lastBrowsed && Has(items, currentIndex, Destination(items, old(currentIndex), adjust, jump))
      ensures Reals(items) > 0 ==>
        forall i: nat | Has(items, Some(i), Destination(items, old(currentIndex), adjust, jump)) :: currentIndex == Some(i)
    {
      if items == [] {
        currentIndex := None;
        return;
      }
      if currentIndex.Some? && currentIndex.value >= |items| {
        currentIndex := FirstReal(items);
      }
      if currentIndex.None? {
        currentIndex := FirstReal(items);
      }
      if currentIndex.None? {
        return;
      }
      var cur := Jump(currentIndex.value, jump);
      cur := Adjust(cur, adjust);
      if !Real(items[cur]) {
        currentIndex := FirstReal(items);
      } else {
        RankMonotone(items, cur, |items|);
        currentIndex := Some(cur);
      }
      lastBrowsed := currentIndex.Some?;
      if currentIndex.Some? {
        ghost var t := Rank(items, currentIndex.value);
        forall i: nat | Has(items, Some(i), t)
          ensures currentIndex == Some(i)
        {
          HasUnique(items, currentIndex, Some(i), t);
        }
      }
    }

    /** Moves past the next division, or to just before the last one; otherwise nothing changes.
        Going back from a stale cursor beyond the end of the list indexes out of range. */
    method MovePatchBank(direction: int) returns (r: Result<bool, ()>)
      modifies this`currentIndex, this`lastBrowsed
      ensures var start := if old(currentIndex).Some? then old(currentIndex) else FirstReal(items);
        if itemType != Patch || items == [] then
          r == Ok(false) && currentIndex == old(currentIndex) && lastBrowsed == old(lastBrowsed)
        else if start.None? then r == Ok(false) && currentIndex == None
        else if direction < 0 && start.value > |items| then r == Err(())
        else
          var target := Probed(items, start.value, direction >= 0, false);
          && r == Ok(target.Some?)
          && currentIndex == (if target.Some? then target else start)
          && lastBrowsed == (target.Some? || old(lastBrowsed))
    {
      if itemType != Patch || items == [] {
        return Ok(false);
      }
      if currentIndex.None? {
        currentIndex := FirstReal(items);
      }
      if currentIndex.None? {
        return Ok(false);
      }
      if direction < 0 && currentIndex.value > |items| {
        return Err(());
      }
      var probe := Probe(currentIndex.value, direction >= 0, false);
      if probe.Some? {
        currentIndex, lastBrowsed := probe, true;
      }
      r := Ok(probe.Some?);
    }

    method AddDivisions(maxDelta: int)
      modifies this`items
      ensures items == Divided(old(items), maxDelta)
    {
      var index := 0;
      while index + 1 < |items|
        invariant index <= |items| && (items != [] ==> index < |items|)
        invariant items[..index] + Divided(items[index..], maxDelta) == Divided(old(items), maxDelta)
        decreases |items| - index
      {
        var current, next := items[index], items[index + 1];
        var close := CompareDelta(next, current) < maxDelta;
        var keepTogether := (current.defaultName && next.defaultName)
                            || current.kind == Division || next.kind == Division;
        DividedStep(items, index, maxDelta);
        if close && keepTogether {
          index := index + 1;
          continue;
        }
        ghost var before := items;
        items := items[..index + 1] + [DIVIDER] + items[index + 1..];
        index := index + 2;
        assert items[..index] == before[..index - 1] + [DIVIDER] && items[index..] == before[index - 1..];
      }
    }
  }

  lemma DividedStep(items: seq<Item>, index: nat, maxDelta: int)
    requires index + 1 < |items|
    ensures items[..index] + Divided(items[index..], maxDelta)
         == (if Together(items[index], items[index + 1], maxDelta) then items[..index + 1] else items[..index + 1] + [DIVIDER])
            + Divided(items[index + 1..], maxDelta)
  {
    assert items[index..][1..] == items[index + 1..];
    assert items[..index] + [items[index]] == items[..index + 1];
    assert items[..index] + [items[index], DIVIDER] == items[..index + 1] + [DIVIDER];
    var tail := Divided(items[index + 1..], maxDelta);
    Regroup(items[..index], [items[index]], tail);
    Regroup(items[..index], [items[index], DIVIDER], tail);
  }

  function NextIndex(items: seq<Item>, i: nat): Option<nat> {
    if i + 1 < |items| then Some(i + 1) else None
  }

  function PrevIndex(i: nat): Option<nat> {
    if i > 0 then Some(i - 1) else None
  }

  /** Just past the division ahead, if there is one and anything past it; going back, a final step
      turns round at the division. */
  function Probed(items: seq<Item>, cur: nat, forward: bool, final: bool): Option<nat>
    requires forward || cur <= |items|
  {
    var d := if forward then DivisionAfter(items, cur) else DivisionBefore(items, cur);
    if d.None? then None
    else if forward || final then NextIndex(items, d.value)
    else PrevIndex(d.value)
  }

  lemma ProbeIsStep(items: seq<Item>, cur: nat, forward: bool, final: bool)
    requires cur < |items|
    ensures var probe, first := Probed(items, cur, forward, final), FirstReal(items);
      JumpStep(items, cur, forward, final)
      == if probe.Some? then probe.value else if !forward && final && first.Some? then first.value else cur
  {
    DivisionBeforeInRange(items, cur);
  }

  /** The rank `MoveTo` lands on: a stale or missing cursor starts at the first real item, a jump
      goes before the move by ranks. */
  function Destination(items: seq<Item>, cursor: Option<nat>, adjust: int, jump: int): int
    requires Reals(items) > 0
  {
    var first := FirstReal(items).value;
    var start := if cursor.Some? && cursor.value < |items| then cursor.value else first;
    Landing(items, Jumped(items, start, jump), adjust)
  }

  /** With no jump, a move from a real item in a list that ends in one clamps its rank. */
  lemma DestinationIsClamped(items: seq<Item>, cur: nat, k: int)
    requires cur < |items| && Real(items[cur]) && Real(items[|items| - 1])
    ensures Reals(items) > 0 && Destination(items, Some(cur), k, 0) == Clamp(Rank(items, cur) + k, 0, Reals(items) - 1)
  {
    RankMonotone(items, cur, |items|);
    MoveIsClampedIff(items, cur, k);
  }
}
