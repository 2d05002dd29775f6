/** The pulse clock and its sync callbacks, over whole runs of audio blocks. */
module PulseClock {

  import opened Util

  const MAX_SYNCS: nat := 1000

  datatype Sync = Sync(position: nat, index: int)

  /** The position after a block of `n` frames. */
  function Advance(len: nat, pos: nat, n: nat): nat {
    if len == 0 then pos else if pos + n >= len then (pos + n) % len else pos + n
  }

  /** The same with the 32-bit sum of a release build, which wraps; a debug build panics there. */
  function Advance32(len: nat, pos: nat, n: nat): nat {
    if len == 0 then pos
    else
      var sum := (pos + n) % (MAX_U32 + 1);
      if sum >= len then sum % len else sum
  }

  lemma ModShiftIff(s: nat, shift: nat, len: nat)
    requires len > 0
    ensures (s + shift) % len == s % len <==> shift % len == 0
  {
    DivModSplit(s, len);
    DivModSplit(shift, len);
    DivModSplit(s + shift, len);
    var q, k := s / len, shift / len;
    if shift % len == 0 {
      assert (q + k) * len == q * len + k * len;
      DivModUnique(s + shift, q + k, s % len, len);
    }
    if (s + shift) % len == s % len {
      var d := (s + shift) / len - q;
      assert d * len == (s + shift) / len * len - q * len;
      ModOfMultiple(d, len);
    }
  }

  lemma SmallMod(a: nat, m: nat)
    requires a < m
    ensures a % m == a
  {
    DivModUnique(a, 0, a, m);
  }

  /** The wrap matters exactly when the sum overflows and 2^32 is not a multiple of the pulse. */
  lemma AdvanceFitsIff(len: nat, pos: nat, n: nat)
    requires 0 < len <= MAX_U32 && pos <= MAX_U32 && n <= MAX_U32
    ensures Advance32(len, pos, n) == Advance(len, pos, n) <==> pos + n <= MAX_U32 || (MAX_U32 + 1) % len == 0
  {
    var sum := pos + n;
    if sum <= MAX_U32 {
      SmallMod(sum, MAX_U32 + 1);
    } else {
      DivModUnique(sum, 1, sum - (MAX_U32 + 1), MAX_U32 + 1);
      ModShiftIff(sum - (MAX_U32 + 1), MAX_U32 + 1, len);
      if sum - (MAX_U32 + 1) < len {
        SmallMod(sum - (MAX_U32 + 1), len);
      }
    }
  }

  /** `fire_syncs`: whether a sync at `p` is called for a move from `prev` to `cur`. */
  predicate Fires(prev: nat, cur: nat, p: nat) {
    (p > prev && p <= cur) || (cur < prev && (p > prev || p <= cur))
  }

  /** The syncs that satisfy `keep`, in registration order. */
  function Select(syncs: seq<Sync>, keep: Sync -> bool): seq<Sync> {
    if syncs == [] then []
    else
      var last := syncs[|syncs| - 1];
      Select(syncs[..|syncs| - 1], keep) + (if keep(last) then [last] else [])
  }

  function Passed(prev: nat, cur: nat): Sync -> bool {
    (s: Sync) => Fires(prev, cur, s.position)
  }

  function Other(index: int): Sync -> bool {
    (s: Sync) => s.index != index
  }

  /** The syncs a move from `prev` to `cur` calls. */
  function Due(syncs: seq<Sync>, prev: nat, cur: nat): seq<Sync> {
    Select(syncs, Passed(prev, cur))
  }

  function Without(syncs: seq<Sync>, index: int): seq<Sync> {
    Select(syncs, Other(index))
  }

  /** Nearest whole number of pulses, halves up, saturating at 32 bits. */
  function QuantizeLength(len: nat, src: nat): nat {
    if len == 0 then src else Min((src + len / 2) / len * len, MAX_U32)
  }

  lemma QuantizeIsNearest(len: nat, src: nat)
    requires len > 0
    ensures var q := (src + len / 2) / len * len;
      && q % len == 0 && 2 * (q - src) <= len && 2 * (src - q) <= len
      && (q <= MAX_U32 ==> QuantizeLength(len, src) == q)
      && (src % len == 0 && src <= MAX_U32 ==> QuantizeLength(len, src) == src)
  {
    var k := (src + len / 2) / len;
    ModOfMultiple(k, len);
    DivModSplit(src + len / 2, len);
    WithinHalf(len, src, k * len);
    if src % len == 0 {
      MultipleRoundsToItself(len, src, src / len);
    }
  }

  lemma WithinHalf(len: nat, src: nat, q: nat)
    requires q <= src + len / 2 < q + len
    ensures 2 * (q - src) <= len && 2 * (src - q) <= len
  {
  }

  lemma MultipleRoundsToItself(len: nat, src: nat, k: nat)
    requires len > 0 && k == src / len && src % len == 0
    ensures (src + len / 2) / len * len == src
  {
    DivModSplit(src, len);
    DivModUnique(src + len / 2, k, len / 2, len);
  }

  predicate DistinctIds(syncs: seq<Sync>) {
    forall i, j | 0 <= i < j < |syncs| :: syncs[i].index != syncs[j].index
  }

  class Pulse {
    var len: nat
    var curpos: nat
    var wrapped: bool
    var stopped: bool
    var syncs: seq<Sync>
    var nextIndex: int
    /** The callbacks made so far. */
    ghost var fired: seq<Sync>

    /** Identifiers handed out are distinct until the counter saturates. */
    ghost predicate Valid()
      reads this
    {
      && 0 <= nextIndex <= MAX_I32 && |syncs| <= MAX_SYNCS
      && DistinctIds(syncs)
      && forall s | s in syncs :: s.index < nextIndex || nextIndex == s.index == MAX_I32
    }

    constructor (len: nat, start: nat)
      ensures Valid() && this.len == len && curpos == start && !wrapped && !stopped
      ensures syncs == [] && fired == []
    {
      this.len, curpos, wrapped, stopped := len, start, false, false;
      syncs, nextIndex, fired := [], 0, [];
    }

    method FireSyncs(prev: nat, cur: nat)
      modifies this`fired
      ensures fired == old(fired) + Due(syncs, prev, cur)
    {
      for i := 0 to |syncs|
        invariant fired == old(fired) + Due(syncs[..i], prev, cur)
      {
        assert syncs[..i + 1][..i] == syncs[..i];
        var sp := syncs[i];
        if sp.position > prev && sp.position <= cur {
          fired := fired + [sp];
        } else if cur < prev && (sp.position > prev || sp.position <= cur) {
          fired := fired + [sp];
        }
      }
      assert syncs[..|syncs|] == syncs;
    }

    /** Up to an overflow of the 32-bit position this is the exact clock. */
    method ProcessClock(n: nat)
      requires Valid()
      modifies this`curpos, this`wrapped, this`fired
      ensures Valid()
      ensures curpos == if stopped then old(curpos) else Advance32(len, old(curpos), n)
      ensures old(curpos) + n <= MAX_U32 ==> curpos == if stopped then old(curpos) else Advance(len, old(curpos), n)
      ensures wrapped <==> old(wrapped) || (!stopped && len > 0 && (old(curpos) + n) % (MAX_U32 + 1) >= len)
      ensures fired == old(fired) + Due(syncs, old(curpos), curpos)
    {
      var prev := curpos;
      if curpos + n <= MAX_U32 {
        SmallMod(curpos + n, MAX_U32 + 1);
      }
      if !stopped && len > 0 {
        curpos := (curpos + n) % (MAX_U32 + 1);
        if curpos >= len {
          curpos := curpos % len;
          wrapped := true;
        }
      }
      FireSyncs(prev, curpos);
    }

    /** A new sync gets an identifier no other one holds, until the counter has saturated and
        its last value is in use. */
    method AddSync(position: nat) returns (r: Result<int, ()>)
      requires Valid()
      modifies this`syncs, this`nextIndex
      ensures r.Err? <==> |old(syncs)| >= MAX_SYNCS
      ensures r.Err? ==> syncs == old(syncs) && nextIndex == old(nextIndex)
      ensures r.Ok? ==> syncs == old(syncs) + [Sync(position, r.value)]
      ensures r.Ok? ==>
        (DistinctIds(syncs) <==> !(old(nextIndex) == MAX_I32 && exists s | s in old(syncs) :: s.index == MAX_I32))
      ensures r.Err? || DistinctIds(syncs) ==> Valid()
    {
      if |syncs| >= MAX_SYNCS {
        return Err(());
      }
      var index := nextIndex;
      nextIndex := if nextIndex == MAX_I32 then MAX_I32 else nextIndex + 1;
      ghost var before := syncs;
      syncs := syncs + [Sync(position, index)];
      if s :| s in before && s.index == index {
        var i :| 0 <= i < |before| && before[i] == s;
        assert syncs[i].index == syncs[|before|].index;
      }
      return Ok(index);
    }

    method DelSync(index: int) returns (found: bool)
      requires Valid()
      modifies this`syncs
      ensures Valid() && syncs == Without(old(syncs), index)
      ensures found <==> exists s | s in old(syncs) :: s.index == index
      ensures forall s :: s in syncs <==> s in old(syncs) && s.index != index
    {
      var before := syncs;
      var kept: seq<Sync> := [];
      for i := 0 to |before|
        invariant syncs == before == old(syncs)
        invariant kept == Without(before[..i], index)
      {
        assert before[..i + 1][..i] == before[..i];
        if before[i].index != index {
          kept := kept + [before[i]];
        }
      }
      assert before[..|before|] == before;
      SelectIff(before, Other(index));
      SelectDistinct(before, Other(index));
      syncs := kept;
      found := |kept| != |before|;
    }
  }

  /** Selecting keeps exactly the syncs wanted. */
  lemma {:induction false} SelectIff(syncs: seq<Sync>, keep: Sync -> bool)
    ensures forall s :: s in Select(syncs, keep) <==> s in syncs && keep(s)
    ensures |Select(syncs, keep)| <= |syncs|
    ensures |Select(syncs, keep)| != |syncs| <==> exists s | s in syncs :: !keep(s)
  {
    if syncs != [] {
      var init, last := syncs[..|syncs| - 1], syncs[|syncs| - 1];
      SelectIff(init, keep);
      assert syncs == init + [last];
    }
  }

  /** An identifier is selected as often as its syncs were wanted. */
  lemma {:induction false} SelectDistinct(syncs: seq<Sync>, keep: Sync -> bool)
    requires DistinctIds(syncs)
    ensures DistinctIds(Select(syncs, keep))
  {
    if syncs != [] {
      var init, last := syncs[..|syncs| - 1], syncs[|syncs| - 1];
      SelectDistinct(init, keep);
      SelectIff(init, keep);
      var kept := Select(init, keep);
      forall i | 0 <= i < |kept|
        ensures kept[i].index != last.index
      {
        assert kept[i] in init;
        var k :| 0 <= k < |init| && init[k] == kept[i];
        assert syncs[k].index != syncs[|init|].index;
      }
    }
  }

  // ---- Crossings ----

  /** How many frame times in `(a, a + n]` fall on position `p`. */
  function Crossings(len: nat, a: nat, n: nat, p: nat): nat
    requires len > 0
  {
    if n == 0 then 0 else Crossings(len, a, n - 1, p) + (if (a + n) % len == p then 1 else 0)
  }

  /** The number of calls of a sync at `p` over the blocks `ns` from position `pos`. */
  function Firings(len: nat, pos: nat, ns: seq<nat>, p: nat): nat
    requires len > 0
    decreases |ns|
  {
    if ns == [] then 0
    else
      var cur := Advance(len, pos, ns[0]);
      (if Fires(pos, cur, p) then 1 else 0) + Firings(len, cur, ns[1..], p)
  }

  function PositionAfter(len: nat, pos: nat, ns: seq<nat>): nat
    decreases |ns|
  {
    if ns == [] then pos else PositionAfter(len, Advance(len, pos, ns[0]), ns[1..])
  }

  /** Whole turns hidden inside single blocks. */
  function HiddenTurns(len: nat, ns: seq<nat>): nat
    requires len > 0
  {
    if ns == [] then 0 else ns[0] / len + HiddenTurns(len, ns[1..])
  }

  /** Frames from `pos` to the next time on `p`: between 1 and a whole turn. */
  function Distance(len: nat, pos: nat, p: nat): nat
    requires pos < len && p < len
  {
    if p > pos then p - pos else p + len - pos
  }

  lemma ModShift(len: nat, a: nat, k: nat)
    requires len > 0 && k <= len
    ensures (a + k) % len == (if a % len + k < len then a % len + k else if a % len + k < 2 * len then a % len + k - len else 0)
  {
    var q, r := a / len, a % len;
    if r + k < len {
      DivModUnique(a + k, q, r + k, len);
    } else if r + k < 2 * len {
      assert (q + 1) * len == q * len + len;
      DivModUnique(a + k, q + 1, r + k - len, len);
    }
  }

  lemma {:induction false} CrossingsWithinTurn(len: nat, a: nat, n: nat, p: nat)
    requires n <= len && p < len
    ensures Crossings(len, a, n, p) == if Distance(len, a % len, p) <= n then 1 else 0
  {
    if n > 0 {
      CrossingsWithinTurn(len, a, n - 1, p);
      ModShift(len, a, n);
    }
  }

  lemma {:induction false} CrossingsSplit(len: nat, a: nat, m: nat, n: nat, p: nat)
    requires len > 0
    ensures Crossings(len, a, m + n, p) == Crossings(len, a, m, p) + Crossings(len, a + m, n, p)
  {
    if n > 0 {
      CrossingsSplit(len, a, m, n - 1, p);
    }
  }

  lemma {:induction false} CrossingsByTurns(len: nat, a: nat, q: nat, r: nat, p: nat)
    requires p < len && r < len
    ensures Crossings(len, a, q * len + r, p) == q + (if Distance(len, a % len, p) <= r then 1 else 0)
    decreases q
  {
    if q == 0 {
      CrossingsWithinTurn(len, a, r, p);
    } else {
      var rest := (q - 1) * len + r;
      assert len + rest == q * len + r;
      CrossingsSplit(len, a, len, rest, p);
      CrossingsWithinTurn(len, a, len, p);
      CrossingsByTurns(len, a + len, q - 1, r, p);
      ModShift(len, a, len);
    }
  }

  lemma AdvanceIsMod(len: nat, a: nat, n: nat)
    requires len > 0
    ensures Advance(len, a % len, n) == (a + n) % len < len
    ensures Advance(len, a % len, n) == (a % len + n % len) % len
  {
    var q, r := a / len, a % len;
    var q', r' := (r + n) / len, (r + n) % len;
    assert (q + q') * len == q * len + q' * len;
    DivModUnique(a + n, q + q', r', len);
    var s, t := n / len, n % len;
    var u, v := (r + t) / len, (r + t) % len;
    assert (s + u) * len == s * len + u * len;
    DivModUnique(r + n, s + u, v, len);
    if r + n < len {
      DivModUnique(r + n, 0, r + n, len);
    }
  }

  /** One block: the callback runs once if the position is passed in the last, partial turn, and
      every whole turn inside the block goes unnoticed. */
  lemma BlockFirings(len: nat, a: nat, n: nat, p: nat)
    requires p < len
    ensures var cur := Advance(len, a % len, n);
      Crossings(len, a, n, p) == n / len + (if Fires(a % len, cur, p) then 1 else 0)
  {
    DivModSplit(n, len);
    CrossingsByTurns(len, a, n / len, n % len, p);
    AdvanceIsMod(len, a, n);
    var r, t := a % len, n % len;
    assert r + t < 2 * len;
    if r + t < len {
      DivModUnique(r + t, 0, r + t, len);
    } else {
      DivModUnique(r + t, 1, r + t - len, len);
    }
  }

  /** Over any run, calls plus the whole turns hidden inside single blocks equal the times the
      clock passed the position, and the clock ends where it should. */
  lemma {:induction false} FiringsBalance(len: nat, a: nat, ns: seq<nat>, p: nat)
    requires p < len
    ensures Firings(len, a % len, ns, p) + HiddenTurns(len, ns) == Crossings(len, a, Total(ns), p)
    ensures PositionAfter(len, a % len, ns) == (a + Total(ns)) % len
    decreases |ns|
  {
    if ns != [] {
      BlockFirings(len, a, ns[0], p);
      AdvanceIsMod(len, a, ns[0]);
      CrossingsSplit(len, a, ns[0], Total(ns[1..]), p);
      assert a + (ns[0] + Total(ns[1..])) == a + ns[0] + Total(ns[1..]);
      FiringsBalance(len, a + ns[0], ns[1..], p);
    }
  }

  lemma NoTurnIff(len: nat, n: nat)
    requires len > 0
    ensures n / len == 0 <==> n < len
  {
    DivModSplit(n, len);
    if n < len {
      DivModUnique(n, 0, n, len);
    }
  }

  lemma {:induction false} NoHiddenTurnsIff(len: nat, ns: seq<nat>)
    requires len > 0
    ensures HiddenTurns(len, ns) == 0 <==> forall i | 0 <= i < |ns| :: ns[i] < len
  {
    if ns != [] {
      var tail := ns[1..];
      NoTurnIff(len, ns[0]);
      NoHiddenTurnsIff(len, tail);
      assert forall i | 0 <= i < |tail| :: tail[i] == ns[i + 1];
      if forall i | 0 <= i < |tail| :: tail[i] < len {
        assert forall i | 1 <= i < |ns| :: ns[i] == tail[i - 1];
      }
    }
  }

  // ---- The log of calls ----

  /** How often the identifier occurs in a log of calls. */
  function CallsOf(log: seq<Sync>, index: int): nat {
    if log == [] then 0
    else CallsOf(log[..|log| - 1], index) + (if log[|log| - 1].index == index then 1 else 0)
  }

  lemma {:induction false} CallsAppend(a: seq<Sync>, b: seq<Sync>, index: int)
    ensures CallsOf(a + b, index) == CallsOf(a, index) + CallsOf(b, index)
  {
    if b == [] {
      assert a + b == a;
    } else {
      assert (a + b)[..|a + b| - 1] == a + b[..|b| - 1];
      CallsAppend(a, b[..|b| - 1], index);
    }
  }

  lemma {:induction false} CallsAbsent(log: seq<Sync>, index: int)
    requires forall s | s in log :: s.index != index
    ensures CallsOf(log, index) == 0
  {
    if log != [] {
      CallsAbsent(log[..|log| - 1], index);
    }
  }

  lemma {:induction false} DueOnce(syncs: seq<Sync>, prev: nat, cur: nat, s: Sync)
    requires DistinctIds(syncs) && s in syncs
    ensures CallsOf(Due(syncs, prev, cur), s.index) == if Fires(prev, cur, s.position) then 1 else 0
  {
    var init, last := syncs[..|syncs| - 1], syncs[|syncs| - 1];
    var tail := if Fires(prev, cur, last.position) then [last] else [];
    assert Due(syncs, prev, cur) == Due(init, prev, cur) + tail;
    CallsAppend(Due(init, prev, cur), tail, s.index);
    if s == last {
      SelectIff(init, Passed(prev, cur));
      forall d | d in init
        ensures d.index != s.index
      {
        var k :| 0 <= k < |init| && init[k] == d;
        assert syncs[k].index != syncs[|init|].index;
      }
      CallsAbsent(Due(init, prev, cur), s.index);
    } else {
      var k :| 0 <= k < |syncs| && syncs[k] == s;
      assert init[k] == s && syncs[k].index != syncs[|init|].index;
      DueOnce(init, prev, cur, s);
    }
  }

  /** All the calls made while the clock processes the blocks `ns` from `pos`. */
  function CallLog(syncs: seq<Sync>, len: nat, pos: nat, ns: seq<nat>): seq<Sync>
    decreases |ns|
  {
    if ns == [] then []
    else
      var cur := Advance(len, pos, ns[0]);
      Due(syncs, pos, cur) + CallLog(syncs, len, cur, ns[1..])
  }

  lemma {:induction false} LogCountsFirings(syncs: seq<Sync>, len: nat, pos: nat, ns: seq<nat>, s: Sync)
    requires len > 0 && DistinctIds(syncs) && s in syncs
    ensures CallsOf(CallLog(syncs, len, pos, ns), s.index) == Firings(len, pos, ns, s.position)
    decreases |ns|
  {
    if ns != [] {
      var cur := Advance(len, pos, ns[0]);
      DueOnce(syncs, pos, cur, s);
      LogCountsFirings(syncs, len, cur, ns[1..], s);
      CallsAppend(Due(syncs, pos, cur), CallLog(syncs, len, cur, ns[1..]), s.index);
    }
  }

  /** A sync is called exactly once per crossing over a run that starts inside the pulse if and
      only if every block is shorter than the pulse; in particular a block of exactly one pulse
      calls nothing. */
  lemma OncePerCrossingIff(syncs: seq<Sync>, len: nat, start: nat, ns: seq<nat>, s: Sync)
    requires start < len && DistinctIds(syncs) && s in syncs && s.position < len
    ensures CallsOf(CallLog(syncs, len, start, ns), s.index) == Crossings(len, start, Total(ns), s.position)
      <==> forall i | 0 <= i < |ns| :: ns[i] < len
    ensures PositionAfter(len, start, ns) == (start + Total(ns)) % len
  {
    DivModUnique(start, 0, start, len);
    LogCountsFirings(syncs, len, start, ns, s);
    FiringsBalance(len, start, ns, s.position);
    NoHiddenTurnsIff(len, ns);
  }
}
