/** Iterators over a block chain, proved against its flat view: writing fragments, walking
    fragments, the sample cursor, and copying a subchain. */
module ChainIterators {

  import opened Util
  import opened Wire
  import opened Chains

  // ---- Writing one sample ----

  /** `set`: past the end of the chain nothing happens. */
  function SetSample(c: Chain, p: nat, v: Word): Chain {
    if p < |c.samples| then c.(samples := c.samples[p := v])
    else if c.next.None? then c
    else c.(next := Some(SetSample(c.next.value, p - |c.samples|, v)))
  }

  function Zeros(n: nat): (s: seq<Word>)
    ensures |s| == n
  {
    seq(n, _ => 0)
  }

  /** Every extra channel is as long as its link. */
  predicate ExtraFits(c: Chain) {
    && (c.extra.Some? ==> |c.extra.value| == |c.samples|)
    && (c.next.Some? ==> ExtraFits(c.next.value))
  }

  /** `set_extra` creates a missing channel as silence.  A channel shorter than its link, which
      `ExtraFits` rules out, would be indexed out of range. */
  function SetExtra(c: Chain, p: nat, v: Word): Chain {
    if p < |c.samples| then
      var extra := if c.extra.Some? then c.extra.value else Zeros(|c.samples|);
      if p < |extra| then c.(extra := Some(extra[p := v])) else c
    else if c.next.None? then c
    else c.(next := Some(SetExtra(c.next.value, p - |c.samples|, v)))
  }

  /** Whether `set_extra` finds a sample to write at `p`; a channel shorter than its link may have
      none. */
  predicate ExtraReaches(c: Chain, p: nat) {
    if p < |c.samples| then c.extra.None? || p < |c.extra.value|
    else c.next.None? || ExtraReaches(c.next.value, p - |c.samples|)
  }

  /** It does exactly when the write can be read back. */
  lemma {:induction false} ExtraReachesIff(c: Chain, p: nat, v: Word)
    requires p < TotalLen(c)
    ensures ExtraReaches(c, p) <==> ExtraSample(SetExtra(c, p, v), p) == Some(v) && |SetExtra(c, p, v).samples| == |c.samples|
  {
    if p >= |c.samples| {
      ExtraReachesIff(c.next.value, p - |c.samples|, v);
    }
  }

  lemma {:induction false} FittingReaches(c: Chain, p: nat)
    requires ExtraFits(c)
    ensures ExtraReaches(c, p)
  {
    if p >= |c.samples| && c.next.Some? {
      FittingReaches(c.next.value, p - |c.samples|);
    }
  }

  lemma {:induction false} SetKeepsReach(c: Chain, p: nat, l: Word, r: Word, q: nat)
    requires ExtraReaches(c, p)
    ensures ExtraReaches(SetExtra(SetSample(c, p, l), p, r), q) == ExtraReaches(c, q)
  {
    if p >= |c.samples| && q >= |c.samples| && c.next.Some? {
      SetKeepsReach(c.next.value, p - |c.samples|, l, r, q - |c.samples|);
    }
  }

  /** Every sample of the range can be written. */
  predicate AllReached(c: Chain, at: nat, n: nat) {
    forall p | at <= p < at + n :: ExtraReaches(c, p)
  }

  ghost predicate SameReach(c: Chain, d: Chain) {
    forall q: nat :: ExtraReaches(c, q) == ExtraReaches(d, q)
  }

  lemma FittingReached(c: Chain, at: nat, n: nat)
    requires ExtraFits(c)
    ensures AllReached(c, at, n)
  {
    forall p | at <= p < at + n
      ensures ExtraReaches(c, p)
    {
      FittingReaches(c, p);
    }
  }

  lemma SetKeepsReaches(c: Chain, p: nat, l: Word, r: Word)
    requires ExtraReaches(c, p)
    ensures SameReach(c, SetExtra(SetSample(c, p, l), p, r))
  {
    forall q: nat
      ensures ExtraReaches(SetExtra(SetSample(c, p, l), p, r), q) == ExtraReaches(c, q)
    {
      SetKeepsReach(c, p, l, r, q);
    }
  }

  /** The right channel as a reader sees it: silence where a link has none. */
  function FlatRight(c: Chain): (s: seq<Word>)
    requires ExtraFits(c)
    ensures |s| == TotalLen(c)
  {
    (if c.extra.Some? then c.extra.value else Zeros(|c.samples|))
    + (if c.next.Some? then FlatRight(c.next.value) else [])
  }

  /** Link lengths, which no write changes. */
  function Shape(c: Chain): seq<nat> {
    [|c.samples|] + (if c.next.Some? then Shape(c.next.value) else [])
  }

  /** Link lengths and main samples. */
  ghost predicate Shows(c: Chain, shape: seq<nat>, main: seq<Word>) {
    Shape(c) == shape && Flat(c) == main
  }

  ghost predicate ShowsRight(c: Chain, right: seq<Word>) {
    ExtraFits(c) && FlatRight(c) == right
  }

  lemma {:induction false} SetSampleShows(c: Chain, p: nat, v: Word)
    requires p < TotalLen(c)
    ensures Shows(SetSample(c, p, v), Shape(c), Flat(c)[p := v])
  {
    if p >= |c.samples| {
      SetSampleShows(c.next.value, p - |c.samples|, v);
    }
  }

  lemma {:induction false} SetSampleKeepsRight(c: Chain, p: nat, v: Word)
    requires ExtraFits(c)
    ensures ShowsRight(SetSample(c, p, v), FlatRight(c))
  {
    if p >= |c.samples| && c.next.Some? {
      SetSampleKeepsRight(c.next.value, p - |c.samples|, v);
    }
  }

  lemma {:induction false} SetExtraShows(c: Chain, p: nat, v: Word)
    requires p < TotalLen(c) && ExtraFits(c)
    ensures ShowsRight(SetExtra(c, p, v), FlatRight(c)[p := v])
  {
    if p >= |c.samples| {
      SetExtraShows(c.next.value, p - |c.samples|, v);
    }
  }

  lemma {:induction false} SetExtraKeepsMain(c: Chain, p: nat, v: Word)
    ensures Shows(SetExtra(c, p, v), Shape(c), Flat(c))
  {
    if p >= |c.samples| && c.next.Some? {
      SetExtraKeepsMain(c.next.value, p - |c.samples|, v);
    }
  }

  /** `flat` with `data` written over it from `at`. */
  function Overwritten(flat: seq<Word>, at: nat, data: seq<Word>): (r: seq<Word>)
    requires at + |data| <= |flat|
    ensures |r| == |flat|
  {
    flat[..at] + data + flat[at + |data|..]
  }

  lemma OverwriteOne(flat: seq<Word>, at: nat, data: seq<Word>)
    requires data != [] && at + |data| <= |flat|
    ensures var n := |data| - 1;
      Overwritten(flat, at, data[..n])[at + n := data[n]] == Overwritten(flat, at, data)
  {
  }

  function Written(c: Chain, at: nat, data: seq<Word>): Chain {
    if data == [] then c
    else SetSample(Written(c, at, data[..|data| - 1]), at + |data| - 1, data[|data| - 1])
  }

  function WrittenStereo(c: Chain, at: nat, left: seq<Word>, right: seq<Word>): Chain
    requires |left| == |right|
  {
    if left == [] then c
    else
      var n := |left| - 1;
      SetExtra(SetSample(WrittenStereo(c, at, left[..n], right[..n]), at + n, left[n]), at + n, right[n])
  }

  /** The first `n` frames written. */
  function StereoUpTo(c: Chain, at: nat, left: seq<Word>, right: seq<Word>, n: nat): Chain
    requires |left| == |right| && n <= |left|
  {
    WrittenStereo(c, at, left[..n], right[..n])
  }

  lemma WrittenStereoSnoc(c: Chain, at: nat, left: seq<Word>, right: seq<Word>, i: nat)
    requires |left| == |right| && i < |left|
    ensures StereoUpTo(c, at, left, right, i + 1)
         == SetExtra(SetSample(StereoUpTo(c, at, left, right, i), at + i, left[i]), at + i, right[i])
  {
    assert left[..i + 1][..i] == left[..i] && right[..i + 1][..i] == right[..i];
  }

  lemma NextReached(before: Chain, c: Chain, at: nat, i: nat, l: Word, r: Word)
    requires SameReach(before, c) && AllReached(before, at, i) && ExtraReaches(c, at + i)
    ensures SameReach(before, SetExtra(SetSample(c, at + i, l), at + i, r)) && AllReached(before, at, i + 1)
  {
    SetKeepsReaches(c, at + i, l, r);
  }

  lemma StopsReached(before: Chain, c: Chain, at: nat, i: nat, n: nat)
    requires SameReach(before, c) && !ExtraReaches(c, at + i) && i < n
    ensures !AllReached(before, at, n)
  {
    assert !ExtraReaches(before, at + i);
  }

  lemma OneMoreSample(before: Chain, shape: seq<nat>, main: seq<Word>, at: nat, data: seq<Word>)
    requires data != [] && at + |data| <= |main|
    requires Shows(before, shape, Overwritten(main, at, data[..|data| - 1]))
    ensures Shows(SetSample(before, at + |data| - 1, data[|data| - 1]), shape, Overwritten(main, at, data))
  {
    SetSampleShows(before, at + |data| - 1, data[|data| - 1]);
    OverwriteOne(main, at, data);
  }

  lemma OneMoreExtra(before: Chain, right: seq<Word>, at: nat, data: seq<Word>)
    requires data != [] && at + |data| <= |right|
    requires ShowsRight(before, Overwritten(right, at, data[..|data| - 1]))
    ensures ShowsRight(SetExtra(before, at + |data| - 1, data[|data| - 1]), Overwritten(right, at, data))
  {
    SetExtraShows(before, at + |data| - 1, data[|data| - 1]);
    OverwriteOne(right, at, data);
  }

  lemma {:induction false} WrittenShows(c: Chain, at: nat, data: seq<Word>)
    requires at + |data| <= TotalLen(c)
    ensures Shows(Written(c, at, data), Shape(c), Overwritten(Flat(c), at, data))
  {
    if data != [] {
      var init := data[..|data| - 1];
      WrittenShows(c, at, init);
      OneMoreSample(Written(c, at, init), Shape(c), Flat(c), at, data);
    }
  }

  lemma {:induction false} WrittenKeepsRight(c: Chain, at: nat, data: seq<Word>)
    requires ExtraFits(c)
    ensures ShowsRight(Written(c, at, data), FlatRight(c))
  {
    if data != [] {
      var n := |data| - 1;
      WrittenKeepsRight(c, at, data[..n]);
      SetSampleKeepsRight(Written(c, at, data[..n]), at + n, data[n]);
    }
  }

  lemma {:induction false} WrittenStereoMain(c: Chain, at: nat, left: seq<Word>, right: seq<Word>)
    requires |left| == |right| && at + |left| <= TotalLen(c)
    ensures Shows(WrittenStereo(c, at, left, right), Shape(c), Overwritten(Flat(c), at, left))
  {
    if left != [] {
      var n := |left| - 1;
      WrittenStereoMain(c, at, left[..n], right[..n]);
      var before := WrittenStereo(c, at, left[..n], right[..n]);
      OneMoreSample(before, Shape(c), Flat(c), at, left);
      SetExtraKeepsMain(SetSample(before, at + n, left[n]), at + n, right[n]);
    }
  }

  lemma {:induction false} WrittenStereoRight(c: Chain, at: nat, left: seq<Word>, right: seq<Word>)
    requires ExtraFits(c) && |left| == |right| && at + |left| <= TotalLen(c)
    ensures ShowsRight(WrittenStereo(c, at, left, right), Overwritten(FlatRight(c), at, right))
  {
    if left != [] {
      var n := |left| - 1;
      WrittenStereoRight(c, at, left[..n], right[..n]);
      var before := WrittenStereo(c, at, left[..n], right[..n]);
      SetSampleKeepsRight(before, at + n, left[n]);
      OneMoreExtra(SetSample(before, at + n, left[n]), FlatRight(c), at, right);
    }
  }

  /** Both channels overwritten from `at`, nothing else changed. */
  ghost predicate PutStereo(before: Chain, after: Chain, at: nat, left: seq<Word>, right: seq<Word>) {
    && |left| == |right| && at + |left| <= TotalLen(before) && ExtraFits(before)
    && Shows(after, Shape(before), Overwritten(Flat(before), at, left))
    && ShowsRight(after, Overwritten(FlatRight(before), at, right))
  }

  lemma WrittenStereoShows(c: Chain, at: nat, left: seq<Word>, right: seq<Word>)
    requires ExtraFits(c) && |left| == |right| && at + |left| <= TotalLen(c)
    ensures PutStereo(c, WrittenStereo(c, at, left, right), at, left, right)
  {
    WrittenStereoMain(c, at, left, right);
    WrittenStereoRight(c, at, left, right);
  }

  // ---- Fragments ----

  /** `get_fragment`: clipped at the end of the link that holds the offset. */
  function Fragment(c: Chain, offset: nat, size: nat): seq<Word> {
    if offset < |c.samples| then c.samples[offset..Min(offset + size, |c.samples|)]
    else if c.next.None? then []
    else Fragment(c.next.value, offset - |c.samples|, size)
  }

  class AudioBlockIterator {
    var block: Chain
    var position: nat
    const fragmentSize: nat

    constructor (block: Chain, fragmentSize: nat)
      ensures this.block == block && position == 0 && this.fragmentSize == fragmentSize
    {
      this.block := block;
      position := 0;
      this.fragmentSize := fragmentSize;
    }

    method Jump(offset: nat)
      modifies this`position
      ensures position == Min(offset, TotalLen(block))
    {
      position := Min(offset, TotalLen(block));
    }

    method GetFragment() returns (r: seq<Word>)
      ensures r == Fragment(block, position, fragmentSize)
    {
      var node, offset: nat := block, position;
      while true
        invariant Fragment(node, offset, fragmentSize) == Fragment(block, position, fragmentSize)
        decreases node
      {
        if offset < |node.samples| {
          return node.samples[offset..Min(offset + fragmentSize, |node.samples|)];
        }
        offset := offset - |node.samples|;
        if node.next.None? {
          return [];
        }
        node := node.next.value;
      }
    }

    method NextFragment()
      modifies this`position
      ensures position == Min(old(position) + fragmentSize, TotalLen(block))
    {
      position := Min(position + fragmentSize, TotalLen(block));
    }

    /** Overwrites exactly the samples from the old position on, across links, as far as the
        chain reaches, and advances past them. */
    method PutFragment(data: seq<Word>) returns (n: nat)
      modifies this
      ensures n == Min(|data|, Max(0, TotalLen(old(block)) - old(position)))
      ensures position == old(position) + n
      ensures n == 0 ==> block == old(block)
      ensures n > 0 ==>
        Shows(block, Shape(old(block)), Overwritten(Flat(old(block)), old(position), data[..n]))
      ensures ExtraFits(old(block)) ==> ShowsRight(block, FlatRight(old(block)))
    {
      n := Min(|data|, Max(0, TotalLen(block) - position));
      for i := 0 to n
        invariant position == old(position)
        invariant block == Written(old(block), position, data[..i])
      {
        assert data[..i + 1][..i] == data[..i];
        block := SetSample(block, position + i, data[i]);
      }
      if n > 0 {
        WrittenShows(old(block), position, data[..n]);
      }
      if ExtraFits(old(block)) {
        WrittenKeepsRight(old(block), position, data[..n]);
      }
      position := position + n;
    }

    /** The write loop; it stops where an extra channel has no sample to overwrite. */
    method WriteStereo(left: seq<Word>, right: seq<Word>) returns (reached: bool)
      requires |left| == |right|
      modifies this`block
      ensures reached <==> AllReached(old(block), position, |left|)
      ensures reached ==> block == WrittenStereo(old(block), position, left, right)
      ensures left == [] ==> block == old(block)
    {
      for i := 0 to |left|
        invariant block == StereoUpTo(old(block), position, left, right, i)
        invariant SameReach(old(block), block) && AllReached(old(block), position, i)
      {
        if !ExtraReaches(block, position + i) {
          StopsReached(old(block), block, position, i, |left|);
          return false;
        }
        NextReached(old(block), block, position, i, left[i], right[i]);
        WrittenStereoSnoc(old(block), position, left, right, i);
        block := SetSample(block, position + i, left[i]);
        block := SetExtra(block, position + i, right[i]);
      }
      assert left[..|left|] == left && right[..|right|] == right;
      reached := true;
    }

    /** The same for both channels, creating missing extra channels as silence.  It fails exactly
        when an extra channel shorter than its link has no sample to overwrite. */
    method PutFragmentStereo(left: seq<Word>, right: seq<Word>) returns (r: Result<nat, ()>)
      modifies this
      ensures var n := Min(Min(|left|, |right|), Max(0, TotalLen(old(block)) - old(position)));
        && r == (if AllReached(old(block), old(position), n) then Ok(n) else Err(()))
        && (n == 0 ==> block == old(block))
        && (r.Ok? ==> position == old(position) + n)
        && (r.Ok? && n > 0 ==>
              Shows(block, Shape(old(block)), Overwritten(Flat(old(block)), old(position), left[..n])))
        && (n > 0 && ExtraFits(old(block)) ==>
              r.Ok? && PutStereo(old(block), block, old(position), left[..n], right[..n]))
    {
      var n := Min(Min(|left|, |right|), Max(0, TotalLen(block) - position));
      var reached := WriteStereo(left[..n], right[..n]);
      if ExtraFits(old(block)) {
        FittingReached(old(block), position, n);
      }
      if !reached {
        return Err(());
      }
      if n > 0 {
        WrittenStereoMain(old(block), position, left[..n], right[..n]);
        if ExtraFits(old(block)) {
          WrittenStereoShows(old(block), position, left[..n], right[..n]);
        }
      }
      position := position + n;
      r := Ok(n);
    }
  }

  // ---- Walking a chain fragment by fragment ----

  /** What `get_fragment` and `next_fragment` yield from a position to the end. */
  function Walk(c: Chain, at: nat, size: nat): seq<Word>
    requires size > 0
    decreases Max(0, TotalLen(c) - at)
  {
    if at >= TotalLen(c) then []
    else Fragment(c, at, size) + Walk(c, Min(at + size, TotalLen(c)), size)
  }

  /** Every link that has samples after it holds a whole number of fragments. */
  predicate Aligned(c: Chain, size: nat)
    requires size > 0
  {
    c.next.Some? && TotalLen(c.next.value) > 0 ==> |c.samples| % size == 0 && Aligned(c.next.value, size)
  }

  lemma {:induction false} FragmentFits(c: Chain, at: nat, size: nat)
    requires at < TotalLen(c)
    ensures |Fragment(c, at, size)| <= Min(size, TotalLen(c) - at)
  {
    if at >= |c.samples| {
      FragmentFits(c.next.value, at - |c.samples|, size);
    }
  }

  lemma {:induction false} WalkFits(c: Chain, at: nat, size: nat)
    requires size > 0 && at <= TotalLen(c)
    ensures |Walk(c, at, size)| <= TotalLen(c) - at
    decreases TotalLen(c) - at
  {
    if at < TotalLen(c) {
      FragmentFits(c, at, size);
      WalkFits(c, Min(at + size, TotalLen(c)), size);
    }
  }

  /** Past the first link, a walk is a walk of the rest. */
  lemma {:induction false} WalkSkips(c: Chain, at: nat, size: nat)
    requires size > 0 && c.next.Some? && |c.samples| <= at <= TotalLen(c)
    ensures Walk(c, at, size) == Walk(c.next.value, at - |c.samples|, size)
    decreases TotalLen(c) - at
  {
    if at < TotalLen(c) {
      WalkSkips(c, Min(at + size, TotalLen(c)), size);
    }
  }

  /** The last link is covered whatever its length. */
  lemma {:induction false} WalkLast(c: Chain, at: nat, size: nat)
    requires size > 0 && at <= |c.samples| == TotalLen(c)
    ensures Walk(c, at, size) == c.samples[at..]
    decreases |c.samples| - at
  {
    if at < |c.samples| {
      WalkLast(c, Min(at + size, |c.samples|), size);
    }
  }

  /** A link of whole fragments hands over exactly at its end. */
  lemma {:induction false} WalkCrosses(c: Chain, at: nat, size: nat)
    requires size > 0 && c.next.Some? && |c.samples| % size == 0
    requires at <= |c.samples| && at % size == 0
    ensures Walk(c, at, size) == c.samples[at..] + Walk(c.next.value, 0, size)
    decreases |c.samples| - at
  {
    if at == |c.samples| {
      WalkSkips(c, at, size);
    } else {
      NextMultiple(at, |c.samples|, size);
      WalkCrosses(c, at + size, size);
      var tail := Walk(c.next.value, 0, size);
      assert c.samples[at..at + size] + (c.samples[at + size..] + tail) == c.samples[at..] + tail;
    }
  }

  lemma NextMultiple(a: nat, b: nat, m: nat)
    requires m > 0 && a < b && a % m == 0 && b % m == 0
    ensures a + m <= b && (a + m) % m == 0
  {
    var i, j := a / m, b / m;
    assert a == i * m && b == j * m;
    if j <= i {
      MulMonotone(j, i, m);
    } else {
      MulMonotone(i + 1, j, m);
      assert (i + 1) * m == a + m;
    }
    ModOfMultiple(i + 1, m);
  }

  /** A link that ends inside a fragment loses samples if any follow it. */
  lemma {:induction false} WalkLoses(c: Chain, at: nat, size: nat)
    requires size > 0 && c.next.Some? && TotalLen(c.next.value) > 0 && |c.samples| % size != 0
    requires at < |c.samples| && at % size == 0
    ensures |Walk(c, at, size)| < TotalLen(c) - at
    decreases |c.samples| - at
  {
    var next := Min(at + size, TotalLen(c));
    if at + size < |c.samples| {
      ModOfMultiple(at / size + 1, size);
      assert (at / size + 1) * size == at + size;
      WalkLoses(c, at + size, size);
    } else {
      assert at + size != |c.samples| by {
        assert (at / size + 1) * size == at + size;
        ModOfMultiple(at / size + 1, size);
      }
      WalkFits(c, next, size);
    }
  }

  /** Walking covers the chain, every sample once and in order, if and only if every link that
      has samples after it holds a whole number of fragments. */
  lemma {:induction false} WalkCoversIff(c: Chain, size: nat)
    requires size > 0
    ensures Walk(c, 0, size) == Flat(c) <==> Aligned(c, size)
  {
    if c.next.None? {
      WalkLast(c, 0, size);
    } else if TotalLen(c.next.value) == 0 {
      WalkLast(c, 0, size);
      assert Flat(c) == c.samples + Flat(c.next.value) == c.samples;
    } else if |c.samples| % size == 0 {
      WalkCrosses(c, 0, size);
      WalkCoversIff(c.next.value, size);
      assert c.samples[0..] == c.samples;
      var w := Walk(c.next.value, 0, size);
      if c.samples + w == c.samples + Flat(c.next.value) {
        assert w == (c.samples + w)[|c.samples|..] == Flat(c.next.value);
      }
    } else {
      WalkLoses(c, 0, size);
    }
  }

  // ---- The sample cursor ----

  class ChainCursor {
    var node: Chain
    var index: nat

    /** The samples still to come. */
    function Remaining(): seq<Word>
      reads this
    {
      (if index <= |node.samples| then node.samples[index..] else [])
      + (if node.next.Some? then Flat(node.next.value) else [])
    }

    constructor (c: Chain)
      ensures Remaining() == Flat(c) && index <= |node.samples|
    {
      node := c;
      index := 0;
    }

    method Next() returns (r: Option<Word>)
      requires index <= |node.samples|
      modifies this
      ensures index <= |node.samples|
      ensures old(Remaining()) == [] ==> r == None && Remaining() == []
      ensures old(Remaining()) != [] ==> r == Some(old(Remaining())[0]) && Remaining() == old(Remaining())[1..]
    {
      while true
        invariant index <= |node.samples| && Remaining() == old(Remaining())
        decreases node
      {
        if index < |node.samples| {
          r := Some(node.samples[index]);
          index := index + 1;
          return;
        }
        if node.next.None? {
          return None;
        }
        node := node.next.value;
        index := 0;
      }
    }
  }

  // ---- Copying a subchain ----

  lemma {:induction false} ExtraSampleIsFlatRight(c: Chain, i: nat)
    requires ExtraFits(c) && i < TotalLen(c)
    ensures (if ExtraSample(c, i).Some? then ExtraSample(c, i).value else 0) == FlatRight(c)[i]
  {
    if i >= |c.samples| {
      ExtraSampleIsFlatRight(c.next.value, i - |c.samples|);
    }
  }

  method CopyMain(c: Chain, from: nat, end: nat) returns (samples: seq<Word>)
    requires from <= end <= TotalLen(c)
    ensures samples == Flat(c)[from..end]
  {
    samples := [];
    for i := from to end
      invariant samples == Flat(c)[from..i]
    {
      SampleIsFlat(c, i);
      samples := samples + [Sample(c, i).value];
    }
  }

  method CopyExtra(c: Chain, from: nat, end: nat) returns (extra: seq<Word>)
    requires from <= end <= TotalLen(c)
    ensures |extra| == end - from
    ensures ExtraFits(c) ==> extra == FlatRight(c)[from..end]
  {
    extra := [];
    for i := from to end
      invariant |extra| == i - from
      invariant ExtraFits(c) ==> extra == FlatRight(c)[from..i]
    {
      if ExtraFits(c) {
        ExtraSampleIsFlatRight(c, i);
      }
      var s := ExtraSample(c, i);
      extra := extra + [if s.Some? then s.value else 0];
    }
  }

  /** `to < from` means to the end; the copy is one link holding that slice of the flat view. */
  method GenerateSubchain(c: Chain, from: nat, to: nat, stereo: bool) returns (r: Option<Chain>)
    ensures r.Some? <==> from <= TotalLen(c)
    ensures r.Some? ==>
      var end := if to >= from then Min(to, TotalLen(c)) else TotalLen(c);
      && r.value.next.None? && r.value.samples == Flat(c)[from..end]
      && (r.value.extra.Some? <==> stereo)
      && (stereo && ExtraFits(c) ==> r.value.extra.value == FlatRight(c)[from..end])
  {
    var total := TotalLen(c);
    if from > total {
      return None;
    }
    var end := if to >= from then Min(to, total) else total;
    var samples := CopyMain(c, from, end);
    if !stereo {
      return Some(Link(samples, None, None));
    }
    var extra := CopyExtra(c, from, end);
    r := Some(Link(samples, Some(extra), None));
  }
}
