/** Audio block chains: the FWB2 file format, the flat view of a chain, and the iterators over
    it.  A chain owns its links, so it is a value; samples are opaque 32-bit words. */
module Chains {

  import opened Util
  import opened Wire

  datatype Chain = Link(samples: seq<Word>, extra: Option<seq<Word>>, next: Option<Chain>)

  const MAX_SAMPLES: nat := 0x400_0000
  const MAX_LINKS: nat := 0x10_0000
  const STEREO_FLAG: Byte := 1

  function TotalLen(c: Chain): nat {
    |c.samples| + (if c.next.Some? then TotalLen(c.next.value) else 0)
  }

  function Links(c: Chain): nat {
    1 + (if c.next.Some? then Links(c.next.value) else 0)
  }

  /** All main samples, head first. */
  function Flat(c: Chain): (s: seq<Word>)
    ensures |s| == TotalLen(c)
  {
    c.samples + (if c.next.Some? then Flat(c.next.value) else [])
  }

  function Sample(c: Chain, offset: nat): Option<Word> {
    if offset < |c.samples| then Some(c.samples[offset])
    else if c.next.None? then None
    else Sample(c.next.value, offset - |c.samples|)
  }

  function ExtraSample(c: Chain, offset: nat): Option<Word> {
    if offset < |c.samples| then
      if c.extra.Some? && offset < |c.extra.value| then Some(c.extra.value[offset]) else None
    else if c.next.None? then None
    else ExtraSample(c.next.value, offset - |c.samples|)
  }

  lemma {:induction false} SampleIsFlat(c: Chain, i: nat)
    ensures Sample(c, i) == if i < TotalLen(c) then Some(Flat(c)[i]) else None
  {
    if i >= |c.samples| && c.next.Some? {
      SampleIsFlat(c.next.value, i - |c.samples|);
    }
  }

  // ---- Writing ----

  datatype WireError = ExtraMismatch | BadLength | BadMagic | BadCount | Empty | TooLong | Truncated

  function LinkBytes(c: Chain): Result<Bytes, WireError> {
    if c.extra.Some? && |c.extra.value| != |c.samples| then Err(ExtraMismatch)
    else if |c.samples| == 0 || |c.samples| > MAX_SAMPLES then Err(BadLength)
    else Ok(Le32(|c.samples|) + [if c.extra.Some? then STEREO_FLAG else 0] + LeWords(c.samples)
            + (if c.extra.Some? then LeWords(c.extra.value) else []))
  }

  function LinksBytes(c: Chain): Result<Bytes, WireError> {
    var head := LinkBytes(c);
    if head.Err? || c.next.None? then head
    else
      var tail := LinksBytes(c.next.value);
      if tail.Err? then tail else Ok(head.value + tail.value)
  }

  const MAGIC1: Bytes := [70, 87, 66, 49]
  const MAGIC2: Bytes := [70, 87, 66, 50]

  /** The link count is truncated to 32 bits. */
  function Serialized(c: Chain): Result<Bytes, WireError> {
    var body := LinksBytes(c);
    if body.Err? then body else Ok(MAGIC2 + Le32(Links(c) % TWO_32) + body.value)
  }

  method WriteLink(block: Chain) returns (r: Result<Bytes, WireError>)
    ensures r == LinkBytes(block)
  {
    var length := |block.samples|;
    var flags: Byte := 0;
    if block.extra.Some? {
      if |block.extra.value| != length {
        return Err(ExtraMismatch);
      }
      flags := STEREO_FLAG;
    }
    if length == 0 || length > MAX_SAMPLES {
      return Err(BadLength);
    }
    var out := Le32(length) + [flags] + LeWords(block.samples);
    if flags != 0 {
      out := out + LeWords(block.extra.value);
    } else {
      assert out + [] == out;
    }
    r := Ok(out);
  }

  method Serialize(c: Chain) returns (r: Result<Bytes, WireError>)
    ensures r == Serialized(c)
  {
    var count := ChainLen(c);
    var header := MAGIC2 + Le32(count % TWO_32);
    var out: Bytes := [];
    var node := Some(c);
    PrependNothing(LinksBytes(c));
    while node.Some?
      invariant node.Some? ==> LinksBytes(c) == Prepend(out, LinksBytes(node.value))
      invariant node.None? ==> LinksBytes(c) == Ok(out)
      decreases node
    {
      var block := node.value;
      var link := WriteLink(block);
      if link.Err? {
        return Err(link.error);
      }
      if block.next.Some? {
        PrependTwice(out, link.value, LinksBytes(block.next.value));
      }
      out := out + link.value;
      node := block.next;
    }
    r := Ok(header + out);
  }

  lemma PrependNothing(r: Result<Bytes, WireError>)
    ensures Prepend([], r) == r
  {
    if r.Ok? {
      assert [] + r.value == r.value;
    }
  }

  lemma PrependTwice(a: Bytes, b: Bytes, r: Result<Bytes, WireError>)
    ensures Prepend(a + b, r) == Prepend(a, Prepend(b, r))
  {
    if r.Ok? {
      assert a + b + r.value == a + (b + r.value);
    }
  }

  function Prepend(front: Bytes, r: Result<Bytes, WireError>): Result<Bytes, WireError> {
    if r.Ok? then Ok(front + r.value) else r
  }

  method ChainLen(c: Chain) returns (count: nat)
    ensures count == Links(c)
  {
    count := 0;
    var node := Some(c);
    while node.Some?
      invariant count + (if node.Some? then Links(node.value) else 0) == Links(c)
      decreases node
    {
      count := count + 1;
      node := node.value.next;
    }
  }

  // ---- Reading ----

  type Parsed<T> = Result<(T, Bytes), WireError>

  function TakeBytes(b: Bytes, n: nat): Parsed<Bytes> {
    if |b| < n then Err(Truncated) else Ok((b[..n], b[n..]))
  }

  function TakeSamples(b: Bytes, n: nat): (r: Parsed<seq<Word>>)
    ensures r.Ok? ==> |r.value.0| == n
  {
    var raw := TakeBytes(b, 4 * n);
    if raw.Err? then Err(raw.error)
    else Ok((UnLeWords(raw.value.0), raw.value.1))
  }

  /** A link's flags and channels. */
  function TakeBody(b: Bytes, length: nat): (r: Parsed<Chain>)
    ensures r.Ok? ==> |r.value.0.samples| == length && r.value.0.next.None?
  {
    var flags := TakeBytes(b, 1);
    if flags.Err? then Err(flags.error)
    else
      var main := TakeSamples(flags.value.1, length);
      if main.Err? then Err(main.error)
      else if flags.value.0[0] % 2 == 0 then Ok((Link(main.value.0, None, None), main.value.1))
      else
        var extra := TakeSamples(main.value.1, length);
        if extra.Err? then Err(extra.error)
        else Ok((Link(main.value.0, Some(extra.value.0), None), extra.value.1))
  }

  /** One link, unlinked, against the samples still allowed. */
  function TakeLink(b: Bytes, remaining: nat): (r: Parsed<Chain>)
    ensures r.Ok? ==> 0 < |r.value.0.samples| <= remaining && r.value.0.next.None?
  {
    var header := TakeBytes(b, 4);
    if header.Err? then Err(header.error)
    else
      var length := UnLe32(header.value.0);
      if length > MAX_SAMPLES then Err(BadLength)
      else if length == 0 then Err(Empty)
      else if length > remaining then Err(TooLong)
      else TakeBody(header.value.1, length)
  }

  function TakeLinks(b: Bytes, count: nat, remaining: nat): (r: Parsed<seq<Chain>>)
    ensures r.Ok? ==> |r.value.0| == count
    decreases count
  {
    if count == 0 then Ok(([], b))
    else
      var head := TakeLink(b, remaining);
      if head.Err? then Err(head.error)
      else
        var tail := TakeLinks(head.value.1, count - 1, remaining - |head.value.0.samples|);
        if tail.Err? then Err(tail.error) else Ok(([head.value.0] + tail.value.0, tail.value.1))
  }

  function Chained(blocks: seq<Chain>): Chain
    requires blocks != []
  {
    blocks[0].(next := if |blocks| == 1 then None else Some(Chained(blocks[1..])))
  }

  function Deserialized(b: Bytes): Parsed<Chain> {
    var magic := TakeBytes(b, 4);
    if magic.Err? then Err(magic.error)
    else if magic.value.0 == MAGIC1 then DeserializedLegacy(magic.value.1)
    else if magic.value.0 == MAGIC2 then DeserializedChain(magic.value.1)
    else Err(BadMagic)
  }

  function DeserializedLegacy(b: Bytes): Parsed<Chain> {
    var header := TakeBytes(b, 8);
    if header.Err? then Err(header.error)
    else if FromLe(header.value.0) > MAX_SAMPLES then Err(BadLength)
    else
      var main := TakeSamples(header.value.1, FromLe(header.value.0));
      if main.Err? then Err(main.error) else Ok((Link(main.value.0, None, None), main.value.1))
  }

  function DeserializedChain(b: Bytes): Parsed<Chain> {
    var header := TakeBytes(b, 4);
    if header.Err? then Err(header.error)
    else
      var count := UnLe32(header.value.0);
      if count == 0 || count > MAX_LINKS then Err(BadCount)
      else
        var blocks := TakeLinks(header.value.1, count, MAX_SAMPLES);
        if blocks.Err? then Err(blocks.error) else Ok((Chained(blocks.value.0), blocks.value.1))
  }

  /** A byte source consumed by `read_exact`; where a failed read leaves it is not specified,
      and every failure ends the parse. */
  class Reader {
    var rest: Bytes

    constructor (bytes: Bytes)
      ensures rest == bytes
    {
      rest := bytes;
    }

    method ReadExact(n: nat) returns (r: Result<Bytes, WireError>)
      modifies this
      ensures r.Ok? <==> TakeBytes(old(rest), n).Ok?
      ensures r.Ok? ==> TakeBytes(old(rest), n) == Ok((r.value, rest))
      ensures r.Err? ==> r.error == Truncated && rest == old(rest)
    {
      if |rest| < n {
        return Err(Truncated);
      }
      r := Ok(rest[..n]);
      rest := rest[n..];
    }

    method ReadSamples(n: nat) returns (r: Result<seq<Word>, WireError>)
      modifies this
      ensures r.Ok? <==> TakeSamples(old(rest), n).Ok?
      ensures r.Ok? ==> TakeSamples(old(rest), n) == Ok((r.value, rest))
      ensures r.Err? ==> r.error == Truncated && rest == old(rest)
    {
      var raw := ReadExact(4 * n);
      if raw.Err? {
        return Err(raw.error);
      }
      var bytes := raw.value;
      var samples: seq<Word> := [];
      for i := 0 to n
        invariant samples == UnLeWords(bytes)[..i]
      {
        samples := samples + [UnLe32(bytes[4 * i..4 * i + 4])];
      }
      assert UnLeWords(bytes)[..n] == UnLeWords(bytes);
      r := Ok(samples);
    }

    method ReadLink(remaining: nat) returns (r: Result<Chain, WireError>)
      modifies this
      ensures r.Ok? <==> TakeLink(old(rest), remaining).Ok?
      ensures r.Ok? ==> TakeLink(old(rest), remaining) == Ok((r.value, rest))
      ensures r.Err? ==> TakeLink(old(rest), remaining) == Err(r.error)
    {
      var lengthBytes := ReadExact(4);
      if lengthBytes.Err? {
        return Err(lengthBytes.error);
      }
      var length := UnLe32(lengthBytes.value);
      if length > MAX_SAMPLES {
        return Err(BadLength);
      }
      if length == 0 {
        return Err(Empty);
      }
      if length > remaining {
        return Err(TooLong);
      }
      var flags := ReadExact(1);
      if flags.Err? {
        return Err(flags.error);
      }
      var main := ReadSamples(length);
      if main.Err? {
        return Err(main.error);
      }
      if flags.value[0] % 2 == 0 {
        return Ok(Link(main.value, None, None));
      }
      var extra := ReadSamples(length);
      if extra.Err? {
        return Err(extra.error);
      }
      r := Ok(Link(main.value, Some(extra.value), None));
    }

    /** One more link of the `left` still expected, `goal` being the parse of all of them. */
    method ReadNext(left: nat, remaining: nat, ghost blocks: seq<Chain>, ghost goal: Parsed<seq<Chain>>)
      returns (r: Result<Chain, WireError>)
      requires left > 0 && goal == Outcome(blocks, rest, left, remaining)
      modifies this
      ensures r.Ok? ==> |r.value.samples| <= remaining
      ensures r.Ok? ==>
        goal == Outcome(blocks + [r.value], rest, left - 1, remaining - |r.value.samples|)
      ensures r.Err? ==> goal == Err(r.error)
    {
      r := ReadLink(remaining);
      if r.Ok? {
        ResumeStep(blocks, r.value, TakeLinks(rest, left - 1, remaining - |r.value.samples|));
      }
    }

    method ReadLinks(count: nat, budget: nat, ghost goal: Parsed<seq<Chain>>)
      returns (r: Result<seq<Chain>, WireError>)
      requires goal == Outcome([], rest, count, budget)
      modifies this
      ensures goal == if r.Ok? then Ok((r.value, rest)) else Err(r.error)
    {
      var remaining: nat, left: nat := budget, count;
      var blocks: seq<Chain> := [];
      while left > 0
        invariant goal == Outcome(blocks, rest, left, remaining)
      {
        var link := ReadNext(left, remaining, blocks, goal);
        if link.Err? {
          return Err(link.error);
        }
        left, remaining, blocks := left - 1, remaining - |link.value.samples|, blocks + [link.value];
      }
      ResumeDone(blocks, rest, remaining);
      r := Ok(blocks);
    }

    method DeserializeChain() returns (r: Result<Chain, WireError>)
      modifies this
      ensures r.Ok? <==> DeserializedChain(old(rest)).Ok?
      ensures r.Ok? ==> DeserializedChain(old(rest)) == Ok((r.value, rest))
      ensures r.Err? ==> DeserializedChain(old(rest)) == Err(r.error)
    {
      var header := ReadExact(4);
      if header.Err? {
        return Err(header.error);
      }
      var count := UnLe32(header.value);
      if count == 0 || count > MAX_LINKS {
        return Err(BadCount);
      }
      ghost var goal := TakeLinks(rest, count, MAX_SAMPLES);
      ResumeNothing(goal);
      var parsed := ReadLinks(count, MAX_SAMPLES, goal);
      if parsed.Err? {
        return Err(parsed.error);
      }
      // Link back to front, so the chain keeps its structure.
      var blocks := parsed.value;
      var chain: Option<Chain> := None;
      var k := |blocks|;
      while k > 0
        invariant 0 <= k <= |blocks|
        invariant chain == if k == |blocks| then None else Some(Chained(blocks[k..]))
      {
        k := k - 1;
        chain := Some(blocks[k].(next := chain));
        assert blocks[k..][1..] == blocks[k + 1..];
      }
      assert blocks[0..] == blocks;
      r := Ok(chain.value);
    }

    method Deserialize() returns (r: Result<Chain, WireError>)
      modifies this
      ensures r.Ok? <==> Deserialized(old(rest)).Ok?
      ensures r.Ok? ==> Deserialized(old(rest)) == Ok((r.value, rest))
      ensures r.Err? ==> Deserialized(old(rest)) == Err(r.error)
    {
      var magic := ReadExact(4);
      if magic.Err? {
        return Err(magic.error);
      }
      if magic.value == MAGIC2 {
        r := DeserializeChain();
        return;
      }
      if magic.value != MAGIC1 {
        return Err(BadMagic);
      }
      var header := ReadExact(8);
      if header.Err? {
        return Err(header.error);
      }
      var n := FromLe(header.value);
      if n > MAX_SAMPLES {
        return Err(BadLength);
      }
      var main := ReadSamples(n);
      if main.Err? {
        return Err(main.error);
      }
      r := Ok(Link(main.value, None, None));
    }
  }

  function Resume(done: seq<Chain>, r: Parsed<seq<Chain>>): Parsed<seq<Chain>> {
    if r.Ok? then Ok((done + r.value.0, r.value.1)) else r
  }

  /** The whole parse, `done` links in and `left` to go. */
  function Outcome(done: seq<Chain>, b: Bytes, left: nat, remaining: nat): Parsed<seq<Chain>> {
    Resume(done, TakeLinks(b, left, remaining))
  }

  lemma ResumeNothing(r: Parsed<seq<Chain>>)
    ensures Resume([], r) == r
  {
    if r.Ok? {
      assert [] + r.value.0 == r.value.0;
    }
  }

  lemma ResumeDone(blocks: seq<Chain>, b: Bytes, remaining: nat)
    ensures Outcome(blocks, b, 0, remaining) == Ok((blocks, b))
  {
    assert blocks + [] == blocks;
  }

  lemma ResumeStep(done: seq<Chain>, block: Chain, r: Parsed<seq<Chain>>)
    ensures Resume(done + [block], r) == Resume(done, Resume([block], r))
  {
    if r.Ok? {
      assert done + [block] + r.value.0 == done + ([block] + r.value.0);
    }
  }

  // ---- Round trip and bounds ----

  ghost predicate Bounded(blocks: seq<Chain>, count: nat, budget: nat) {
    |blocks| == count > 0 ==> Links(Chained(blocks)) == count && TotalLen(Chained(blocks)) <= budget
  }

  lemma BoundedCons(block: Chain, blocks: seq<Chain>, budget: nat)
    requires |block.samples| <= budget && Bounded(blocks, |blocks|, budget - |block.samples|)
    ensures Bounded([block] + blocks, |blocks| + 1, budget)
  {
    assert ([block] + blocks)[1..] == blocks;
  }

  lemma {:induction false} ChainedBounds(b: Bytes, count: nat, budget: nat)
    ensures TakeLinks(b, count, budget).Ok? ==> Bounded(TakeLinks(b, count, budget).value.0, count, budget)
    decreases count
  {
    if count > 0 {
      var head := TakeLink(b, budget);
      if head.Ok? {
        var left := budget - |head.value.0.samples|;
        ChainedBounds(head.value.1, count - 1, left);
        var tail := TakeLinks(head.value.1, count - 1, left);
        if tail.Ok? {
          BoundedCons(head.value.0, tail.value.0, budget);
        }
      }
    }
  }

  /** Whatever the input, a parsed chain has between 1 and 2^20 links and at most 2^26 main
      samples. */
  lemma DeserializeBounded(b: Bytes)
    requires Deserialized(b).Ok?
    ensures var c := Deserialized(b).value.0; 1 <= Links(c) <= MAX_LINKS && TotalLen(c) <= MAX_SAMPLES
  {
    if b[..4] == MAGIC2 {
      var rest := b[4..];
      ChainedBounds(rest[4..], UnLe32(rest[..4]), MAX_SAMPLES);
      assert Bounded(TakeLinks(rest[4..], UnLe32(rest[..4]), MAX_SAMPLES).value.0, UnLe32(rest[..4]), MAX_SAMPLES);
    }
  }

  lemma TakeAppended(front: Bytes, rest: Bytes)
    ensures TakeBytes(front + rest, |front|) == Ok((front, rest))
  {
  }

  lemma TakeLeWords(ws: seq<Word>, rest: Bytes)
    ensures TakeSamples(LeWords(ws) + rest, |ws|) == Ok((ws, rest))
  {
    WordsRoundTrip(ws);
    TakeAppended(LeWords(ws), rest);
  }

  function BodyBytes(c: Chain): Bytes {
    [if c.extra.Some? then STEREO_FLAG else 0] + LeWords(c.samples)
    + (if c.extra.Some? then LeWords(c.extra.value) else [])
  }

  lemma TakeBodyBytes(c: Chain, rest: Bytes)
    requires c.extra.Some? ==> |c.extra.value| == |c.samples|
    ensures TakeBody(BodyBytes(c) + rest, |c.samples|) == Ok((c.(next := None), rest))
  {
    var flag: Bytes := [if c.extra.Some? then STEREO_FLAG else 0];
    var extra := if c.extra.Some? then LeWords(c.extra.value) else [];
    var afterFlag := LeWords(c.samples) + (extra + rest);
    assert BodyBytes(c) + rest == flag + afterFlag;
    TakeAppended(flag, afterFlag);
    TakeLeWords(c.samples, extra + rest);
    if c.extra.Some? {
      TakeLeWords(c.extra.value, rest);
    } else {
      assert extra + rest == rest;
    }
  }

  lemma TakeLinkBytes(c: Chain, rest: Bytes, remaining: nat)
    requires LinkBytes(c).Ok? && |c.samples| <= remaining
    ensures TakeLink(LinkBytes(c).value + rest, remaining) == Ok((c.(next := None), rest))
  {
    assert LinkBytes(c).value + rest == Le32(|c.samples|) + (BodyBytes(c) + rest);
    WordRoundTrip(|c.samples|);
    TakeAppended(Le32(|c.samples|), BodyBytes(c) + rest);
    TakeBodyBytes(c, rest);
  }

  /** The links of a chain, unlinked. */
  function Unlinked(c: Chain): (s: seq<Chain>)
    ensures |s| == Links(c)
  {
    [c.(next := None)] + (if c.next.Some? then Unlinked(c.next.value) else [])
  }

  lemma {:induction false} ChainedUnlinked(c: Chain)
    ensures Chained(Unlinked(c)) == c
  {
    if c.next.Some? {
      assert Unlinked(c)[1..] == Unlinked(c.next.value);
      ChainedUnlinked(c.next.value);
    }
  }

  /** The next `count` links of the bytes and what follows them, if they are well formed. */
  function LinksIn(b: Bytes, count: nat, remaining: nat): Option<(seq<Chain>, Bytes)> {
    var r := TakeLinks(b, count, remaining);
    if r.Ok? then Some(r.value) else None
  }

  lemma TakeLinksCons(b: Bytes, count: nat, remaining: nat, block: Chain, mid: Bytes, blocks: seq<Chain>, rest: Bytes)
    requires count > 0 && TakeLink(b, remaining) == Ok((block, mid)) && |block.samples| <= remaining
    requires LinksIn(mid, count - 1, remaining - |block.samples|) == Some((blocks, rest))
    ensures LinksIn(b, count, remaining) == Some(([block] + blocks, rest))
  {
  }

  lemma TakeLastBytes(c: Chain, rest: Bytes, remaining: nat)
    requires c.next.None? && LinksBytes(c).Ok? && |c.samples| <= remaining
    ensures LinksIn(LinksBytes(c).value + rest, Links(c), remaining) == Some((Unlinked(c), rest))
  {
    TakeLinkBytes(c, rest, remaining);
    assert LinksIn(rest, 0, remaining - |c.samples|) == Some(([], rest));
    TakeLinksCons(LinkBytes(c).value + rest, 1, remaining, c.(next := None), rest, [], rest);
    assert [c.(next := None)] + [] == Unlinked(c);
  }

  lemma TakeMoreBytes(c: Chain, b: Bytes, head: Bytes, after: Bytes, rest: Bytes, n: nat, remaining: nat, blocks: seq<Chain>)
    requires LinkBytes(c) == Ok(head) && |c.samples| <= remaining && b == head + after
    requires LinksIn(after, n, remaining - |c.samples|) == Some((blocks, rest))
    ensures LinksIn(b, n + 1, remaining) == Some(([c.(next := None)] + blocks, rest))
  {
    TakeLinkBytes(c, after, remaining);
    TakeLinksCons(b, n + 1, remaining, c.(next := None), after, blocks, rest);
  }

  lemma TakeAllBytes(c: Chain, rest: Bytes, remaining: nat)
    requires c.next.Some? && LinksBytes(c).Ok? && |c.samples| <= remaining
    requires LinksIn(LinksBytes(c.next.value).value + rest, Links(c.next.value), remaining - |c.samples|)
      == Some((Unlinked(c.next.value), rest))
    ensures LinksIn(LinksBytes(c).value + rest, Links(c), remaining) == Some((Unlinked(c), rest))
  {
    var head, tail := LinkBytes(c).value, LinksBytes(c.next.value).value;
    Regroup(head, tail, rest);
    TakeMoreBytes(c, LinksBytes(c).value + rest, head, tail + rest, rest,
                  Links(c.next.value), remaining, Unlinked(c.next.value));
  }

  lemma {:induction false} TakeLinksBytes(c: Chain, rest: Bytes, remaining: nat)
    requires LinksBytes(c).Ok? && TotalLen(c) <= remaining
    ensures LinksIn(LinksBytes(c).value + rest, Links(c), remaining) == Some((Unlinked(c), rest))
  {
    if c.next.None? {
      TakeLastBytes(c, rest, remaining);
    } else {
      TakeLinksBytes(c.next.value, rest, remaining - |c.samples|);
      TakeAllBytes(c, rest, remaining);
    }
  }

  lemma DeserializeBody(c: Chain, rest: Bytes)
    requires LinksBytes(c).Ok? && Links(c) <= MAX_LINKS && TotalLen(c) <= MAX_SAMPLES
    ensures DeserializedChain(Le32(Links(c)) + (LinksBytes(c).value + rest)) == Ok((c, rest))
  {
    WordRoundTrip(Links(c));
    TakeAppended(Le32(Links(c)), LinksBytes(c).value + rest);
    TakeLinksBytes(c, rest, MAX_SAMPLES);
    ChainedUnlinked(c);
  }

  lemma DeserializeMagic(after: Bytes)
    ensures Deserialized(MAGIC2 + after) == DeserializedChain(after)
  {
    TakeAppended(MAGIC2, after);
  }

  lemma ReadsBack(c: Chain, body: Bytes, rest: Bytes)
    requires LinksBytes(c) == Ok(body) && Links(c) <= MAX_LINKS && TotalLen(c) <= MAX_SAMPLES
    ensures Deserialized(MAGIC2 + Le32(Links(c)) + body + rest) == Ok((c, rest))
  {
    var after := Le32(Links(c)) + (body + rest);
    DeserializeBody(c, rest);
    DeserializeMagic(after);
    Regroup(MAGIC2 + Le32(Links(c)), body, rest);
    Regroup(MAGIC2, Le32(Links(c)), body + rest);
  }

  lemma SerializedShape(c: Chain, body: Bytes, n: nat)
    requires LinksBytes(c) == Ok(body) && Links(c) == n && n <= MAX_LINKS
    ensures Serialized(c) == Ok(MAGIC2 + Le32(n) + body)
  {
    DivModUnique(n, 0, n, TWO_32);
  }

  lemma RoundTrips(c: Chain, bytes: Bytes, rest: Bytes)
    requires Serialized(c) == Ok(bytes) && Links(c) <= MAX_LINKS && TotalLen(c) <= MAX_SAMPLES
    ensures Deserialized(bytes + rest) == Ok((c, rest))
  {
    SerializedShape(c, LinksBytes(c).value, Links(c));
    ReadsBack(c, LinksBytes(c).value, rest);
  }

  /** A chain that serializes is read back link by link, whatever follows it in the stream and
      consuming exactly its own bytes, if and only if it has at most 2^20 links and 2^26 main
      samples in all. */
  lemma RoundTripIff(c: Chain, bytes: Bytes, rest: Bytes)
    requires Serialized(c) == Ok(bytes)
    ensures Deserialized(bytes + rest) == Ok((c, rest))
      <==> Links(c) <= MAX_LINKS && TotalLen(c) <= MAX_SAMPLES
  {
    if Links(c) <= MAX_LINKS && TotalLen(c) <= MAX_SAMPLES {
      RoundTrips(c, bytes, rest);
    } else if Deserialized(bytes + rest).Ok? {
      DeserializeBounded(bytes + rest);
    }
  }

  /** What serializes: links neither empty nor oversized, extra channels as long as their link. */
  lemma {:induction false} SerializableIff(c: Chain)
    ensures Serialized(c).Ok? <==> AllLinks(c)
  {
    if c.next.Some? {
      SerializableIff(c.next.value);
    }
  }

  predicate AllLinks(c: Chain) {
    && 0 < |c.samples| <= MAX_SAMPLES
    && (c.extra.Some? ==> |c.extra.value| == |c.samples|)
    && (c.next.Some? ==> AllLinks(c.next.value))
  }

  lemma MagicsAre(i: nat)
    requires i < 4
    ensures |MAGIC1| == 4 && MAGIC1[i] == "FWB1"[i] as int
    ensures |MAGIC2| == 4 && MAGIC2[i] == "FWB2"[i] as int
  {
  }

  lemma LegacyMagic(after: Bytes)
    ensures Deserialized(MAGIC1 + after) == DeserializedLegacy(after)
  {
    TakeAppended(MAGIC1, after);
  }

  lemma LegacyHeader(header: Bytes, n: nat, body: Bytes)
    requires |header| == 8 && FromLe(header) == n
    ensures n > MAX_SAMPLES ==> DeserializedLegacy(header + body) == Err(BadLength)
    ensures n <= MAX_SAMPLES && |body| < 4 * n ==> DeserializedLegacy(header + body) == Err(Truncated)
    ensures n <= MAX_SAMPLES && TakeSamples(body, n).Ok? ==>
      DeserializedLegacy(header + body) == Ok((Link(TakeSamples(body, n).value.0, None, None), TakeSamples(body, n).value.1))
  {
    TakeAppended(header, body);
  }

  lemma Pow8(n: nat)
    requires n < 0x1_0000_0000
    ensures n < Pow256(8)
  {
    Pow4();
    assert Pow256(5) == 256 * TWO_32 && Pow256(6) == 65536 * TWO_32;
    assert Pow256(7) == 16777216 * TWO_32;
  }

  /** A block in the older format, a 64-bit length and its samples, reads back as one mono link. */
  lemma LegacyReadsBack(samples: seq<Word>, rest: Bytes)
    requires |samples| <= MAX_SAMPLES
    ensures Deserialized(MAGIC1 + (ToLe(|samples|, 8) + (LeWords(samples) + rest))) == Ok((Link(samples, None, None), rest))
  {
    var header := ToLe(|samples|, 8);
    Pow8(|samples|);
    LeRoundTrip(|samples|, 8);
    LegacyMagic(header + (LeWords(samples) + rest));
    TakeLeWords(samples, rest);
    LegacyHeader(header, |samples|, LeWords(samples) + rest);
  }

  /** It fails for a length above the limit, and for too few bytes. */
  lemma LegacyFails(n: nat, body: Bytes)
    requires n < Pow256(8)
    ensures n > MAX_SAMPLES ==> Deserialized(MAGIC1 + (ToLe(n, 8) + body)) == Err(BadLength)
    ensures n <= MAX_SAMPLES && |body| < 4 * n ==> Deserialized(MAGIC1 + (ToLe(n, 8) + body)) == Err(Truncated)
  {
    LeRoundTrip(n, 8);
    LegacyMagic(ToLe(n, 8) + body);
    LegacyHeader(ToLe(n, 8), n, body);
  }

  // ---- Writing what was read ----

  predicate AllSeparate(blocks: seq<Chain>) {
    forall i | 0 <= i < |blocks| :: blocks[i].next.None? && AllLinks(blocks[i])
  }

  lemma {:induction false} ChainedAllLinks(blocks: seq<Chain>)
    requires blocks != [] && AllSeparate(blocks)
    ensures AllLinks(Chained(blocks))
  {
    if |blocks| > 1 {
      assert forall i | 0 <= i < |blocks| - 1 :: blocks[1..][i] == blocks[i + 1];
      ChainedAllLinks(blocks[1..]);
    }
  }

  lemma TakenLink(b: Bytes, remaining: nat)
    requires remaining <= MAX_SAMPLES && TakeLink(b, remaining).Ok?
    ensures TakeLink(b, remaining).value.0.next.None? && AllLinks(TakeLink(b, remaining).value.0)
  {
  }

  lemma SeparateCons(block: Chain, blocks: seq<Chain>)
    requires block.next.None? && AllLinks(block) && AllSeparate(blocks)
    ensures AllSeparate([block] + blocks)
  {
  }

  lemma LinksInSplit(b: Bytes, count: nat, remaining: nat) returns (head: Chain, after: Bytes)
    requires count > 0 && LinksIn(b, count, remaining).Some?
    ensures TakeLink(b, remaining) == Ok((head, after)) && |head.samples| <= remaining
    ensures LinksIn(after, count - 1, remaining - |head.samples|).Some?
    ensures LinksIn(b, count, remaining).value.0 == [head] + LinksIn(after, count - 1, remaining - |head.samples|).value.0
  {
    head, after := TakeLink(b, remaining).value.0, TakeLink(b, remaining).value.1;
  }

  lemma {:induction false} TakenAllLinks(b: Bytes, count: nat, remaining: nat)
    requires remaining <= MAX_SAMPLES && LinksIn(b, count, remaining).Some?
    ensures AllSeparate(LinksIn(b, count, remaining).value.0)
    decreases count
  {
    if count > 0 {
      var head, after := LinksInSplit(b, count, remaining);
      TakenLink(b, remaining);
      TakenAllLinks(after, count - 1, remaining - |head.samples|);
      SeparateCons(head, LinksIn(after, count - 1, remaining - |head.samples|).value.0);
    }
  }

  /** What was read can be written, and then reads back the same, if and only if it is not an empty
      block in the older format. */
  lemma RewritesIff(b: Bytes)
    requires Deserialized(b).Ok?
    ensures var c := Deserialized(b).value.0;
      Serialized(c).Ok? <==> b[..4] == MAGIC2 || c.samples != []
    ensures var (c, rest) := Deserialized(b).value;
      Serialized(c).Ok? ==> Deserialized(Serialized(c).value + rest) == Ok((c, rest))
  {
    var (c, rest) := Deserialized(b).value;
    DeserializeBounded(b);
    SerializableIff(c);
    if b[..4] == MAGIC2 {
      var after := b[4..];
      TakenAllLinks(after[4..], UnLe32(after[..4]), MAX_SAMPLES);
      ChainedAllLinks(TakeLinks(after[4..], UnLe32(after[..4]), MAX_SAMPLES).value.0);
    }
    if Serialized(c).Ok? {
      RoundTripIff(c, Serialized(c).value, rest);
    }
  }
}
