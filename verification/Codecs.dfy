/** The buffering around the file codecs: FLAC framing, the AU file format, and block decoders.
    Samples are words that have already been quantised; FLAC frames are kept as their contents. */
module Codecs {

  import opened Util
  import opened Wire

  const FLAC_BLOCK_SIZE: nat := 4096
  const MAX_STREAMING_FRAMES: nat := 16384

  datatype CodecError =
    | BadRate | AlreadyOpen | NotOpen | MissingRight | DataTooLong
    | UnexpectedEof | InvalidHeader | Unsupported | TruncatedFrame

  // ---- Interleaving ----

  predicate Covers(left: seq<Word>, right: Option<seq<Word>>, n: nat) {
    n <= |left| && (right.Some? ==> n <= |right.value|)
  }

  function FrameAt(left: seq<Word>, right: Option<seq<Word>>, i: nat): seq<Word>
    requires Covers(left, right, i + 1)
  {
    [left[i]] + (if right.Some? then [right.value[i]] else [])
  }

  /** The first `n` frames, left before right. */
  function Interleaved(left: seq<Word>, right: Option<seq<Word>>, n: nat): seq<Word>
    requires Covers(left, right, n)
  {
    if n == 0 then [] else Interleaved(left, right, n - 1) + FrameAt(left, right, n - 1)
  }

  function Channels(right: Option<seq<Word>>): nat {
    if right.Some? then 2 else 1
  }

  function SliceOf(s: Option<seq<Word>>, from: nat, to: nat): Option<seq<Word>>
    requires s.Some? ==> from <= to <= |s.value|
  {
    if s.Some? then Some(s.value[from..to]) else None
  }

  lemma {:induction false} InterleavedLength(left: seq<Word>, right: Option<seq<Word>>, n: nat)
    requires Covers(left, right, n)
    ensures |Interleaved(left, right, n)| == Channels(right) * n
  {
    if n > 0 {
      InterleavedLength(left, right, n - 1);
    }
  }

  lemma {:induction false} InterleavedAt(left: seq<Word>, right: Option<seq<Word>>, n: nat, i: nat)
    requires Covers(left, right, n) && i < n
    ensures |Interleaved(left, right, n)| == Channels(right) * n
    ensures Interleaved(left, right, n)[Channels(right) * i] == left[i]
    ensures right.Some? ==> Interleaved(left, right, n)[Channels(right) * i + 1] == right.value[i]
  {
    InterleavedLength(left, right, n);
    InterleavedLength(left, right, n - 1);
    if i < n - 1 {
      InterleavedAt(left, right, n - 1, i);
    }
  }

  /** Interleaving piece by piece is interleaving the whole. */
  lemma {:induction false} InterleavedSplit(left: seq<Word>, right: Option<seq<Word>>, a: nat, b: nat)
    requires Covers(left, right, a + b)
    ensures Interleaved(left, right, a + b)
         == Interleaved(left, right, a) + Interleaved(left[a..a + b], SliceOf(right, a, a + b), b)
  {
    if b > 0 {
      InterleavedSplit(left, right, a, b - 1);
      var l, r := left[a..a + b], SliceOf(right, a, a + b);
      InterleavedPrefix(left[a..a + b - 1], SliceOf(right, a, a + b - 1), l, r, b - 1);
      assert FrameAt(left, right, a + b - 1) == FrameAt(l, r, b - 1);
      Regroup(Interleaved(left, right, a), Interleaved(l, r, b - 1), FrameAt(l, r, b - 1));
    } else {
      assert Interleaved(left, right, a) + [] == Interleaved(left, right, a);
    }
  }

  lemma {:induction false} InterleavedPrefix(l0: seq<Word>, r0: Option<seq<Word>>, l: seq<Word>, r: Option<seq<Word>>, n: nat)
    requires Covers(l0, r0, n) && Covers(l, r, n) && r0.Some? == r.Some?
    requires forall i | 0 <= i < n :: l0[i] == l[i] && (r.Some? ==> r0.value[i] == r.value[i])
    ensures Interleaved(l0, r0, n) == Interleaved(l, r, n)
  {
    if n > 0 {
      InterleavedPrefix(l0, r0, l, r, n - 1);
    }
  }

  // ---- FLAC framing ----

  datatype Cut = Cut(frames: seq<seq<Word>>, pending: seq<Word>)

  /** A stream cut into full frames and what is left over. */
  function CutUp(input: seq<Word>, size: nat): Cut
    requires size > 0
    decreases |input|
  {
    if |input| < size then Cut([], input)
    else
      var rest := CutUp(input[size..], size);
      Cut([input[..size]] + rest.frames, rest.pending)
  }

  predicate AllFull(frames: seq<seq<Word>>, size: nat) {
    forall i | 0 <= i < |frames| :: |frames[i]| == size
  }

  /** There is one way to cut a stream into full frames and a shorter rest. */
  lemma {:induction false} CutUnique(frames: seq<seq<Word>>, pending: seq<Word>, size: nat)
    requires size > 0 && AllFull(frames, size) && |pending| < size
    ensures CutUp(Concat(frames) + pending, size) == Cut(frames, pending)
    decreases |frames|
  {
    var input := Concat(frames) + pending;
    if frames == [] {
      assert input == pending;
    } else {
      CutUnique(frames[1..], pending, size);
      assert |frames[0]| == size;
      assert input == frames[0] + (Concat(frames[1..]) + pending);
      assert input[..size] == frames[0] && input[size..] == Concat(frames[1..]) + pending;
      assert frames == [frames[0]] + frames[1..];
    }
  }

  class FlacEncoder {
    const channels: nat
    var samples: seq<Word>
    /** The frames written, by frame number. */
    var frames: seq<seq<Word>>

    function Size(): nat { FLAC_BLOCK_SIZE * channels }

    ghost predicate Valid()
      reads this
    {
      && 1 <= channels <= 2 && AllFull(frames, Size())
      && |samples| < Size() && (channels == 2 ==> |samples| % 2 == 0)
    }

    /** Everything pushed so far. */
    ghost function Input(): seq<Word>
      reads this
    {
      Concat(frames) + samples
    }

    constructor (stereo: bool)
      ensures Valid() && Input() == [] && channels == (if stereo then 2 else 1) && frames == []
    {
      channels := if stereo then 2 else 1;
      samples, frames := [], [];
    }

    method FlushFrame()
      modifies this
      ensures samples == [] && Input() == old(Input())
      ensures frames == if old(samples) == [] then old(frames) else old(frames) + [old(samples)]
    {
      if samples == [] {
        return;
      }
      ConcatSnoc(frames, samples);
      frames, samples := frames + [samples], [];
    }

    /** One turn of the push loop. */
    method PushFrame(l: Word, r: Option<Word>)
      requires Valid() && (r.Some? <==> channels == 2)
      modifies this
      ensures Valid() && Input() == old(Input()) + ([l] + (if r.Some? then [r.value] else []))
    {
      ghost var before := samples;
      samples := samples + [l];
      if r.Some? {
        samples := samples + [r.value];
      }
      assert samples == before + ([l] + (if r.Some? then [r.value] else []));
      Regroup(Concat(frames), before, [l] + (if r.Some? then [r.value] else []));
      if |samples| == FLAC_BLOCK_SIZE * channels {
        FlushFrame();
      }
    }

    /** However the input is split over calls, the frames are those of the whole input. */
    method Push(left: seq<Word>, right: Option<seq<Word>>)
      requires Valid() && (right.Some? <==> channels == 2) && Covers(left, right, |left|)
      modifies this
      ensures Valid() && Input() == old(Input()) + Interleaved(left, right, |left|)
      ensures Cut(frames, samples) == CutUp(old(Input()) + Interleaved(left, right, |left|), Size())
    {
      ghost var start := Input();
      assert start + [] == start;
      for i := 0 to |left|
        invariant Valid() && Input() == start + Interleaved(left, right, i)
      {
        PushFrame(left[i], if right.Some? then Some(right.value[i]) else None);
        Regroup(start, Interleaved(left, right, i), FrameAt(left, right, i));
      }
      CutUnique(frames, samples, Size());
    }

    /** Only the last frame may be short, and it is not empty. */
    method Finish()
      requires Valid()
      modifies this
      ensures Concat(frames) == old(Input()) && samples == []
      ensures frames == CutUp(old(Input()), Size()).frames
                     + (if CutUp(old(Input()), Size()).pending == [] then [] else [CutUp(old(Input()), Size()).pending])
    {
      CutUnique(frames, samples, Size());
      FlushFrame();
      assert Concat(frames) + [] == Concat(frames);
      assert old(frames) + [] == old(frames);
    }
  }

  // ---- AU files ----

  const SND: Bytes := [46, 115, 110, 100]
  const AU_HEADER_LEN: nat := 24
  const PCM_32: Word := 5
  const UNKNOWN_SIZE: Word := 0xFFFF_FFFF

  function AuHeader(size: Word, rate: Word, channels: Word): (h: Bytes)
    ensures |h| == AU_HEADER_LEN
  {
    SND + Be32(24) + Be32(size) + Be32(PCM_32) + Be32(rate) + Be32(channels)
  }

  lemma AuHeaderPatch(size: Word, size': Word, rate: Word, channels: Word, payload: Bytes)
    ensures var file := AuHeader(size, rate, channels) + payload;
      file[..8] + Be32(size') + file[12..] == AuHeader(size', rate, channels) + payload
  {
    var file := AuHeader(size, rate, channels) + payload;
    assert file[..8] == SND + Be32(24);
    assert file[12..] == Be32(PCM_32) + Be32(rate) + Be32(channels) + payload;
  }

  function AuFile(size: Word, rate: Word, channels: Word, words: seq<Word>): Bytes {
    AuHeader(size, rate, channels) + BeWords(words)
  }

  lemma OneMoreFrame(file: Bytes, header: Bytes, body: Bytes, l: Bytes, r: Bytes)
    requires file == header + body
    ensures file + l + r == header + (body + (l + r))
    ensures r == [] ==> file + l == header + (body + (l + r))
  {
  }

  lemma FrameBytes(words: seq<Word>, left: seq<Word>, right: Option<seq<Word>>, i: nat)
    requires Covers(left, right, i + 1)
    ensures BeWords(words + Interleaved(left, right, i + 1))
         == BeWords(words + Interleaved(left, right, i)) + (Be32(left[i]) + (if right.Some? then Be32(right.value[i]) else []))
  {
    var sofar := words + Interleaved(left, right, i);
    BeWordsSnoc(sofar, left[i]);
    if right.Some? {
      BeWordsSnoc(sofar + [left[i]], right.value[i]);
      Regroup(BeWords(sofar), Be32(left[i]), Be32(right.value[i]));
      Regroup(sofar, [left[i]], [right.value[i]]);
    }
    Regroup(words, Interleaved(left, right, i), FrameAt(left, right, i));
  }

  /** The AU branch of the encoder: frames go out as they come, the size is patched in last. */
  class AuEncoder {
    const rate: Word
    const stereo: bool
    var file: Bytes
    var dataLen: nat
    /** The samples in the file. */
    ghost var words: seq<Word>

    function ChannelCount(): Word { if stereo then 2 else 1 }

    ghost predicate Holds(size: Word)
      reads this
    {
      file == AuFile(size, rate, ChannelCount(), words) && dataLen == 4 * |words| <= MAX_U32
    }

    constructor (rate: Word, stereo: bool)
      ensures this.rate == rate && this.stereo == stereo && words == [] && Holds(UNKNOWN_SIZE)
    {
      this.rate, this.stereo := rate, stereo;
      file := AuHeader(UNKNOWN_SIZE, rate, if stereo then 2 else 1);
      dataLen, words := 0, [];
      new;
      assert file + [] == file;
    }

    /** The write loop: every frame goes out. */
    method WriteFrames(left: seq<Word>, right: Option<seq<Word>>, n: nat)
      requires Covers(left, right, n)
      requires file == AuFile(UNKNOWN_SIZE, rate, ChannelCount(), words)
      modifies this`file, this`words
      ensures words == old(words) + Interleaved(left, right, n)
      ensures file == AuFile(UNKNOWN_SIZE, rate, ChannelCount(), words)
    {
      ghost var start := words;
      assert start + [] == start;
      for i := 0 to n
        invariant words == start + Interleaved(left, right, i)
        invariant file == AuFile(UNKNOWN_SIZE, rate, ChannelCount(), words)
      {
        FrameBytes(start, left, right, i);
        OneMoreFrame(file, AuHeader(UNKNOWN_SIZE, rate, ChannelCount()), BeWords(words),
                     Be32(left[i]), if right.Some? then Be32(right.value[i]) else []);
        file := file + Be32(left[i]);
        if right.Some? {
          file := file + Be32(right.value[i]);
        }
        words := start + Interleaved(left, right, i + 1);
      }
    }

    /** The frames are written before their number is found to be too large, so after an error the
        count no longer shows what the file holds. */
    method Write(left: seq<Word>, right: Option<seq<Word>>, n: nat) returns (r: Result<nat, CodecError>)
      requires (right.Some? <==> stereo) && Covers(left, right, n)
      requires file == AuFile(UNKNOWN_SIZE, rate, ChannelCount(), words)
      modifies this
      ensures words == old(words) + Interleaved(left, right, n)
      ensures file == AuFile(UNKNOWN_SIZE, rate, ChannelCount(), words)
      ensures r == if old(dataLen) + 4 * |Interleaved(left, right, n)| <= MAX_U32 then Ok(n) else Err(DataTooLong)
      ensures dataLen == old(dataLen) + (if r.Ok? then 4 * |Interleaved(left, right, n)| else 0)
    {
      WriteFrames(left, right, n);
      InterleavedLength(left, right, n);
      var bytes := n * (if stereo then 8 else 4);
      if bytes > MAX_U32 {
        return Err(DataTooLong);
      }
      if dataLen + bytes > MAX_U32 {
        return Err(DataTooLong);
      }
      dataLen := dataLen + bytes;
      r := Ok(n);
    }

    method Close()
      requires Holds(UNKNOWN_SIZE)
      modifies this`file
      ensures Holds(dataLen)
    {
      AuHeaderPatch(UNKNOWN_SIZE, dataLen, rate, ChannelCount(), BeWords(words));
      file := file[..8] + Be32(dataLen) + file[12..];
    }
  }

  // ---- The encoder over both formats ----

  datatype Codec = Flac | Au

  datatype Encoded = FlacFrames(frames: seq<seq<Word>>) | AuBytes(file: Bytes)

  /** The file that holds `words`; every FLAC frame but the last is full. */
  function EncodedAs(format: Codec, rate: Word, stereo: bool, words: seq<Word>): Encoded
    requires 4 * |words| <= MAX_U32 || format.Flac?
  {
    match format
    case Flac =>
      var cut := CutUp(words, FLAC_BLOCK_SIZE * (if stereo then 2 else 1));
      FlacFrames(cut.frames + (if cut.pending == [] then [] else [cut.pending]))
    case Au => AuBytes(AuFile(4 * |words|, rate, if stereo then 2 else 1, words))
  }

  function FrameCount(left: seq<Word>, right: Option<seq<Word>>): nat {
    if right.Some? then Min(|left|, |right.value|) else |left|
  }

  /** What is encoded: every frame that both channels have, and no more. */
  lemma FrameCountIs(left: seq<Word>, right: Option<seq<Word>>)
    ensures Covers(left, right, FrameCount(left, right)) && !Covers(left, right, FrameCount(left, right) + 1)
  {
  }

  class SndFileEncoder {
    const rate: Word
    const stereo: bool
    const format: Codec
    var flac: FlacEncoder?
    var au: AuEncoder?

    ghost predicate Valid()
      reads this, flac, au
    {
      && (flac != null ==> format.Flac? && flac.Valid() && flac.channels == (if stereo then 2 else 1))
      && (au != null ==> format.Au? && au.Holds(UNKNOWN_SIZE) && au.rate == rate && au.stereo == stereo)
    }

    predicate Open()
      reads this
    {
      flac != null || au != null
    }

    ghost function Written(): seq<Word>
      reads this, flac, au
    {
      if flac != null then flac.Input() else if au != null then au.words else []
    }

    constructor (rate: Word, stereo: bool, format: Codec)
      ensures Valid() && !Open()
      ensures this.rate == rate && this.stereo == stereo && this.format == format
    {
      this.rate, this.stereo, this.format := rate, stereo, format;
      flac, au := null, null;
    }

    method SetupFileForWriting() returns (r: Result<(), CodecError>)
      requires Valid()
      modifies this
      ensures Valid() && Open()
      ensures r == if old(Open()) then Err(AlreadyOpen) else Ok(())
      ensures r.Err? ==> flac == old(flac) && au == old(au)
      ensures r.Ok? ==> Written() == [] && fresh({flac, au} - {null})
    {
      if flac != null || au != null {
        return Err(AlreadyOpen);
      }
      if format.Flac? {
        flac := new FlacEncoder(stereo);
      } else {
        au := new AuEncoder(rate, stereo);
      }
      r := Ok(());
    }

    /** A stereo encoder needs both channels; a mono one ignores the right. */
    method WriteSamplesToDisk(left: seq<Word>, right: Option<seq<Word>>) returns (r: Result<nat, CodecError>)
      requires Valid()
      modifies flac, au
      ensures r.Ok? ==> Valid()
      ensures stereo && right.None? ==> r == Err(MissingRight) && Valid() && Written() == old(Written())
      ensures !(stereo && right.None?) && !Open() ==> r == Err(NotOpen)
      ensures !(stereo && right.None?) && Open() ==>
        var used := if stereo then right else None;
        var n := FrameCount(left, used);
        && Written() == old(Written()) + Interleaved(left, used, n)
        && r == if au != null && flac == null && 4 * |Written()| > MAX_U32 then Err(DataTooLong) else Ok(n)
    {
      if stereo && right.None? {
        return Err(MissingRight);
      }
      var used := if stereo then right else None;
      var n := FrameCount(left, used);
      if flac != null {
        InterleavedPrefix(left[..n], SliceOf(used, 0, n), left, used, n);
        flac.Push(left[..n], SliceOf(used, 0, n));
        r := Ok(n);
      } else if au != null {
        r := au.Write(left, used, n);
      } else {
        r := Err(NotOpen);
      }
    }

    method PrepareFileForClosing() returns (r: Result<Encoded, CodecError>)
      requires Valid()
      modifies this, flac, au
      ensures !Open()
      ensures !old(Open()) ==> r == Err(NotOpen)
      ensures old(flac) != null ==> r == Ok(EncodedAs(Flac, rate, stereo, old(Written())))
      ensures old(flac) == null && old(au) != null ==>
        4 * |old(Written())| <= MAX_U32 && r == Ok(EncodedAs(Au, rate, stereo, old(Written())))
    {
      if flac != null {
        flac.Finish();
        r := Ok(FlacFrames(flac.frames));
      } else if au != null {
        au.Close();
        r := Ok(AuBytes(au.file));
      } else {
        r := Err(NotOpen);
      }
      flac, au := null, null;
    }
  }

  /** The encoded file, unless the rate is zero or an AU file would not fit its 32-bit size. */
  function WholeFile(rate: Word, format: Codec, stereo: bool, words: seq<Word>): Result<Encoded, CodecError> {
    if rate == 0 then Err(BadRate)
    else if format.Au? && 4 * |words| > MAX_U32 then Err(DataTooLong)
    else Ok(EncodedAs(format, rate, stereo, words))
  }

  lemma NextChunk(left: seq<Word>, right: Option<seq<Word>>, start: nat, end: nat)
    requires start <= end <= FrameCount(left, right)
    ensures var l, r := left[start..end], SliceOf(right, start, end);
      && FrameCount(l, r) == end - start
      && Interleaved(left, right, end) == Interleaved(left, right, start) + Interleaved(l, r, FrameCount(l, r))
    ensures |Interleaved(left, right, end)| <= |Interleaved(left, right, FrameCount(left, right))|
  {
    InterleavedSplit(left, right, start, end - start);
    InterleavedLength(left, right, end);
    InterleavedLength(left, right, FrameCount(left, right));
  }

  ghost predicate Wrote(encoder: SndFileEncoder, left: seq<Word>, right: Option<seq<Word>>, n: nat)
    reads encoder, encoder.flac, encoder.au
    requires Covers(left, right, n)
  {
    && encoder.Valid() && encoder.Written() == Interleaved(left, right, n)
    && (encoder.flac == null ==> 4 * |encoder.Written()| <= MAX_U32)
  }

  predicate TooLong(left: seq<Word>, right: Option<seq<Word>>) {
    4 * |Interleaved(left, right, FrameCount(left, right))| > MAX_U32
  }

  method WriteChunk(encoder: SndFileEncoder, left: seq<Word>, right: Option<seq<Word>>, start: nat, end: nat)
    returns (r: Result<nat, CodecError>)
    requires start <= end <= FrameCount(left, right)
    requires encoder.Open() && encoder.stereo == right.Some? && Wrote(encoder, left, right, start)
    modifies encoder.flac, encoder.au
    ensures r.Ok? ==> Wrote(encoder, left, right, end)
    ensures r.Err? ==> encoder.flac == null && TooLong(left, right)
  {
    NextChunk(left, right, start, end);
    r := encoder.WriteSamplesToDisk(left[start..end], SliceOf(right, start, end));
  }

  method WriteChunks(encoder: SndFileEncoder, left: seq<Word>, right: Option<seq<Word>>)
    returns (r: Result<(), CodecError>)
    requires encoder.Open() && encoder.stereo == right.Some? && Wrote(encoder, left, right, 0)
    modifies encoder.flac, encoder.au
    ensures r == if encoder.flac == null && TooLong(left, right) then Err(DataTooLong) else Ok(())
    ensures r.Ok? ==> Wrote(encoder, left, right, FrameCount(left, right))
  {
    var frameCount := FrameCount(left, right);
    var start := 0;
    while start < frameCount
      invariant 0 <= start <= frameCount && Wrote(encoder, left, right, start)
    {
      var end := Min(start + MAX_STREAMING_FRAMES, frameCount);
      var written := WriteChunk(encoder, left, right, start, end);
      if written.Err? {
        return Err(DataTooLong);
      }
      start := end;
    }
    r := Ok(());
  }

  /** Encoding in chunks comes to encoding the whole. */
  method EncodeAudioFile(rate: Word, format: Codec, left: seq<Word>, right: Option<seq<Word>>)
    returns (r: Result<Encoded, CodecError>)
    ensures r == WholeFile(rate, format, right.Some?, Interleaved(left, right, FrameCount(left, right)))
  {
    if rate == 0 {
      return Err(BadRate);
    }
    var encoder := new SndFileEncoder(rate, right.Some?, format);
    var ready := encoder.SetupFileForWriting();
    var written := WriteChunks(encoder, left, right);
    if written.Err? {
      return Err(written.error);
    }
    r := encoder.PrepareFileForClosing();
  }

  // ---- Reading AU ----

  datatype AuInfo = AuInfo(offset: nat, size: Word, channels: nat)

  lemma AuConstants(i: nat)
    requires i < 4
    ensures |SND| == 4 && SND[i] == ".snd"[i] as int && Be32(PCM_32) == [0, 0, 0, 5]
  {
    assert ToBe(0, 1) == [0] && ToBe(0, 2) == [0, 0] && ToBe(0, 3) == [0, 0, 0];
  }

  /** Both an absent and an all-ones size mean unknown. */
  function ReadAuHeader(file: Bytes, rate: Word): Result<AuInfo, CodecError> {
    if |file| < AU_HEADER_LEN then Err(UnexpectedEof)
    else if file[..4] != SND then Err(InvalidHeader)
    else
      var offset, declared := UnBe32(file[4..8]), UnBe32(file[8..12]);
      var channels := UnBe32(file[20..24]);
      if offset < 24 || UnBe32(file[12..16]) != PCM_32 || UnBe32(file[16..20]) != rate
         || !(channels == 1 || channels == 2)
      then Err(Unsupported)
      else Ok(AuInfo(offset, if declared == 0 then UNKNOWN_SIZE else declared, channels))
  }

  lemma HeaderReadsBack(size: Word, rate: Word, channels: Word, rest: Bytes)
    requires channels == 1 || channels == 2
    ensures ReadAuHeader(AuHeader(size, rate, channels) + rest, rate)
         == Ok(AuInfo(24, if size == 0 then UNKNOWN_SIZE else size, channels))
  {
    var file := AuHeader(size, rate, channels) + rest;
    assert file[..4] == SND && file[4..8] == Be32(24) && file[8..12] == Be32(size);
    assert file[12..16] == Be32(PCM_32) && file[16..20] == Be32(rate) && file[20..24] == Be32(channels);
    WordRoundTrip(24);
    WordRoundTrip(size);
    WordRoundTrip(PCM_32);
    WordRoundTrip(rate);
    WordRoundTrip(channels);
  }

  lemma Be32Inverts(b: Bytes)
    requires |b| == 4
    ensures Be32(UnBe32(b)) == b
  {
    var w: int := UnBe32(b);
    var w1 := w / 256;
    DivModUnique(w, b[2] as int + 256 * (b[1] as int) + 65536 * (b[0] as int), b[3], 256);
    DivModUnique(w1, b[1] as int + 256 * (b[0] as int), b[2], 256);
    DivModUnique(w1 / 256, b[0], b[1], 256);
    assert ToBe(b[0], 1) == [b[0]];
    assert ToBe(w1 / 256, 2) == ToBe(b[0], 1) + [b[1]];
    assert ToBe(w1, 3) == ToBe(w1 / 256, 2) + [b[2]];
  }

  /** What a header is, by its bytes. */
  predicate HeaderIs(file: Bytes, offset: Word, size: Word, rate: Word, channels: Word) {
    && |file| >= AU_HEADER_LEN
    && file[..AU_HEADER_LEN] == SND + Be32(offset) + Be32(size) + Be32(PCM_32) + Be32(rate) + Be32(channels)
  }

  lemma HeaderFields(file: Bytes, offset: Word, size: Word, rate: Word, channels: Word)
    requires HeaderIs(file, offset, size, rate, channels)
    ensures file[..4] == SND && UnBe32(file[4..8]) == offset && UnBe32(file[8..12]) == size
    ensures UnBe32(file[12..16]) == PCM_32 && UnBe32(file[16..20]) == rate && UnBe32(file[20..24]) == channels
  {
    var h := file[..AU_HEADER_LEN];
    assert file[..4] == h[..4] == SND && file[4..8] == h[4..8] == Be32(offset) && file[8..12] == h[8..12] == Be32(size);
    assert file[12..16] == h[12..16] == Be32(PCM_32) && file[16..20] == h[16..20] == Be32(rate);
    assert file[20..24] == h[20..24] == Be32(channels);
    WordRoundTrip(offset);
    WordRoundTrip(size);
    WordRoundTrip(PCM_32);
    WordRoundTrip(rate);
    WordRoundTrip(channels);
  }

  lemma HeaderOfFields(file: Bytes)
    requires |file| >= AU_HEADER_LEN && file[..4] == SND && UnBe32(file[12..16]) == PCM_32
    ensures HeaderIs(file, UnBe32(file[4..8]), UnBe32(file[8..12]), UnBe32(file[16..20]), UnBe32(file[20..24]))
  {
    Be32Inverts(file[4..8]);
    Be32Inverts(file[8..12]);
    Be32Inverts(file[12..16]);
    Be32Inverts(file[16..20]);
    Be32Inverts(file[20..24]);
    assert file[..AU_HEADER_LEN] == file[..4] + file[4..8] + file[8..12] + file[12..16] + file[16..20] + file[20..24];
  }

  /** Exactly these headers are accepted: the ones a writer could have written at this rate, with
      one or two channels and the audio no earlier than the header's end. */
  lemma HeaderAcceptedIff(file: Bytes, rate: Word, info: AuInfo)
    ensures ReadAuHeader(file, rate) == Ok(info)
      <==> exists offset: Word, size: Word, channels: Word ::
             && HeaderIs(file, offset, size, rate, channels)
             && offset >= 24 && (channels == 1 || channels == 2)
             && info == AuInfo(offset, if size == 0 then 0xFFFF_FFFF else size, channels)
  {
    if ReadAuHeader(file, rate) == Ok(info) {
      HeaderOfFields(file);
    }
    forall offset: Word, size: Word, channels: Word | HeaderIs(file, offset, size, rate, channels)
      ensures file[..4] == SND && UnBe32(file[4..8]) == offset && UnBe32(file[8..12]) == size
      ensures UnBe32(file[12..16]) == PCM_32 && UnBe32(file[16..20]) == rate && UnBe32(file[20..24]) == channels
    {
      HeaderFields(file, offset, size, rate, channels);
    }
  }

  /** Channel `ch` of the whole frames in the bytes. */
  function Lane(payload: Bytes, channels: nat, ch: nat): seq<Word>
    requires 1 <= channels <= 2
    decreases |payload|
  {
    if |payload| < 4 * channels || ch >= channels then []
    else [UnBe32(payload[4 * ch..4 * ch + 4])] + Lane(payload[4 * channels..], channels, ch)
  }

  /** Whether a part of a frame is left over at the end. */
  predicate Ragged(payload: Bytes, channels: nat)
    requires 1 <= channels <= 2
    decreases |payload|
  {
    if |payload| < 4 * channels then payload != [] else Ragged(payload[4 * channels..], channels)
  }

  /** The bytes after the header that count as audio: the declared size, as far as the file goes. */
  function PayloadOf(file: Bytes, info: AuInfo): Bytes {
    var from := file[Min(info.offset, |file|)..];
    if info.size == UNKNOWN_SIZE then from else from[..Min(info.size, |from|)]
  }

  class AuDecoder {
    const file: Bytes
    const channels: nat
    var position: nat
    var remaining: Option<nat>

    predicate Valid()
      reads this
    {
      1 <= channels <= 2 && (remaining.Some? ==> remaining.value == 0 || position + remaining.value <= |file|)
    }

    /** The bytes that may still be read as audio. */
    function Payload(): Bytes
      reads this
      requires Valid()
    {
      if remaining.Some? then
        if remaining.value == 0 then [] else file[position..position + remaining.value]
      else if position <= |file| then file[position..] else []
    }

    constructor (file: Bytes, info: AuInfo)
      requires 1 <= info.channels <= 2
      ensures Valid() && channels == info.channels
      ensures Payload() == PayloadOf(file, info)
    {
      this.file, channels, position := file, info.channels, info.offset;
      var available := Max(|file| - info.offset, 0);
      remaining := if info.size != UNKNOWN_SIZE then Some(Min(info.size, available)) else None;
    }

    /** Reads one frame: nothing at a clean end, an error inside a frame. */
    method ReadFrame() returns (r: Result<Option<Bytes>, CodecError>)
      requires Valid()
      modifies this
      ensures Valid()
      ensures r.Ok? && r.value.Some? <==> |old(Payload())| >= 4 * channels
      ensures r.Ok? && r.value.Some? ==>
        r.value.value == old(Payload())[..4 * channels] && Payload() == old(Payload())[4 * channels..]
      ensures r == Ok(None) <==> old(Payload()) == []
      ensures r.Err? ==> r.error == TruncatedFrame
      ensures r == Ok(None) ==> Payload() == []
    {
      var frameBytes := channels * 4;
      if remaining.Some? && remaining.value < frameBytes {
        return if remaining.value != 0 then Err(TruncatedFrame) else Ok(None);
      }
      var at := Min(position, |file|);
      var filled := Min(frameBytes, |file| - at);
      var frame := file[at..at + filled];
      position := position + filled;
      if filled == 0 {
        return Ok(None);
      }
      if filled < frameBytes {
        return Err(TruncatedFrame);
      }
      if remaining.Some? {
        remaining := Some(remaining.value - frameBytes);
      }
      r := Ok(Some(frame));
    }

    method ReadSamples(capacity: nat) returns (r: Result<(seq<Word>, seq<Word>), CodecError>)
      requires Valid()
      modifies this
      ensures Valid()
      ensures Reads(old(Payload()), channels, capacity, r, Payload())
    {
      var left, right: seq<Word> := [], [];
      ghost var before := Payload();
      LanesAlike(before, channels);
      for i := 0 to capacity
        invariant Valid() && |left| == i && |right| == (if channels == 2 then i else 0)
        invariant Split(before, channels, left, right, Payload())
      {
        ghost var ahead := Payload();
        var frame := ReadFrame();
        if frame.Err? {
          CutShort(before, channels, left, right, ahead);
          return Err(frame.error);
        }
        if frame.value.None? {
          break;
        }
        OneMoreSample(before, channels, left, right, ahead, frame.value.value);
        left := left + [UnBe32(frame.value.value[..4])];
        right := right + (if channels == 2 then [UnBe32(frame.value.value[4..8])] else []);
      }
      SplitTakes(before, channels, left, right, Payload(), capacity);
      r := Ok((left, right));
    }
  }

  /** What has been read from `before`, with `ahead` still to come. */
  predicate Split(before: Bytes, channels: nat, left: seq<Word>, right: seq<Word>, ahead: Bytes)
    requires 1 <= channels <= 2
  {
    Stream(before, channels) == Stream(ahead, channels).Behind(left, right)
  }

  /** The samples in the bytes, by channel, and whether they end inside a frame. */
  datatype Audio = Audio(left: seq<Word>, right: seq<Word>, ragged: bool) {
    function Behind(l: seq<Word>, r: seq<Word>): Audio {
      Audio(l + left, r + right, ragged)
    }
  }

  function Stream(payload: Bytes, channels: nat): Audio
    requires 1 <= channels <= 2
  {
    Audio(Lane(payload, channels, 0), Lane(payload, channels, 1), Ragged(payload, channels))
  }

  /** One read: the next samples of both channels are delivered and dropped; it fails exactly when
      it runs into a frame that is cut short. */
  predicate Step(before: Audio, capacity: nat, r: Result<(seq<Word>, seq<Word>), CodecError>, after: Audio) {
    if capacity > |before.left| && before.ragged then r == Err(TruncatedFrame)
    else
      && r.Ok? && after.ragged == before.ragged
      && Takes(before.left, r.value.0, after.left, capacity)
      && Takes(before.right, r.value.1, after.right, capacity)
  }

  predicate Reads(before: Bytes, channels: nat, capacity: nat,
                  r: Result<(seq<Word>, seq<Word>), CodecError>, after: Bytes)
    requires 1 <= channels <= 2
  {
    Step(Stream(before, channels), capacity, r, Stream(after, channels))
  }

  lemma CutShort(before: Bytes, channels: nat, left: seq<Word>, right: seq<Word>, ahead: Bytes)
    requires 1 <= channels <= 2 && Split(before, channels, left, right, ahead)
    requires ahead != [] && |ahead| < 4 * channels
    ensures Ragged(before, channels) && |Lane(before, channels, 0)| == |left|
  {
  }

  lemma SplitTakes(before: Bytes, channels: nat, left: seq<Word>, right: seq<Word>, after: Bytes, capacity: nat)
    requires 1 <= channels <= 2 && Split(before, channels, left, right, after)
    requires |left| <= capacity && |right| == (if channels == 2 then |left| else 0)
    requires |left| == capacity || after == []
    ensures Reads(before, channels, capacity, Ok((left, right)), after)
  {
    var l0, l1 := Lane(before, channels, 0), Lane(before, channels, 1);
    LanesAlike(before, channels);
    assert l0[..|left|] == left && l0[|left|..] == Lane(after, channels, 0);
    assert l1[..|right|] == right && l1[|right|..] == Lane(after, channels, 1);
  }

  lemma OneMoreSample(before: Bytes, channels: nat, left: seq<Word>, right: seq<Word>, ahead: Bytes, frame: Bytes)
    requires 1 <= channels <= 2 && |ahead| >= 4 * channels && frame == ahead[..4 * channels]
    requires Split(before, channels, left, right, ahead)
    ensures Split(before, channels, left + [UnBe32(frame[..4])],
                  right + (if channels == 2 then [UnBe32(frame[4..8])] else []), ahead[4 * channels..])
  {
    var rest := ahead[4 * channels..];
    assert frame[..4] == ahead[..4] && (channels == 2 ==> frame[4..8] == ahead[4..8]);
    Regroup(left, [UnBe32(ahead[..4])], Lane(rest, channels, 0));
    if channels == 2 {
      Regroup(right, [UnBe32(ahead[4..8])], Lane(rest, channels, 1));
    } else {
      assert right + [] == right;
    }
  }

  /** `got` are the first `capacity` of `before`, or all, and `after` are the others. */
  predicate Takes(before: seq<Word>, got: seq<Word>, after: seq<Word>, capacity: nat) {
    got == before[..Min(capacity, |before|)] && after == before[|got|..]
  }

  lemma {:induction false} LanesAlike(payload: Bytes, channels: nat)
    requires 1 <= channels <= 2
    ensures |Lane(payload, channels, 1)| == if channels == 2 then |Lane(payload, channels, 0)| else 0
    decreases |payload|
  {
    if |payload| >= 4 * channels {
      LanesAlike(payload[4 * channels..], channels);
    }
  }

  // ---- AU round trip ----

  lemma {:induction false} BeWordsAppend(a: seq<Word>, b: seq<Word>)
    ensures BeWords(a + b) == BeWords(a) + BeWords(b)
  {
    if b == [] {
      assert a + b == a;
    } else {
      var init, last := b[..|b| - 1], b[|b| - 1];
      BeWordsAppend(a, init);
      BeWordsSnoc(a + init, last);
      BeWordsSnoc(init, last);
      assert a + b == a + init + [last] && b == init + [last];
    }
  }

  function Tail(s: Option<seq<Word>>): Option<seq<Word>>
    requires s.Some? ==> s.value != []
  {
    if s.Some? then Some(s.value[1..]) else None
  }

  predicate SameLength(left: seq<Word>, right: Option<seq<Word>>) {
    right.Some? ==> |right.value| == |left|
  }

  function AudioBytes(left: seq<Word>, right: Option<seq<Word>>): Bytes
    requires SameLength(left, right)
  {
    BeWords(Interleaved(left, right, |left|))
  }

  function Whole(left: seq<Word>, right: Option<seq<Word>>): Audio {
    Audio(left, if right.Some? then right.value else [], false)
  }

  lemma FrontInterleaved(left: seq<Word>, right: Option<seq<Word>>)
    requires left != [] && SameLength(left, right)
    ensures Interleaved(left, right, |left|)
         == FrameAt(left, right, 0) + Interleaved(left[1..], Tail(right), |left| - 1)
  {
    var m: nat := |left| - 1;
    InterleavedOne(left, right);
    InterleavedSplit(left, right, 1, m);
    SliceIsTail(left, right, m);
  }

  lemma InterleavedOne(left: seq<Word>, right: Option<seq<Word>>)
    requires Covers(left, right, 1)
    ensures Interleaved(left, right, 1) == FrameAt(left, right, 0)
  {
    assert Interleaved(left, right, 0) == [];
    assert [] + FrameAt(left, right, 0) == FrameAt(left, right, 0);
  }

  lemma SliceIsTail(left: seq<Word>, right: Option<seq<Word>>, m: nat)
    requires |left| == 1 + m && SameLength(left, right)
    ensures left[1..1 + m] == left[1..] && SliceOf(right, 1, 1 + m) == Tail(right)
  {
    if right.Some? {
      assert right.value[1..1 + m] == right.value[1..];
    }
  }

  lemma FrontFrame(left: seq<Word>, right: Option<seq<Word>>)
    requires left != [] && SameLength(left, right)
    ensures AudioBytes(left, right) == BeWords(FrameAt(left, right, 0)) + AudioBytes(left[1..], Tail(right))
  {
    FrontInterleaved(left, right);
    BeWordsAppend(FrameAt(left, right, 0), Interleaved(left[1..], Tail(right), |left| - 1));
  }

  lemma FrameReadsBack(left: seq<Word>, right: Option<seq<Word>>, rest: Bytes)
    requires left != [] && SameLength(left, right)
    ensures var p := BeWords(FrameAt(left, right, 0)) + rest;
      Stream(p, Channels(right)) == Stream(rest, Channels(right)).Behind([left[0]], if right.Some? then [right.value[0]] else [])
  {
    var frame := BeWords(FrameAt(left, right, 0));
    var p := frame + rest;
    BeWordsSnoc([], left[0]);
    assert [] + [left[0]] == [left[0]];
    WordRoundTrip(left[0]);
    if right.Some? {
      BeWordsSnoc([left[0]], right.value[0]);
      WordRoundTrip(right.value[0]);
      assert p[4..8] == Be32(right.value[0]);
    }
    assert p[..4] == Be32(left[0]) && p[4 * Channels(right)..] == rest;
  }

  lemma {:induction false} FramesReadBack(left: seq<Word>, right: Option<seq<Word>>)
    requires SameLength(left, right)
    ensures Stream(AudioBytes(left, right), Channels(right)) == Whole(left, right)
    decreases |left|
  {
    if left == [] {
      NothingReadsBack(left, right);
    } else {
      FrontFrame(left, right);
      FrameReadsBack(left, right, AudioBytes(left[1..], Tail(right)));
      FramesReadBack(left[1..], Tail(right));
      assert [left[0]] + left[1..] == left;
      assert right.Some? ==> [right.value[0]] + right.value[1..] == right.value;
    }
  }

  lemma NothingReadsBack(left: seq<Word>, right: Option<seq<Word>>)
    requires left == [] && SameLength(left, right)
    ensures Stream(AudioBytes(left, right), Channels(right)) == Whole(left, right)
  {
    assert AudioBytes(left, right) == [];
  }

  /** An AU file reads back as the samples it was written from, whether or not its size was patched
      in before the writer stopped. */
  lemma AuRoundTrip(rate: Word, left: seq<Word>, right: Option<seq<Word>>, finished: bool)
    requires SameLength(left, right) && |AudioBytes(left, right)| <= MAX_U32
    ensures var words := Interleaved(left, right, |left|);
      var file := AuFile(if finished then 4 * |words| else UNKNOWN_SIZE, rate, Channels(right), words);
      && (finished ==> EncodedAs(Au, rate, right.Some?, words) == AuBytes(file))
      && AuContents(file, rate) == Ok((Channels(right), Whole(left, right)))
  {
    var words := Interleaved(left, right, |left|);
    var size := if finished then 4 * |words| else UNKNOWN_SIZE;
    HeaderReadsBack(size, rate, Channels(right), BeWords(words));
    PayloadReadsBack(AuHeader(size, rate, Channels(right)), BeWords(words),
                     AuInfo(24, if size == 0 then UNKNOWN_SIZE else size, Channels(right)));
    FramesReadBack(left, right);
  }

  lemma PayloadReadsBack(header: Bytes, payload: Bytes, info: AuInfo)
    requires |header| == info.offset && info.size >= |payload|
    ensures PayloadOf(header + payload, info) == payload
  {
    assert (header + payload)[|header|..] == payload;
  }

  /** The channels and the audio a file is opened with. */
  function AuContents(file: Bytes, rate: Word): Result<(nat, Audio), CodecError> {
    var info := ReadAuHeader(file, rate);
    if info.Err? then Err(info.error)
    else if 1 <= info.value.channels <= 2 then
      Ok((info.value.channels, Stream(PayloadOf(file, info.value), info.value.channels)))
    else Err(Unsupported)
  }

  // ---- Decoders that hand out blocks ----

  datatype Block = Block(left: seq<Word>, right: seq<Word>)

  function Lefts(blocks: seq<Block>): seq<Word> {
    if blocks == [] then [] else blocks[0].left + Lefts(blocks[1..])
  }

  function Rights(blocks: seq<Block>): seq<Word> {
    if blocks == [] then [] else blocks[0].right + Rights(blocks[1..])
  }

  function Undecoded(stereo: bool, blocks: seq<Block>): Audio {
    Audio(Lefts(blocks), if stereo then Rights(blocks) else [], false)
  }

  /** The FLAC and Vorbis branches: blocks come from the codec, some of them perhaps empty, and
      what a read does not take stays pending. */
  class BlockDecoder {
    const stereo: bool
    /** The blocks still to be decoded. */
    var blocks: seq<Block>
    var pending: Block
    var pos: nat

    predicate Valid()
      reads this
    {
      && pos <= |pending.left| && (stereo ==> |pending.right| == |pending.left|)
      && (stereo ==> forall b | b in blocks :: |b.right| == |b.left|)
    }

    function Ahead(): Audio
      reads this
      requires Valid()
    {
      Undecoded(stereo, blocks).Behind(pending.left[pos..], if stereo then pending.right[pos..] else [])
    }

    constructor (stereo: bool, blocks: seq<Block>)
      requires stereo ==> forall b | b in blocks :: |b.right| == |b.left|
      ensures Valid() && this.stereo == stereo
      ensures Ahead() == Undecoded(stereo, blocks)
    {
      this.stereo, this.blocks := stereo, blocks;
      pending, pos := Block([], []), 0;
      new;
      BehindNothing(Undecoded(stereo, blocks));
    }

    /** Moves to the next block, if there is one. */
    method Refill() returns (more: bool)
      requires Valid() && pos == |pending.left| && blocks != []
      modifies this
      ensures Valid() && Ahead() == old(Ahead()) && blocks == old(blocks)[1..]
    {
      var block := blocks[0];
      assert block in blocks;
      blocks := blocks[1..];
      if block.left != [] {
        pending, pos := Block(block.left, if stereo then block.right else []), 0;
      }
      more := block.left != [];
    }

    /** Takes from the pending block. */
    method Take(n: nat) returns (left: seq<Word>, right: seq<Word>)
      requires Valid() && pos + n <= |pending.left|
      modifies this`pos
      ensures Valid() && old(Ahead()) == Ahead().Behind(left, right)
      ensures |left| == n && |right| == if stereo then n else 0
    {
      left := pending.left[pos..pos + n];
      right := if stereo then pending.right[pos..pos + n] else [];
      TakeFront(pending.left, pos, n);
      if stereo {
        TakeFront(pending.right, pos, n);
      }
      BehindTwice(Undecoded(stereo, blocks), left, right,
                  pending.left[pos + n..], if stereo then pending.right[pos + n..] else []);
      pos := pos + n;
    }

    method ReadSamples(capacity: nat) returns (left: seq<Word>, right: seq<Word>)
      requires Valid()
      modifies this
      ensures Valid() && Step(old(Ahead()), capacity, Ok((left, right)), Ahead())
    {
      left, right := [], [];
      while |left| < capacity
        invariant Valid() && |left| <= capacity && |right| == (if stereo then |left| else 0)
        invariant old(Ahead()) == Ahead().Behind(left, right)
        decreases |blocks|, capacity - |left|
      {
        if pos == |pending.left| {
          if blocks == [] {
            break;
          }
          var more := Refill();
          if !more {
            continue;
          }
        }
        var n := Min(capacity - |left|, |pending.left| - pos);
        var l, r := Take(n);
        BehindTwice(Ahead(), left, right, l, r);
        left, right := left + l, right + r;
      }
      TakesBehind(Ahead().left, left, capacity);
      TakesBehind(Ahead().right, right, capacity);
    }
  }

  lemma TakeFront(s: seq<Word>, pos: nat, n: nat)
    requires pos + n <= |s|
    ensures s[pos..] == s[pos..pos + n] + s[pos + n..]
  {
  }

  lemma BehindNothing(a: Audio)
    ensures a.Behind([], []) == a
  {
  }

  lemma BehindTwice(a: Audio, l: seq<Word>, r: seq<Word>, l': seq<Word>, r': seq<Word>)
    ensures a.Behind(l', r').Behind(l, r) == a.Behind(l + l', r + r')
  {
    Regroup(l, l', a.left);
    Regroup(r, r', a.right);
  }

  lemma TakesBehind(after: seq<Word>, got: seq<Word>, capacity: nat)
    requires |got| <= capacity && (|got| < capacity ==> after == [])
    ensures Takes(got + after, got, after, capacity)
  {
    assert (got + after)[..|got|] == got && (got + after)[|got|..] == after;
  }

  // ---- Any split into reads ----

  /** What a run of reads delivered on the left channel. */
  function GotLeft(got: seq<Result<(seq<Word>, seq<Word>), CodecError>>): seq<Word>
    requires forall g | g in got :: g.Ok?
  {
    if got == [] then [] else got[0].value.0 + GotLeft(got[1..])
  }

  function GotRight(got: seq<Result<(seq<Word>, seq<Word>), CodecError>>): seq<Word>
    requires forall g | g in got :: g.Ok?
  {
    if got == [] then [] else got[0].value.1 + GotRight(got[1..])
  }

  /** `ahead[i]` is what lies ahead before the `i`th read. */
  predicate ReadRun(ahead: seq<Audio>, caps: seq<nat>, got: seq<Result<(seq<Word>, seq<Word>), CodecError>>) {
    && |ahead| == |caps| + 1 && |got| == |caps|
    && forall i | 0 <= i < |caps| :: Step(ahead[i], caps[i], got[i], ahead[i + 1])
  }

  /** However a stream that ends on a whole frame is split into reads, they all succeed and deliver
      its first samples, as many as were asked for in all. */
  lemma {:induction false} ReadsAreChunkIndependent(ahead: seq<Audio>, caps: seq<nat>,
                                  got: seq<Result<(seq<Word>, seq<Word>), CodecError>>)
    requires ReadRun(ahead, caps, got) && !ahead[0].ragged
    ensures forall g | g in got :: g.Ok?
    ensures GotLeft(got) == ahead[0].left[..Min(Total(caps), |ahead[0].left|)]
    ensures GotRight(got) == ahead[0].right[..Min(Total(caps), |ahead[0].right|)]
    decreases |caps|
  {
    if caps != [] {
      assert Step(ahead[0], caps[0], got[0], ahead[1]);
      var ahead', caps', got' := ahead[1..], caps[1..], got[1..];
      forall i | 0 <= i < |caps'|
        ensures Step(ahead'[i], caps'[i], got'[i], ahead'[i + 1])
      {
        assert Step(ahead[i + 1], caps[i + 1], got[i + 1], ahead[i + 2]);
      }
      ReadsAreChunkIndependent(ahead', caps', got');
      assert got == [got[0]] + got';
      PrefixInTwo(ahead[0].left, caps[0], Total(caps'));
      PrefixInTwo(ahead[0].right, caps[0], Total(caps'));
    }
  }

  lemma PrefixInTwo(s: seq<Word>, a: nat, b: nat)
    ensures var n := Min(a, |s|);
      s[..Min(a + b, |s|)] == s[..n] + s[n..][..Min(b, |s| - n)]
  {
  }
}
