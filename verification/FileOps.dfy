/** Saving and renaming as transactions on a filesystem that may refuse any operation.

    `World` is the filesystem, a map from paths to contents, and the fates an adversary has
    chosen for the coming operations, one per operation; when they run out, operations
    succeed.  Nothing else writes to the filesystem. */
module FileOps {

  import opened Util
  import opened Wire
  import opened Filenames

  type Path = Bytes
  type Files = map<Path, Bytes>

  /** `Fails` carries what a failed write leaves behind, if it got as far as creating a file. */
  datatype Fate = Succeeds | Fails(leftover: Option<Bytes>)

  datatype World = World(files: Files, fates: seq<Fate>) {
    function Fate(): Fate {
      if fates == [] then Succeeds else fates[0]
    }

    function Later(): World {
      if fates == [] then this else this.(fates := fates[1..])
    }

    function Put(path: Path, bytes: Bytes): World {
      this.(files := files[path := bytes])
    }

    function Without(path: Path): World {
      this.(files := files - {path})
    }
  }

  datatype IoError = NotFound | AlreadyExists | Other

  // ---- One operation each ----

  function ExistsResult(w: World, path: Path): Result<bool, IoError> {
    if w.Fate().Succeeds? then Ok(path in w.files) else Err(Other)
  }

  /** `create_new` refuses an existing file; a failed `write_all` leaves a truncated one. */
  function WriteNewResult(w: World, path: Path, bytes: Bytes): (World, Result<(), IoError>) {
    if path in w.files then (w.Later(), Err(if w.Fate().Succeeds? then AlreadyExists else Other))
    else match w.Fate()
      case Succeeds => (w.Later().Put(path, bytes), Ok(()))
      case Fails(None) => (w.Later(), Err(Other))
      case Fails(Some(part)) => (w.Later().Put(path, part), Err(Other))
  }

  function RenameResult(w: World, from: Path, to: Path): (World, Result<(), IoError>) {
    if w.Fate().Fails? then (w.Later(), Err(Other))
    else if from !in w.files then (w.Later(), Err(NotFound))
    else (w.Later().Without(from).Put(to, w.files[from]), Ok(()))
  }

  function RemoveResult(w: World, path: Path): (World, Result<(), IoError>) {
    if w.Fate().Fails? then (w.Later(), Err(Other))
    else if path !in w.files then (w.Later(), Err(NotFound))
    else (w.Later().Without(path), Ok(()))
  }

  // ---- rollback_files ----

  /** Removes each path; counts failures other than the file being absent. */
  function RollbackFrom(w: World, paths: seq<Path>, failures: nat): (World, nat)
    decreases |paths|
  {
    if paths == [] then (w, failures)
    else
      var (w', r) := RemoveResult(w, paths[0]);
      RollbackFrom(w', paths[1..], if r.Err? && r.error != NotFound then failures + 1 else failures)
  }

  lemma {:induction false} RollbackRemoves(w: World, paths: seq<Path>, n: nat)
    ensures var (w', m) := RollbackFrom(w, paths, n);
      m >= n && (m == n ==> w'.files == w.files - set p | p in paths)
    decreases |paths|
  {
    if paths == [] {
      assert w.files - {} == w.files;
    } else {
      var (w1, r) := RemoveResult(w, paths[0]);
      RollbackRemoves(w1, paths[1..], if r.Err? && r.error != NotFound then n + 1 else n);
      assert paths == [paths[0]] + paths[1..];
    }
  }

  // ---- save_loop ----

  /** What a loop offers for saving.  Its hash and metadata text are given. */
  datatype Source = Source(saved: Option<Bytes>, hash: Bytes, name: Option<Bytes>, audio: Bytes, metadata: Bytes)

  datatype SaveResult =
    | Saved(audio: Path, data: Path)
    | AlreadySaved
    | BadCodec
    | DirectoryFailed
    | LookupFailed
    | Collision
    | EncodeFailed(cleaned: bool)      // the encoder's own cleanup is not reported
    | AudioFailed(unremoved: nat)      // number of reported rollback failures
    | MetadataFailed(unremoved: nat)

  function Join(library: Path, name: Bytes): Path {
    library + [SLASH] + name
  }

  const LOOP: Bytes := [108, 111, 111, 112]
  const XML: Bytes := [DOT, 120, 109, 108]

  function PathOf(library: Path, src: Source, ext: Bytes): Path {
    Join(library, Stub(LOOP, Encoded(src.hash), src.name, Some(ext)))
  }

  /** The result with the new world and the new save hash. */
  datatype SaveOutcome = SaveOutcome(world: World, saved: Option<Bytes>, result: SaveResult)

  function SaveLoopSpec(w: World, src: Source, library: Path, ext: Bytes): SaveOutcome {
    var audio, data := PathOf(library, src, ext), PathOf(library, src, XML);
    if src.saved.Some? then SaveOutcome(w, src.saved, AlreadySaved)
    else
      var found, w1 := ExistsResult(w, audio), w.Later();
      if found.Err? then SaveOutcome(w1, src.saved, LookupFailed)
      else if found.value then SaveOutcome(w1, src.saved, Collision)
      else
        var (w2, wrote) := WriteNewResult(w1, audio, src.audio);
        if wrote.Err? then
          var (w3, n) := if wrote.error == AlreadyExists then (w2, 0) else RollbackFrom(w2, [audio], 0);
          SaveOutcome(w3, src.saved, AudioFailed(n))
        else CommitSpec(w2, src, audio, data)
  }

  /** The metadata write both save operations end with. */
  function CommitSpec(w: World, src: Source, audio: Path, data: Path): SaveOutcome {
    var (w', wrote) := WriteNewResult(w, data, src.metadata);
    if wrote.Err? then
      var (w'', n) := RollbackFrom(w', [data, audio], 0);
      SaveOutcome(w'', src.saved, MetadataFailed(n))
    else SaveOutcome(w', Some(src.hash), Saved(audio, data))
  }

  predicate Clean(r: SaveResult) {
    match r
    case EncodeFailed(cleaned) => cleaned
    case AudioFailed(n) => n == 0
    case MetadataFailed(n) => n == 0
    case _ => true
  }

  /** Saved both files and the hash, or left everything as it was. */
  predicate AllOrNothing(files: Files, src: Source, o: SaveOutcome) {
    if o.result.Saved? then
      && o.result.audio !in files && o.result.data !in files && o.result.audio != o.result.data
      && o.world.files == files[o.result.audio := src.audio][o.result.data := src.metadata]
      && o.saved == Some(src.hash)
    else o.world.files == files && o.saved == src.saved
  }

  lemma CommitOutcome(w: World, src: Source, audio: Path, data: Path)
    requires audio in w.files && w.files[audio] == src.audio
    ensures var o := CommitSpec(w, src, audio, data);
      && (o.result.Saved? ==>
            && o.result == Saved(audio, data) && data !in w.files
            && o.world.files == w.files[data := src.metadata] && o.saved == Some(src.hash))
      && (!o.result.Saved? ==> o.saved == src.saved && o.result.MetadataFailed?)
      && (!o.result.Saved? && Clean(o.result) ==> o.world.files == w.files - {data, audio})
  {
    var (w', wrote) := WriteNewResult(w, data, src.metadata);
    RollbackRemoves(w', [data, audio], 0);
    assert (set p | p in [data, audio]) == {data, audio};
    assert w'.files - {data, audio} == w.files - {data, audio};
  }

  lemma SaveLoopCases(w: World, src: Source, library: Path, ext: Bytes)
    ensures var o := SaveLoopSpec(w, src, library, ext);
      var data := PathOf(library, src, XML);
      Clean(o.result) ==>
        AllOrNothing(w.files, src, o)
        || (o.result.MetadataFailed? && src.saved.None? && PathOf(library, src, ext) !in w.files
            && data in w.files && o.world.files == w.files - {data} && o.saved == src.saved)
  {
    var audio, data := PathOf(library, src, ext), PathOf(library, src, XML);
    var w1 := w.Later();
    if src.saved.None? && ExistsResult(w, audio) == Ok(false) {
      var (w2, wrote) := WriteNewResult(w1, audio, src.audio);
      RollbackRemoves(w2, [audio], 0);
      assert (set p | p in [audio]) == {audio};
      assert w2.files - {audio} == w.files;
      if wrote.Ok? {
        CommitOutcome(w2, src, audio, data);
        assert w2.files - {data, audio} == w.files - {data};
        assert data !in w.files ==> w.files - {data} == w.files;
      }
    }
  }

  /** `save_loop` is atomic against every adversary, up to reported rollback failures, exactly
      when it returns early or the metadata path is free: a metadata file that was already
      there is taken for a leftover of this save and removed. */
  lemma SaveLoopAtomicIff(files: Files, src: Source, library: Path, ext: Bytes)
    ensures (forall fates :: var o := SaveLoopSpec(World(files, fates), src, library, ext);
               Clean(o.result) ==> AllOrNothing(files, src, o))
      <==> src.saved.Some? || PathOf(library, src, ext) in files || PathOf(library, src, XML) !in files
  {
    var audio, data := PathOf(library, src, ext), PathOf(library, src, XML);
    if src.saved.Some? || audio in files || data !in files {
      forall fates
        ensures var o := SaveLoopSpec(World(files, fates), src, library, ext);
          Clean(o.result) ==> AllOrNothing(files, src, o)
      {
        SaveLoopCases(World(files, fates), src, library, ext);
      }
    } else {
      var w := World(files, []);
      var w2 := w.Put(audio, src.audio);
      var o := SaveLoopSpec(w, src, library, ext);
      assert o == CommitSpec(w2, src, audio, data);
      assert RollbackFrom(w2, [data, audio], 0) == RollbackFrom(w2.Without(data), [audio], 0) by {
        assert [data, audio][1..] == [audio];
      }
      assert RollbackFrom(w2.Without(data), [audio], 0)
        == RollbackFrom(w2.Without(data).Without(audio), [], 0);
      assert data !in o.world.files;
      assert Clean(o.result) && !AllOrNothing(files, src, o);
    }
  }

  // ---- save_loop_encoded ----

  datatype Codec = Unknown | Vorbis | Wav | Flac | Au

  function Extension(codec: Codec): Option<Bytes> {
    match codec
    case Wav => Some([DOT, 119, 97, 118])
    case Vorbis => Some([DOT, 111, 103, 103])
    case Flac => Some([DOT, 102, 108, 97, 99])
    case Au => Some([DOT, 97, 117])
    case Unknown => None
  }

  /** `encode_audio_file`: on any failure after creating the file it removes it and ignores
      whether that worked. */
  function EncodeResult(w: World, path: Path, bytes: Bytes): (World, Result<(), bool>) {
    var (w', wrote) := WriteNewResult(w, path, bytes);
    if wrote.Ok? then (w', Ok(()))
    else if path in w.files || path !in w'.files then (w', Err(true))
    else
      var (w'', removed) := RemoveResult(w', path);
      (w'', Err(removed.Ok?))
  }

  function SaveEncodedSpec(w: World, src: Source, library: Path, codec: Codec): SaveOutcome {
    if src.saved.Some? then SaveOutcome(w, src.saved, AlreadySaved)
    else if w.Fate().Fails? then SaveOutcome(w.Later(), src.saved, DirectoryFailed)
    else if Extension(codec).None? then SaveOutcome(w.Later(), src.saved, BadCodec)
    else
      SaveBothSpec(w.Later(), src, PathOf(library, src, Extension(codec).value), PathOf(library, src, XML))
  }

  /** Both paths must be free before anything is written. */
  function SaveBothSpec(w: World, src: Source, audio: Path, data: Path): SaveOutcome {
    var w1 := w.Later();
    if ExistsResult(w, audio).Err? then SaveOutcome(w1, src.saved, LookupFailed)
    else if ExistsResult(w, audio).value then SaveOutcome(w1, src.saved, Collision)
    else if ExistsResult(w1, data).Err? then SaveOutcome(w1.Later(), src.saved, LookupFailed)
    else if ExistsResult(w1, data).value then SaveOutcome(w1.Later(), src.saved, Collision)
    else EncodeSpec(w1.Later(), src, audio, data)
  }

  function EncodeSpec(w: World, src: Source, audio: Path, data: Path): SaveOutcome {
    var (w', encoded) := EncodeResult(w, audio, src.audio);
    if encoded.Err? then SaveOutcome(w', src.saved, EncodeFailed(encoded.error))
    else CommitSpec(w', src, audio, data)
  }

  lemma JoinInjective(library: Path, a: Bytes, b: Bytes)
    requires a != b
    ensures Join(library, a) != Join(library, b)
  {
    AppendInjective(library + [SLASH], a, b);
  }

  lemma EncodedPathsDiffer(src: Source, library: Path, codec: Codec)
    requires Extension(codec).Some?
    ensures PathOf(library, src, Extension(codec).value) != PathOf(library, src, XML)
  {
    var ext := Extension(codec).value;
    assert ext[1] != XML[1];
    StubInjectiveInExt(LOOP, Encoded(src.hash), src.name, ext, XML);
    JoinInjective(library, Stub(LOOP, Encoded(src.hash), src.name, Some(ext)),
                  Stub(LOOP, Encoded(src.hash), src.name, Some(XML)));
  }

  lemma EncodeAtomic(w: World, src: Source, audio: Path, data: Path)
    requires audio != data && audio !in w.files && data !in w.files
    ensures var o := EncodeSpec(w, src, audio, data); Clean(o.result) ==> AllOrNothing(w.files, src, o)
  {
    var (w', encoded) := EncodeResult(w, audio, src.audio);
    if encoded.Ok? {
      CommitOutcome(w', src, audio, data);
      assert w'.files - {data, audio} == w.files;
    } else if encoded.error {
      assert w'.files == w.files;
    }
  }

  lemma SaveBothAtomic(w: World, src: Source, audio: Path, data: Path)
    requires audio != data
    ensures var o := SaveBothSpec(w, src, audio, data); Clean(o.result) ==> AllOrNothing(w.files, src, o)
  {
    if audio !in w.files && data !in w.files {
      EncodeAtomic(w.Later().Later(), src, audio, data);
    }
  }

  /** `save_loop_encoded` is atomic for every codec and every adversary whenever no rollback
      failure is reported and the encoder could clean up after itself; it checks both paths
      first, and no codec's extension is the metadata's. */
  lemma SaveEncodedAtomic(w: World, src: Source, library: Path, codec: Codec)
    ensures var o := SaveEncodedSpec(w, src, library, codec);
      Clean(o.result) ==> AllOrNothing(w.files, src, o)
  {
    if src.saved.None? && w.Fate().Succeeds? && Extension(codec).Some? {
      var audio, data := PathOf(library, src, Extension(codec).value), PathOf(library, src, XML);
      EncodedPathsDiffer(src, library, codec);
      SaveBothAtomic(w.Later(), src, audio, data);
    }
  }

  // ---- Exactly when saving succeeds, and what else it answers ----

  /** The next `n` operations succeed. */
  predicate AllSucceed(fates: seq<Fate>, n: nat) {
    forall k | 0 <= k < n && k < |fates| :: fates[k].Succeeds?
  }

  function AsciiByte(ch: char): Byte {
    if ch <= '~' then ch as int else 0
  }

  function Ascii(s: string): Bytes {
    seq(|s|, i requires 0 <= i < |s| => AsciiByte(s[i]))
  }

  lemma ExtensionsAre(codec: Codec)
    ensures Extension(codec) == match codec
                                case Wav => Some(Ascii(".wav"))
                                case Vorbis => Some(Ascii(".ogg"))
                                case Flac => Some(Ascii(".flac"))
                                case Au => Some(Ascii(".au"))
                                case Unknown => None
    ensures XML == Ascii(".xml") && LOOP == Ascii("loop")
    ensures [SLASH] == Ascii("/") && [DASH] == Ascii("-")
  {
    assert XML == Ascii(".xml") && LOOP == Ascii("loop");
    match codec {
      case Wav => assert Extension(codec).value == Ascii(".wav");
      case Vorbis => assert Extension(codec).value == Ascii(".ogg");
      case Flac => assert Extension(codec).value == Ascii(".flac");
      case Au => assert Extension(codec).value == Ascii(".au");
      case Unknown =>
    }
  }

  /** The path of a loop whose name has no separator, by its letters. */
  lemma PathSpells(library: Path, src: Source, ext: Bytes)
    requires SLASH !in src.name.UnwrapOr([]) && 0 !in src.name.UnwrapOr([])
    ensures var name := src.name.UnwrapOr([]);
      PathOf(library, src, ext) == library + Ascii("/") + (Ascii("loop") + Ascii("-") + Encoded(src.hash)
                                   + (if name == [] then [] else Ascii("-") + name) + ext)
  {
    var name, front := src.name.UnwrapOr([]), LOOP + [DASH] + Encoded(src.hash);
    ExtensionsAre(Unknown);
    StubSpellsName(LOOP, Encoded(src.hash), name, ext);
    assert front + [] == front;
    Regroup(front, [DASH], name);
  }

  /** What `save_loop` answers, by the first obstacle: an earlier save, a failed lookup, an audio
      file in the way, a failed audio write, and a metadata file in the way or a failed write. */
  lemma SaveLoopAnswers(w: World, src: Source, library: Path, ext: Bytes)
    requires ext != XML
    ensures var r, audio, data := SaveLoopSpec(w, src, library, ext).result, PathOf(library, src, ext), PathOf(library, src, XML);
      && (r.Saved? <==> src.saved.None? && audio !in w.files && data !in w.files && AllSucceed(w.fates, 3))
      && (r.Saved? ==> r == Saved(audio, data))
      && (r.AlreadySaved? <==> src.saved.Some?)
      && (r.LookupFailed? <==> src.saved.None? && !AllSucceed(w.fates, 1))
      && (r.Collision? <==> src.saved.None? && AllSucceed(w.fates, 1) && audio in w.files)
      && (r.AudioFailed? <==> src.saved.None? && AllSucceed(w.fates, 1) && audio !in w.files && !AllSucceed(w.fates, 2))
      && (r.MetadataFailed? <==> src.saved.None? && AllSucceed(w.fates, 2) && audio !in w.files
                                 && (data in w.files || !AllSucceed(w.fates, 3)))
  {
    StubInjectiveInExt(LOOP, Encoded(src.hash), src.name, ext, XML);
    JoinInjective(library, Stub(LOOP, Encoded(src.hash), src.name, Some(ext)),
                  Stub(LOOP, Encoded(src.hash), src.name, Some(XML)));
    var audio := PathOf(library, src, ext);
    if src.saved.None? && ExistsResult(w, audio) == Ok(false) {
      var (w2, wrote) := WriteNewResult(w.Later(), audio, src.audio);
      assert wrote.Ok? <==> AllSucceed(w.fates, 2);
    }
  }

  /** What the encoded save answers. */
  lemma SaveEncodedAnswers(w: World, src: Source, library: Path, codec: Codec)
    ensures var r := SaveEncodedSpec(w, src, library, codec).result;
      && (r.AlreadySaved? <==> src.saved.Some?)
      && (r.DirectoryFailed? <==> src.saved.None? && !AllSucceed(w.fates, 1))
      && (r.BadCodec? <==> src.saved.None? && AllSucceed(w.fates, 1) && codec.Unknown?)
      && (src.saved.None? && AllSucceed(w.fates, 1) && !codec.Unknown? ==>
            && Extension(codec).Some?
            && var audio, data := PathOf(library, src, Extension(codec).value), PathOf(library, src, XML);
              && (r.Saved? <==> audio !in w.files && data !in w.files && AllSucceed(w.fates, 5))
              && (r.Saved? ==> r == Saved(audio, data))
              && (r.LookupFailed? <==> !AllSucceed(w.fates, 2) || (audio !in w.files && !AllSucceed(w.fates, 3)))
              && (r.Collision? <==> AllSucceed(w.fates, 2)
                                    && (audio in w.files || (AllSucceed(w.fates, 3) && data in w.files)))
              && (r.EncodeFailed? <==> audio !in w.files && data !in w.files && AllSucceed(w.fates, 3) && !AllSucceed(w.fates, 4))
              && (r.MetadataFailed? <==> audio !in w.files && data !in w.files && AllSucceed(w.fates, 4) && !AllSucceed(w.fates, 5)))
  {
    ExtensionsAre(codec);
    if src.saved.None? && w.Fate().Succeeds? && Extension(codec).Some? {
      EncodedPathsDiffer(src, library, codec);
      SaveBothAnswers(w.Later(), src, PathOf(library, src, Extension(codec).value), PathOf(library, src, XML));
      forall n: nat | n > 0
        ensures AllSucceed(w.fates, n) <==> AllSucceed(w.Later().fates, n - 1)
      {
        SucceedLater(w, n);
      }
    }
  }

  lemma SucceedLater(w: World, n: nat)
    requires n > 0
    ensures AllSucceed(w.fates, n) <==> w.Fate().Succeeds? && AllSucceed(w.Later().fates, n - 1)
  {
    if w.fates != [] {
      var later := w.Later().fates;
      if AllSucceed(w.fates, n) {
        forall k | 0 <= k < n - 1 && k < |later|
          ensures later[k].Succeeds?
        {
          assert later[k] == w.fates[k + 1];
        }
      }
      if w.Fate().Succeeds? && AllSucceed(later, n - 1) {
        forall k | 0 <= k < n && k < |w.fates|
          ensures w.fates[k].Succeeds?
        {
          assert k > 0 ==> w.fates[k] == later[k - 1];
        }
      }
    }
  }

  lemma SaveBothAnswers(w: World, src: Source, audio: Path, data: Path)
    requires audio != data
    ensures var r := SaveBothSpec(w, src, audio, data).result;
      && (r.Saved? <==> audio !in w.files && data !in w.files && AllSucceed(w.fates, 4))
      && (r.Saved? ==> r == Saved(audio, data))
      && (r.LookupFailed? <==> !AllSucceed(w.fates, 1) || (audio !in w.files && !AllSucceed(w.fates, 2)))
      && (r.Collision? <==> AllSucceed(w.fates, 1)
                            && (audio in w.files || (AllSucceed(w.fates, 2) && data in w.files)))
      && (r.EncodeFailed? <==> audio !in w.files && data !in w.files && AllSucceed(w.fates, 2) && !AllSucceed(w.fates, 3))
      && (r.MetadataFailed? <==> audio !in w.files && data !in w.files && AllSucceed(w.fates, 3) && !AllSucceed(w.fates, 4))
  {
    if audio !in w.files && data !in w.files && AllSucceed(w.fates, 2) {
      var w2 := w.Later().Later();
      var (w3, encoded) := EncodeResult(w2, audio, src.audio);
      assert encoded.Ok? <==> AllSucceed(w.fates, 3);
      if encoded.Ok? {
        CommitOutcome(w3, src, audio, data);
        assert WriteNewResult(w3, data, src.metadata).1.Ok? <==> AllSucceed(w.fates, 4);
      }
    }
  }

  // ---- rename_saveable ----

  type Pair = (Path, Path)

  datatype RenameError =
    | BadName
    | BadFilename
    | SplitPanicked
    | RenameLookupFailed
    | NothingToRename
    | DestinationExists
    | LateLookupFailed(moved: nat)   // the re-check failed; earlier moves stay
    | LateExists(moved: nat)         // the re-check found a file; earlier moves stay
    | MoveFailed(unmoved: nat)       // number of rollback renames that failed

  predicate SaveableName(name: Bytes) {
    SLASH !in name && 0 !in name
  }

  /** The first loop: the companions that exist, with their destinations. */
  function ScanSpec(w: World, stub: Path, renamed: Path, exts: seq<Bytes>, pairs: seq<Pair>)
    : (World, Result<seq<Pair>, RenameError>)
    decreases |exts|
  {
    if exts == [] then (w, Ok(pairs))
    else
      var found := ExistsResult(w, stub + exts[0]);
      if found.Err? then (w.Later(), Err(RenameLookupFailed))
      else
        ScanSpec(w.Later(), stub, renamed, exts[1..],
                 if found.value then pairs + [(stub + exts[0], renamed + exts[0])] else pairs)
  }

  /** The second loop: every destination must be free. */
  function CheckSpec(w: World, pairs: seq<Pair>): (World, Result<(), RenameError>)
    decreases |pairs|
  {
    if pairs == [] then (w, Ok(()))
    else
      var found := ExistsResult(w, pairs[0].1);
      if found.Err? then (w.Later(), Err(RenameLookupFailed))
      else if found.value then (w.Later(), Err(DestinationExists))
      else CheckSpec(w.Later(), pairs[1..])
  }

  /** Undo completed moves, last first. */
  function UndoSpec(w: World, moved: seq<Pair>, failures: nat): (World, nat)
    decreases |moved|
  {
    if moved == [] then (w, failures)
    else
      var last := moved[|moved| - 1];
      var (w', r) := RenameResult(w, last.1, last.0);
      UndoSpec(w', moved[..|moved| - 1], if r.Err? then failures + 1 else failures)
  }

  /** The third loop, `i` moves done. */
  function MoveSpec(w: World, pairs: seq<Pair>, i: nat): (World, Result<(), RenameError>)
    requires i <= |pairs|
    decreases |pairs| - i
  {
    if i == |pairs| then (w, Ok(()))
    else
      var found := ExistsResult(w, pairs[i].1);
      if found.Err? then (w.Later(), Err(LateLookupFailed(i)))
      else if found.value then (w.Later(), Err(LateExists(i)))
      else
        var (w', r) := RenameResult(w.Later(), pairs[i].0, pairs[i].1);
        if r.Err? then
          var (w'', n) := UndoSpec(w', pairs[..i], 0);
          (w'', Err(MoveFailed(n)))
        else MoveSpec(w', pairs, i + 1)
  }

  function RenamedPath(parts: Split, newName: Option<Bytes>): Path
    requires parts.Parts?
  {
    Stub(parts.base, parts.hash, newName, None)
  }

  function RenameSpec(w: World, stub: Path, baseLen: nat, newName: Option<Bytes>, exts: seq<Bytes>)
    : (World, Result<Path, RenameError>)
  {
    var parts := SplitFilename(stub, baseLen);
    if newName.Some? && !SaveableName(newName.value) then (w, Err(BadName))
    else if parts.Invalid? then (w, Err(BadFilename))
    else if parts.Panics? then (w, Err(SplitPanicked))
    else
      var renamed := RenamedPath(parts, newName);
      var (w', done) := RenameCompanions(w, stub, renamed, exts);
      (w', if done.Err? then Err(done.error) else Ok(renamed))
  }

  function RenameCompanions(w: World, stub: Path, renamed: Path, exts: seq<Bytes>): (World, Result<(), RenameError>) {
    var (w1, scanned) := ScanSpec(w, stub, renamed, exts, []);
    if scanned.Err? then (w1, Err(scanned.error))
    else if scanned.value == [] then (w1, Err(NothingToRename))
    else
      var (w2, checked) := CheckSpec(w1, scanned.value);
      if checked.Err? then (w2, Err(checked.error)) else MoveSpec(w2, scanned.value, 0)
  }

  /** The companions of `stub` that exist, each with its destination. */
  function Companions(files: Files, stub: Path, renamed: Path, exts: seq<Bytes>): seq<Pair> {
    if exts == [] then []
    else
      (if stub + exts[0] in files then [(stub + exts[0], renamed + exts[0])] else [])
      + Companions(files, stub, renamed, exts[1..])
  }

  /** Contents after moving the first `n` pairs. */
  function MoveOne(files: Files, pair: Pair): Files {
    if pair.0 in files then (files - {pair.0})[pair.1 := files[pair.0]] else files
  }

  function Moved(files: Files, pairs: seq<Pair>): Files {
    if pairs == [] then files else MoveOne(Moved(files, pairs[..|pairs| - 1]), pairs[|pairs| - 1])
  }

  /** No two pairs share a source or a destination. */
  predicate Apart(ps: seq<Pair>) {
    forall i, j | 0 <= i < j < |ps| :: ps[i].0 != ps[j].0 && ps[i].1 != ps[j].1
  }

  /** Sources present and distinct, destinations absent and distinct. */
  ghost predicate Disjoint(files: Files, pairs: seq<Pair>) {
    && (forall i | 0 <= i < |pairs| :: pairs[i].0 in files && pairs[i].1 !in files)
    && (forall i, j | 0 <= i < j < |pairs| :: pairs[i].0 != pairs[j].0 && pairs[i].1 != pairs[j].1)
  }

  /** No extension whose companion exists comes twice. */
  predicate DistinctPresent(files: Files, stub: Path, exts: seq<Bytes>) {
    forall i, j | 0 <= i < j < |exts| && stub + exts[i] in files :: exts[i] != exts[j]
  }

  lemma {:induction false} ScanFinds(w: World, stub: Path, renamed: Path, exts: seq<Bytes>, pairs: seq<Pair>)
    ensures var (w', r) := ScanSpec(w, stub, renamed, exts, pairs);
      && w'.files == w.files
      && (r.Ok? ==> r.value == pairs + Companions(w.files, stub, renamed, exts))
      && (r.Err? ==> r.error.RenameLookupFailed?)
    decreases |exts|
  {
    if exts != [] {
      var found := ExistsResult(w, stub + exts[0]);
      if found.Ok? {
        var next := if found.value then pairs + [(stub + exts[0], renamed + exts[0])] else pairs;
        ScanFinds(w.Later(), stub, renamed, exts[1..], next);
      }
    }
  }

  lemma {:induction false} CheckFinds(w: World, pairs: seq<Pair>)
    ensures var (w', r) := CheckSpec(w, pairs);
      && w'.files == w.files
      && (r.Ok? ==> forall p | p in pairs :: p.1 !in w.files)
      && (r.Err? ==> r.error.RenameLookupFailed? || r.error.DestinationExists?)
    decreases |pairs|
  {
    if pairs != [] {
      CheckFinds(w.Later(), pairs[1..]);
      assert pairs == [pairs[0]] + pairs[1..];
    }
  }

  /** Where a companion comes from. */
  lemma {:induction false} CompanionAt(files: Files, stub: Path, renamed: Path, exts: seq<Bytes>, p: Pair)
    requires p in Companions(files, stub, renamed, exts)
    ensures exists e | e in exts :: p == (stub + e, renamed + e) && stub + e in files
  {
    if stub + exts[0] in files && p == (stub + exts[0], renamed + exts[0]) {
    } else {
      CompanionAt(files, stub, renamed, exts[1..], p);
    }
  }

  lemma {:induction false} CompanionsPresent(files: Files, stub: Path, renamed: Path, exts: seq<Bytes>)
    ensures forall i | 0 <= i < |Companions(files, stub, renamed, exts)| ::
      Companions(files, stub, renamed, exts)[i].0 in files
  {
    if exts != [] {
      CompanionsPresent(files, stub, renamed, exts[1..]);
    }
  }

  lemma {:induction false} CompanionsDistinct(files: Files, stub: Path, renamed: Path, exts: seq<Bytes>)
    requires DistinctPresent(files, stub, exts)
    ensures var ps := Companions(files, stub, renamed, exts);
      && (forall i | 0 <= i < |ps| :: ps[i].0 in files)
      && Apart(ps)
  {
    CompanionsPresent(files, stub, renamed, exts);
    if exts != [] {
      var rest := Companions(files, stub, renamed, exts[1..]);
      CompanionsDistinct(files, stub, renamed, exts[1..]);
      if stub + exts[0] in files {
        forall j | 0 <= j < |rest|
          ensures rest[j].0 != stub + exts[0] && rest[j].1 != renamed + exts[0]
        {
          CompanionAt(files, stub, renamed, exts[1..], rest[j]);
          var e :| e in exts[1..] && rest[j] == (stub + e, renamed + e);
          var k :| 0 <= k < |exts| - 1 && exts[1..][k] == e;
          assert exts[k + 1] == e != exts[0];
          AppendInjective(stub, e, exts[0]);
          AppendInjective(renamed, e, exts[0]);
        }
        ApartCons((stub + exts[0], renamed + exts[0]), rest);
      } else {
        assert Companions(files, stub, renamed, exts) == [] + rest == rest;
      }
    }
  }

  lemma ApartCons(p: Pair, rest: seq<Pair>)
    requires Apart(rest) && forall j | 0 <= j < |rest| :: rest[j].0 != p.0 && rest[j].1 != p.1
    ensures Apart([p] + rest)
  {
  }

  lemma {:induction false} MovedPair(files: Files, pairs: seq<Pair>, i: nat)
    requires Disjoint(files, pairs) && i < |pairs|
    ensures var m := Moved(files, pairs);
      pairs[i].0 !in m && pairs[i].1 in m && m[pairs[i].1] == files[pairs[i].0]
    decreases |pairs|
  {
    var init, last := pairs[..|pairs| - 1], pairs[|pairs| - 1];
    if i < |init| {
      MovedPair(files, init, i);
      assert init[i] == pairs[i];
      assert pairs[i].0 != last.1 && pairs[i].1 != last.0;
    } else {
      MovedElsewhere(files, init, last.0);
    }
  }

  lemma {:induction false} MovedElsewhere(files: Files, pairs: seq<Pair>, p: Path)
    requires forall i | 0 <= i < |pairs| :: p != pairs[i].0 && p != pairs[i].1
    ensures var m := Moved(files, pairs);
      (p in m <==> p in files) && (p in files ==> m[p] == files[p])
    decreases |pairs|
  {
    if pairs != [] {
      MovedElsewhere(files, pairs[..|pairs| - 1], p);
    }
  }

  /** What the moves do to each path, given disjoint sources and destinations. */
  lemma MovedAt(files: Files, pairs: seq<Pair>)
    requires Disjoint(files, pairs)
    ensures forall i | 0 <= i < |pairs| ::
      pairs[i].0 !in Moved(files, pairs) && pairs[i].1 in Moved(files, pairs)
      && Moved(files, pairs)[pairs[i].1] == files[pairs[i].0]
    ensures forall p | (forall i | 0 <= i < |pairs| :: p != pairs[i].0 && p != pairs[i].1) ::
      (p in Moved(files, pairs) <==> p in files)
      && (p in files ==> Moved(files, pairs)[p] == files[p])
  {
    forall i | 0 <= i < |pairs|
      ensures pairs[i].0 !in Moved(files, pairs) && pairs[i].1 in Moved(files, pairs)
              && Moved(files, pairs)[pairs[i].1] == files[pairs[i].0]
    {
      MovedPair(files, pairs, i);
    }
    forall p | forall i | 0 <= i < |pairs| :: p != pairs[i].0 && p != pairs[i].1
      ensures (p in Moved(files, pairs) <==> p in files) && (p in files ==> Moved(files, pairs)[p] == files[p])
    {
      MovedElsewhere(files, pairs, p);
    }
  }

  lemma MoveBack(m: Files, from: Path, to: Path)
    requires from in m && to !in m
    ensures MoveOne(MoveOne(m, (from, to)), (to, from)) == m
  {
  }

  lemma UndoOne(files: Files, pairs: seq<Pair>)
    requires pairs != [] && Disjoint(files, pairs)
    ensures var last := pairs[|pairs| - 1];
      MoveOne(Moved(files, pairs), (last.1, last.0)) == Moved(files, pairs[..|pairs| - 1])
  {
    var init, last := pairs[..|pairs| - 1], pairs[|pairs| - 1];
    MovedAt(files, init);
    assert last.0 in Moved(files, init) && last.1 !in Moved(files, init);
    MoveBack(Moved(files, init), last.0, last.1);
  }

  /** Undoing never brings back a path it does not mention. */
  lemma {:induction false} UndoKeepsAbsent(w: World, moved: seq<Pair>, n: nat, p: Path)
    requires p !in w.files && forall k | 0 <= k < |moved| :: moved[k].0 != p
    ensures var (w', m) := UndoSpec(w, moved, n); p !in w'.files && m >= n
    decreases |moved|
  {
    if moved != [] {
      var last := moved[|moved| - 1];
      var (w1, r) := RenameResult(w, last.1, last.0);
      UndoKeepsAbsent(w1, moved[..|moved| - 1], if r.Err? then n + 1 else n, p);
    }
  }

  /** Undoing completed moves restores the files exactly when no undo failed. */
  lemma {:induction false} UndoRestores(files: Files, w: World, moved: seq<Pair>, n: nat)
    requires Disjoint(files, moved) && w.files == Moved(files, moved)
    ensures var (w', m) := UndoSpec(w, moved, n);
      && m >= n
      && (m == n ==> w'.files == files)
      && (m > n ==> exists k | 0 <= k < |moved| :: moved[k].0 !in w'.files)
    decreases |moved|
  {
    if moved != [] {
      var init, last := moved[..|moved| - 1], moved[|moved| - 1];
      var (w1, r) := RenameResult(w, last.1, last.0);
      MovedAt(files, moved);
      if r.Ok? {
        UndoOne(files, moved);
        UndoRestores(files, w1, init, n);
      } else {
        UndoKeepsAbsent(w1, init, n + 1, last.0);
      }
    }
  }

  /** Which errors of `rename_saveable` mean that nothing has moved. */
  predicate NothingMoved(e: RenameError) {
    match e
    case LateLookupFailed(k) => k == 0
    case LateExists(k) => k == 0
    case MoveFailed(n) => n == 0
    case _ => true
  }

  ghost predicate MovesSettle(files: Files, pairs: seq<Pair>, w: World, r: Result<(), RenameError>) {
    match r
    case Ok(_) => w.files == Moved(files, pairs)
    case Err(LateLookupFailed(k)) => k < |pairs| && w.files == Moved(files, pairs[..k])
    case Err(MoveFailed(n)) => w.files == files <==> n == 0
    case _ => false
  }

  lemma UndoSettles(files: Files, w: World, pairs: seq<Pair>, i: nat)
    requires Disjoint(files, pairs) && i <= |pairs| && w.files == Moved(files, pairs[..i])
    ensures var (w', n) := UndoSpec(w, pairs[..i], 0); w'.files == files <==> n == 0
  {
    var done := pairs[..i];
    UndoRestores(files, w, done, 0);
    var (w', n) := UndoSpec(w, done, 0);
    if n > 0 {
      var k :| 0 <= k < |done| && done[k].0 !in w'.files;
      assert done[k].0 in files;
    }
  }

  /** The next source is still there, its destination still free. */
  lemma NextMoveReady(files: Files, pairs: seq<Pair>, i: nat)
    requires Disjoint(files, pairs) && i < |pairs|
    ensures var m := Moved(files, pairs[..i]);
      pairs[i].0 in m && pairs[i].1 !in m && Moved(files, pairs[..i + 1]) == MoveOne(m, pairs[i])
  {
    var before := pairs[..i];
    assert forall j | 0 <= j < i :: before[j] == pairs[j];
    MovedElsewhere(files, before, pairs[i].0);
    MovedElsewhere(files, before, pairs[i].1);
    assert pairs[..i + 1][..i] == before;
  }

  lemma {:induction false} MoveRuns(files: Files, w: World, pairs: seq<Pair>, i: nat)
    requires Disjoint(files, pairs) && i <= |pairs| && w.files == Moved(files, pairs[..i])
    ensures var (w', r) := MoveSpec(w, pairs, i); MovesSettle(files, pairs, w', r)
    decreases |pairs| - i
  {
    if i == |pairs| {
      assert pairs[..i] == pairs;
    } else {
      NextMoveReady(files, pairs, i);
      if ExistsResult(w, pairs[i].1).Ok? {
        var (w1, r) := RenameResult(w.Later(), pairs[i].0, pairs[i].1);
        if r.Ok? {
          MoveRuns(files, w1, pairs, i + 1);
        } else {
          UndoSettles(files, w1, pairs, i);
        }
      }
    }
  }

  /** A move made is a change. */
  lemma MovedDiffers(files: Files, pairs: seq<Pair>, k: nat)
    requires Disjoint(files, pairs) && k <= |pairs|
    ensures Moved(files, pairs[..k]) == files <==> k == 0
  {
    if k > 0 {
      MovedAt(files, pairs[..k]);
      assert pairs[..k][0].0 in files && pairs[..k][0].0 !in Moved(files, pairs[..k]);
    }
  }

  /** The two check passes make the moves disjoint. */
  lemma CheckedDisjoint(files: Files, ps: seq<Pair>)
    requires forall i | 0 <= i < |ps| :: ps[i].0 in files
    requires Apart(ps)
    requires forall p | p in ps :: p.1 !in files
    ensures Disjoint(files, ps)
  {
    forall i | 0 <= i < |ps|
      ensures ps[i].1 !in files
    {
      assert ps[i] in ps;
    }
  }

  lemma MovesAllOrNothing(files: Files, w: World, ps: seq<Pair>)
    requires Disjoint(files, ps) && w.files == files
    ensures var (w', done) := MoveSpec(w, ps, 0);
      && (done.Ok? ==> w'.files == Moved(files, ps))
      && (done.Err? ==> !done.error.LateExists? && (w'.files == files <==> NothingMoved(done.error)))
  {
    MoveRuns(files, w, ps, 0);
    var (w', done) := MoveSpec(w, ps, 0);
    if done.Err? && done.error.LateLookupFailed? {
      MovedDiffers(files, ps, done.error.moved);
    }
  }

  /** Files all moved, or all as they were if and only if the error says so. */
  ghost predicate Settled(files: Files, ps: seq<Pair>, w: World, r: Result<(), RenameError>) {
    && (r.Ok? ==> ps != [] && Disjoint(files, ps) && w.files == Moved(files, ps))
    && (r.Err? ==> !r.error.LateExists? && (w.files == files <==> NothingMoved(r.error)))
  }

  lemma CheckedSettles(files: Files, w: World, ps: seq<Pair>, w': World, r: Result<(), RenameError>)
    requires ps != [] && w.files == files && forall i | 0 <= i < |ps| :: ps[i].0 in files
    requires Apart(ps)
    requires var (w2, checked) := CheckSpec(w, ps);
      (w', r) == if checked.Err? then (w2, Err(checked.error)) else MoveSpec(w2, ps, 0)
    ensures Settled(files, ps, w', r)
  {
    CheckFinds(w, ps);
    var (w2, checked) := CheckSpec(w, ps);
    if checked.Ok? {
      CheckedDisjoint(files, ps);
      MovesAllOrNothing(files, w2, ps);
    }
  }

  lemma CompanionsSettle(w: World, stub: Path, renamed: Path, exts: seq<Bytes>, ps: seq<Pair>,
                         w': World, r: Result<(), RenameError>)
    requires DistinctPresent(w.files, stub, exts) && ps == Companions(w.files, stub, renamed, exts)
    requires (w', r) == RenameCompanions(w, stub, renamed, exts)
    ensures Settled(w.files, ps, w', r)
  {
    var (w1, scanned) := ScanSpec(w, stub, renamed, exts, []);
    ScanFinds(w, stub, renamed, exts, []);
    assert [] + ps == ps;
    if scanned.Ok? && ps != [] {
      CompanionsDistinct(w.files, stub, renamed, exts);
      CheckedSettles(w.files, w1, ps, w', r);
    }
  }

  /** For every adversary, if no extension that exists is repeated: success moves exactly the
      companions that existed.  An error leaves the files as they were if and
      only if no undo failed and no re-check failed after a move; the destinations found free by
      the first check are never found taken by the second. */
  lemma RenameAllOrNothing(w: World, stub: Path, baseLen: nat, newName: Option<Bytes>, exts: seq<Bytes>)
    requires DistinctPresent(w.files, stub, exts)
    ensures var (w', r) := RenameSpec(w, stub, baseLen, newName, exts);
      && (r.Ok? ==> Settled(w.files, Companions(w.files, stub, r.value, exts), w', Ok(())))
      && (r.Err? ==> !r.error.LateExists? && (w'.files == w.files <==> NothingMoved(r.error)))
  {
    var parts := SplitFilename(stub, baseLen);
    if parts.Parts? && (newName.Some? ==> SaveableName(newName.value)) {
      var renamed := RenamedPath(parts, newName);
      var (w1, done) := RenameCompanions(w, stub, renamed, exts);
      CompanionsSettle(w, stub, renamed, exts, Companions(w.files, stub, renamed, exts), w1, done);
      assert RenameSpec(w, stub, baseLen, newName, exts) == (w1, if done.Err? then Err(done.error) else Ok(renamed));
    }
  }

  // ---- What the new name is ----

  /** The path keeps base and hash of the stub and spells the new name after them, or none. */
  predicate Spells(path: Path, stub: Path, baseLen: nat, name: Bytes) {
    && baseLen + 33 <= |stub|
    && path == stub[..baseLen] + [DASH] + stub[baseLen + 1..baseLen + 33] + (if name == [] then [] else [DASH] + name)
  }

  lemma RenamedPathSpells(stub: Path, baseLen: nat, newName: Option<Bytes>)
    requires SplitFilename(stub, baseLen).Parts? && SLASH !in newName.UnwrapOr([]) && 0 !in newName.UnwrapOr([])
    ensures Spells(RenamedPath(SplitFilename(stub, baseLen), newName), stub, baseLen, newName.UnwrapOr([]))
  {
    PartsAreCut(stub, baseLen);
    var p, n := SplitFilename(stub, baseLen), newName.UnwrapOr([]);
    StubSpellsName(p.base, p.hash, n, []);
    NoExtension(p.base + [DASH] + p.hash, n);
  }

  lemma NoExtension(front: Bytes, name: Bytes)
    ensures front + [DASH] + name + [] == front + ([DASH] + name) && front + [] == front
  {
  }

  lemma RenameGives(w: World, stub: Path, baseLen: nat, newName: Option<Bytes>, exts: seq<Bytes>)
    ensures var r := RenameSpec(w, stub, baseLen, newName, exts).1;
      r.Ok? ==>
        && SplitFilename(stub, baseLen).Parts? && SLASH !in newName.UnwrapOr([]) && 0 !in newName.UnwrapOr([])
        && r.value == RenamedPath(SplitFilename(stub, baseLen), newName)
  {
  }

  lemma RenameSpells(w: World, stub: Path, baseLen: nat, newName: Option<Bytes>, exts: seq<Bytes>)
    ensures var r := RenameSpec(w, stub, baseLen, newName, exts).1;
      r.Ok? ==> Spells(r.value, stub, baseLen, newName.UnwrapOr([]))
  {
    RenameGives(w, stub, baseLen, newName, exts);
    if RenameSpec(w, stub, baseLen, newName, exts).1.Ok? {
      RenamedPathSpells(stub, baseLen, newName);
    }
  }

  /** So the new name is read back from the path it returns, if and only if it has no dot; an
      absent one always is. */
  lemma RenameReadsBackIff(w: World, stub: Path, baseLen: nat, newName: Option<Bytes>, exts: seq<Bytes>)
    ensures var r, p := RenameSpec(w, stub, baseLen, newName, exts).1, SplitFilename(stub, baseLen);
      r.Ok? ==>
        && p.Parts?
        && (SplitFilename(r.value, baseLen) == Parts(p.base, p.hash, newName.UnwrapOr([]))
            <==> DOT !in newName.UnwrapOr([]))
  {
    var r := RenameSpec(w, stub, baseLen, newName, exts).1;
    if r.Ok? {
      RenameGives(w, stub, baseLen, newName, exts);
      PartsAreCut(stub, baseLen);
      var p := SplitFilename(stub, baseLen);
      NameReadsBackIff(p.base, p.hash, newName.UnwrapOr([]));
    }
  }

  // ---- When renaming is atomic ----

  /** A name and a file name that get past the first checks. */
  predicate Renamable(stub: Path, baseLen: nat, newName: Option<Bytes>) {
    SplitFilename(stub, baseLen).Parts? && (newName.Some? ==> SaveableName(newName.value))
  }

  /** What `stub` would be called. */
  function Destination(stub: Path, baseLen: nat, newName: Option<Bytes>): Path
    requires Renamable(stub, baseLen, newName)
  {
    RenamedPath(SplitFilename(stub, baseLen), newName)
  }

  function SucceedThen(n: nat, rest: seq<Fate>): seq<Fate> {
    if n == 0 then rest else [Succeeds] + SucceedThen(n - 1, rest)
  }

  lemma {:induction false} ScanSucceeds(files: Files, stub: Path, renamed: Path, exts: seq<Bytes>, pairs: seq<Pair>, rest: seq<Fate>)
    ensures ScanSpec(World(files, SucceedThen(|exts|, rest)), stub, renamed, exts, pairs)
         == (World(files, rest), Ok(pairs + Companions(files, stub, renamed, exts)))
    decreases |exts|
  {
    if exts == [] {
      assert pairs + [] == pairs;
    } else {
      var first: seq<Pair> := if stub + exts[0] in files then [(stub + exts[0], renamed + exts[0])] else [];
      assert SucceedThen(|exts|, rest)[1..] == SucceedThen(|exts| - 1, rest);
      ScanSucceeds(files, stub, renamed, exts[1..], pairs + first, rest);
      assert pairs + [] == pairs;
      Regroup(pairs, first, Companions(files, stub, renamed, exts[1..]));
    }
  }

  lemma {:induction false} CheckSucceeds(files: Files, pairs: seq<Pair>, rest: seq<Fate>)
    requires forall i | 0 <= i < |pairs| :: pairs[i].1 !in files
    ensures CheckSpec(World(files, SucceedThen(|pairs|, rest)), pairs) == (World(files, rest), Ok(()))
    decreases |pairs|
  {
    if pairs != [] {
      assert SucceedThen(|pairs|, rest)[1..] == SucceedThen(|pairs| - 1, rest);
      CheckSucceeds(files, pairs[1..], rest);
    }
  }

  /** The lookup before the second move fails: the first move stays. */
  lemma {:induction false} SecondLookupFails(files: Files, ps: seq<Pair>)
    requires |ps| >= 2 && ps[0].0 in files && ps[0].1 !in files
    ensures MoveSpec(World(files, [Succeeds, Succeeds, Fails(None)]), ps, 0)
         == (World(MoveOne(files, ps[0]), []), Err(LateLookupFailed(1)))
    ensures MoveOne(files, ps[0]) != files
  {
    var w := World(files, [Succeeds, Succeeds, Fails(None)]);
    assert w.Later().fates == [Succeeds, Fails(None)] && w.Later().Later().fates == [Fails(None)];
    var moved := World(MoveOne(files, ps[0]), [Fails(None)]);
    assert moved.Later().fates == [];
    assert MoveSpec(w, ps, 0) == MoveSpec(moved, ps, 1);
    assert ps[0].0 !in MoveOne(files, ps[0]);
  }

  predicate Reported(e: RenameError) {
    e.MoveFailed? && e.unmoved > 0
  }

  /** All the companions move, or the files are as they were, unless the error tells of a move
      that could not be undone. */
  ghost predicate Atomic(files: Files, w: World, r: Result<Path, RenameError>) {
    r.Err? && !Reported(r.error) ==> w.files == files
  }

  lemma FewMovesAtomic(files: Files, w: World, ps: seq<Pair>, w': World, r: Result<(), RenameError>)
    requires Disjoint(files, ps) && w.files == files && |ps| <= 1 && (w', r) == MoveSpec(w, ps, 0)
    ensures r.Err? && !Reported(r.error) ==> w'.files == files
  {
    MoveRuns(files, w, ps, 0);
  }

  lemma FewCheckedAtomic(files: Files, w: World, ps: seq<Pair>, w': World, r: Result<(), RenameError>)
    requires w.files == files && forall i | 0 <= i < |ps| :: ps[i].0 in files
    requires |ps| <= 1 || exists p | p in ps :: p.1 in files
    requires var (w2, checked) := CheckSpec(w, ps);
      (w', r) == if checked.Err? then (w2, Err(checked.error)) else MoveSpec(w2, ps, 0)
    ensures r.Err? && !Reported(r.error) ==> w'.files == files
  {
    CheckFinds(w, ps);
    var (w2, checked) := CheckSpec(w, ps);
    if checked.Ok? {
      CheckedDisjoint(files, ps);
      FewMovesAtomic(files, w2, ps, w', r);
    }
  }

  lemma FewCompanionsAtomic(w: World, stub: Path, renamed: Path, exts: seq<Bytes>, ps: seq<Pair>,
                            w': World, r: Result<(), RenameError>)
    requires ps == Companions(w.files, stub, renamed, exts)
    requires (w', r) == RenameCompanions(w, stub, renamed, exts)
    requires |ps| <= 1 || exists p | p in ps :: p.1 in w.files
    ensures r.Err? && !Reported(r.error) ==> w'.files == w.files
  {
    var (w1, scanned) := ScanSpec(w, stub, renamed, exts, []);
    ScanFinds(w, stub, renamed, exts, []);
    assert [] + ps == ps;
    if scanned.Ok? && ps != [] {
      CompanionsPresent(w.files, stub, renamed, exts);
      FewCheckedAtomic(w.files, w1, ps, w', r);
    }
  }

  /** An error without a reported undo failure leaves the files as they were, whatever the
      adversary does, if and only if there is at most one companion to move or some companion's
      destination is taken.  Otherwise the lookup before the second move can fail, and that error
      path undoes nothing. */
  lemma RenameAtomicIff(files: Files, stub: Path, baseLen: nat, newName: Option<Bytes>, exts: seq<Bytes>)
    requires Renamable(stub, baseLen, newName)
    ensures var ps := Companions(files, stub, Destination(stub, baseLen, newName), exts);
      (forall fates :: var (w', r) := RenameSpec(World(files, fates), stub, baseLen, newName, exts); Atomic(files, w', r))
      <==> |ps| <= 1 || exists p | p in ps :: p.1 in files
  {
    var renamed := Destination(stub, baseLen, newName);
    var ps := Companions(files, stub, renamed, exts);
    if |ps| <= 1 || exists p | p in ps :: p.1 in files {
      forall fates
        ensures var (w', r) := RenameSpec(World(files, fates), stub, baseLen, newName, exts); Atomic(files, w', r)
      {
        var (w', r) := RenameCompanions(World(files, fates), stub, renamed, exts);
        FewCompanionsAtomic(World(files, fates), stub, renamed, exts, ps, w', r);
      }
    } else {
      var fates := SucceedThen(|exts|, SucceedThen(|ps|, [Succeeds, Succeeds, Fails(None)]));
      CompanionsPresent(files, stub, renamed, exts);
      assert [] + ps == ps;
      forall i | 0 <= i < |ps|
        ensures ps[i].1 !in files
      {
        assert ps[i] in ps;
      }
      ScanSucceeds(files, stub, renamed, exts, [], SucceedThen(|ps|, [Succeeds, Succeeds, Fails(None)]));
      CheckSucceeds(files, ps, [Succeeds, Succeeds, Fails(None)]);
      SecondLookupFails(files, ps);
      var (w', r) := RenameSpec(World(files, fates), stub, baseLen, newName, exts);
      assert !Atomic(files, w', r);
    }
  }

  // ---- Repeated extensions ----

  /** Two pairs share a source exactly if they share a destination. */
  predicate Paired(ps: seq<Pair>) {
    forall i, j | 0 <= i < |ps| && 0 <= j < |ps| :: ps[i].0 == ps[j].0 <==> ps[i].1 == ps[j].1
  }

  lemma CompanionsPaired(files: Files, stub: Path, renamed: Path, exts: seq<Bytes>)
    ensures Paired(Companions(files, stub, renamed, exts))
  {
    var ps := Companions(files, stub, renamed, exts);
    forall i, j | 0 <= i < |ps| && 0 <= j < |ps|
      ensures ps[i].0 == ps[j].0 <==> ps[i].1 == ps[j].1
    {
      CompanionAt(files, stub, renamed, exts, ps[i]);
      CompanionAt(files, stub, renamed, exts, ps[j]);
      var d :| d in exts && ps[i] == (stub + d, renamed + d);
      var e :| e in exts && ps[j] == (stub + e, renamed + e);
      AppendInjective(stub, d, e);
      AppendInjective(renamed, d, e);
    }
  }

  lemma {:induction false} CompanionsSplit(files: Files, stub: Path, renamed: Path, a: seq<Bytes>, b: seq<Bytes>)
    ensures Companions(files, stub, renamed, a + b)
         == Companions(files, stub, renamed, a) + Companions(files, stub, renamed, b)
  {
    if a == [] {
      assert a + b == b;
    } else {
      assert (a + b)[1..] == a[1..] + b;
      CompanionsSplit(files, stub, renamed, a[1..], b);
      Regroup(if stub + a[0] in files then [(stub + a[0], renamed + a[0])] else [],
              Companions(files, stub, renamed, a[1..]), Companions(files, stub, renamed, b));
    }
  }

  lemma {:induction false} CompanionIn(files: Files, stub: Path, renamed: Path, exts: seq<Bytes>, i: nat)
    requires i < |exts| && stub + exts[i] in files
    ensures (stub + exts[i], renamed + exts[i]) in Companions(files, stub, renamed, exts)
  {
    if i > 0 {
      CompanionIn(files, stub, renamed, exts[1..], i - 1);
    }
  }

  lemma RepeatedPairs(files: Files, stub: Path, renamed: Path, exts: seq<Bytes>, i: nat, j: nat) returns (a: nat, b: nat)
    requires i < j < |exts| && exts[i] == exts[j] && stub + exts[i] in files
    ensures var ps := Companions(files, stub, renamed, exts); a < b < |ps| && ps[a] == ps[b]
  {
    var front, back := exts[..j], exts[j..];
    assert exts == front + back && front[i] == exts[i] && back[0] == exts[j];
    CompanionsSplit(files, stub, renamed, front, back);
    CompanionIn(files, stub, renamed, front, i);
    var first := Companions(files, stub, renamed, front);
    a :| 0 <= a < |first| && first[a] == (stub + exts[i], renamed + exts[i]);
    b := |first|;
  }

  /** With `i` moves made and none refused, a repeated pair stops the loop at a destination that
      an earlier move created. */
  lemma {:induction false} RepeatStops(files: Files, fs: Files, ps: seq<Pair>, i: nat, a: nat, b: nat)
    requires Paired(ps) && forall j | 0 <= j < |ps| :: ps[j].0 in files && ps[j].1 !in files
    requires a < b < |ps| && ps[a] == ps[b] && i <= b && (i == 0 ==> fs == files)
    requires forall j | 0 <= j < i :: ps[j].1 in fs
    requires forall j | 0 <= j < |ps| :: ps[j].1 in fs || ps[j].0 in fs
    ensures var (w', r) := MoveSpec(World(fs, []), ps, i);
      r.Err? && r.error.LateExists? && r.error.moved > 0 && w'.files != files
    decreases |ps| - i
  {
    if ps[i].1 in fs {
      assert ps[0].1 in fs;
    } else {
      var next := MoveOne(fs, ps[i]);
      assert ps[i].0 in fs;
      forall j | 0 <= j < |ps|
        ensures ps[j].1 in next || ps[j].0 in next
        ensures j <= i ==> ps[j].1 in next
      {
        assert ps[j].1 != ps[i].0;
      }
      RepeatStops(files, next, ps, i + 1, a, b);
    }
  }

  /** Distinctness is needed: if an extension that exists is repeated and the destinations are
      free, the rename fails although no operation does, and leaves the moves it made. */
  lemma RepeatedExtensionStrands(files: Files, stub: Path, baseLen: nat, newName: Option<Bytes>, exts: seq<Bytes>)
    requires Renamable(stub, baseLen, newName) && !DistinctPresent(files, stub, exts)
    requires forall p | p in Companions(files, stub, Destination(stub, baseLen, newName), exts) :: p.1 !in files
    ensures var (w', r) := RenameSpec(World(files, []), stub, baseLen, newName, exts);
      r.Err? && r.error.LateExists? && r.error.moved > 0 && w'.files != files
  {
    var renamed := Destination(stub, baseLen, newName);
    var ps := Companions(files, stub, renamed, exts);
    var i, j :| 0 <= i < j < |exts| && stub + exts[i] in files && exts[i] == exts[j];
    var a, b := RepeatedPairs(files, stub, renamed, exts, i, j);
    CompanionsPaired(files, stub, renamed, exts);
    CompanionsPresent(files, stub, renamed, exts);
    forall k | 0 <= k < |ps|
      ensures ps[k].1 !in files
    {
      assert ps[k] in ps;
    }
    NothingRefused(files, stub, renamed, exts);
    RepeatStops(files, files, ps, 0, a, b);
  }

  lemma NothingRefused(files: Files, stub: Path, renamed: Path, exts: seq<Bytes>)
    requires var ps := Companions(files, stub, renamed, exts);
      ps != [] && forall i | 0 <= i < |ps| :: ps[i].1 !in files
    ensures RenameCompanions(World(files, []), stub, renamed, exts)
         == MoveSpec(World(files, []), Companions(files, stub, renamed, exts), 0)
  {
    var ps := Companions(files, stub, renamed, exts);
    ScanUnrefused(files, stub, renamed, exts, []);
    assert [] + ps == ps;
    CheckUnrefused(files, ps);
  }

  lemma {:induction false} ScanUnrefused(files: Files, stub: Path, renamed: Path, exts: seq<Bytes>, pairs: seq<Pair>)
    ensures ScanSpec(World(files, []), stub, renamed, exts, pairs)
         == (World(files, []), Ok(pairs + Companions(files, stub, renamed, exts)))
    decreases |exts|
  {
    assert pairs + [] == pairs;
    if exts != [] {
      var first: seq<Pair> := if stub + exts[0] in files then [(stub + exts[0], renamed + exts[0])] else [];
      ScanUnrefused(files, stub, renamed, exts[1..], pairs + first);
      Regroup(pairs, first, Companions(files, stub, renamed, exts[1..]));
    }
  }

  lemma {:induction false} CheckUnrefused(files: Files, pairs: seq<Pair>)
    requires forall i | 0 <= i < |pairs| :: pairs[i].1 !in files
    ensures CheckSpec(World(files, []), pairs) == (World(files, []), Ok(()))
    decreases |pairs|
  {
    if pairs != [] {
      CheckUnrefused(files, pairs[1..]);
    }
  }

  // ---- Exactly when renaming succeeds ----

  /** The fates left after `n` operations. */
  function Spent(fates: seq<Fate>, n: nat): seq<Fate> {
    if n <= |fates| then fates[n..] else []
  }

  lemma SucceedSplit(fates: seq<Fate>, a: nat, b: nat)
    ensures AllSucceed(fates, a + b) <==> AllSucceed(fates, a) && AllSucceed(Spent(fates, a), b)
  {
    var rest := Spent(fates, a);
    if AllSucceed(fates, a + b) {
      forall k | 0 <= k < b && k < |rest|
        ensures rest[k].Succeeds?
      {
        assert rest[k] == fates[a + k];
      }
    }
    if AllSucceed(fates, a) && AllSucceed(rest, b) {
      forall k | 0 <= k < a + b && k < |fates|
        ensures fates[k].Succeeds?
      {
        assert k >= a ==> fates[k] == rest[k - a];
      }
    }
  }

  lemma SpentLater(w: World, n: nat)
    ensures Spent(w.Later().fates, n) == Spent(w.fates, n + 1)
  {
  }

  lemma {:induction false} ScanOkIff(w: World, stub: Path, renamed: Path, exts: seq<Bytes>, pairs: seq<Pair>)
    ensures var (w', r) := ScanSpec(w, stub, renamed, exts, pairs);
      && (r.Ok? <==> AllSucceed(w.fates, |exts|))
      && (r.Ok? ==> w'.fates == Spent(w.fates, |exts|))
    decreases |exts|
  {
    if exts != [] {
      SucceedLater(w, |exts|);
      SpentLater(w, |exts| - 1);
      var found := ExistsResult(w, stub + exts[0]);
      if found.Ok? {
        ScanOkIff(w.Later(), stub, renamed, exts[1..],
                  if found.value then pairs + [(stub + exts[0], renamed + exts[0])] else pairs);
      }
    }
  }

  lemma {:induction false} CheckOkIff(w: World, ps: seq<Pair>)
    ensures var (w', r) := CheckSpec(w, ps);
      && (r.Ok? <==> AllSucceed(w.fates, |ps|) && forall p | p in ps :: p.1 !in w.files)
      && (r.Ok? ==> w'.fates == Spent(w.fates, |ps|))
    decreases |ps|
  {
    if ps != [] {
      SucceedLater(w, |ps|);
      SpentLater(w, |ps| - 1);
      CheckOkIff(w.Later(), ps[1..]);
      assert ps == [ps[0]] + ps[1..];
    }
  }

  lemma {:induction false} MoveOkIff(files: Files, w: World, ps: seq<Pair>, i: nat)
    requires Disjoint(files, ps) && i <= |ps| && w.files == Moved(files, ps[..i])
    ensures MoveSpec(w, ps, i).1.Ok? <==> AllSucceed(w.fates, 2 * (|ps| - i))
    decreases |ps| - i
  {
    if i < |ps| {
      var n := 2 * (|ps| - i);
      SucceedLater(w, n);
      SucceedLater(w.Later(), n - 1);
      NextMoveReady(files, ps, i);
      if ExistsResult(w, ps[i].1).Ok? && RenameResult(w.Later(), ps[i].0, ps[i].1).1.Ok? {
        MoveOkIff(files, RenameResult(w.Later(), ps[i].0, ps[i].1).0, ps, i + 1);
      }
    }
  }

  lemma CompanionsOkIff(w: World, stub: Path, renamed: Path, exts: seq<Bytes>, ps: seq<Pair>)
    requires DistinctPresent(w.files, stub, exts) && ps == Companions(w.files, stub, renamed, exts)
    ensures RenameCompanions(w, stub, renamed, exts).1.Ok?
      <==> ps != [] && (forall p | p in ps :: p.1 !in w.files) && AllSucceed(w.fates, |exts| + (|ps| + 2 * |ps|))
  {
    ScanFinds(w, stub, renamed, exts, []);
    ScanOkIff(w, stub, renamed, exts, []);
    assert [] + ps == ps;
    SucceedSplit(w.fates, |exts|, |ps| + 2 * |ps|);
    var (w1, scanned) := ScanSpec(w, stub, renamed, exts, []);
    if scanned.Ok? && ps != [] {
      SucceedSplit(w1.fates, |ps|, 2 * |ps|);
      CheckFinds(w1, ps);
      CheckOkIff(w1, ps);
      var (w2, checked) := CheckSpec(w1, ps);
      if checked.Ok? {
        CompanionsDistinct(w.files, stub, renamed, exts);
        CheckedDisjoint(w.files, ps);
        assert Moved(w.files, ps[..0]) == w.files;
        MoveOkIff(w.files, w2, ps, 0);
      }
    }
  }

  /** Nothing is in the way of a rename to `renamed`, and all it does succeeds. */
  predicate Unhindered(w: World, stub: Path, renamed: Path, exts: seq<Bytes>) {
    var ps := Companions(w.files, stub, renamed, exts);
    ps != [] && (forall p | p in ps :: p.1 !in w.files) && AllSucceed(w.fates, |exts| + (|ps| + 2 * |ps|))
  }

  lemma UnhinderedIff(w: World, stub: Path, renamed: Path, exts: seq<Bytes>)
    requires DistinctPresent(w.files, stub, exts)
    ensures RenameCompanions(w, stub, renamed, exts).1.Ok? <==> Unhindered(w, stub, renamed, exts)
  {
    CompanionsOkIff(w, stub, renamed, exts, Companions(w.files, stub, renamed, exts));
  }

  /** A rename succeeds if and only if the name has no separator, the stub splits, some companion
      exists, none of the destinations does, and every lookup, re-check and move succeeds. */
  lemma RenameSucceedsIff(w: World, stub: Path, baseLen: nat, newName: Option<Bytes>, exts: seq<Bytes>)
    requires DistinctPresent(w.files, stub, exts)
    ensures RenameSpec(w, stub, baseLen, newName, exts).1.Ok?
      <==> && SLASH !in newName.UnwrapOr([]) && 0 !in newName.UnwrapOr([])
           && SplitFilename(stub, baseLen).Parts?
           && Unhindered(w, stub, RenamedPath(SplitFilename(stub, baseLen), newName), exts)
  {
    var parts := SplitFilename(stub, baseLen);
    if parts.Parts? {
      UnhinderedIff(w, stub, RenamedPath(parts, newName), exts);
    }
  }

  /** After a success every companion that existed has its contents under the new path and is gone
      under the old one, and every other file is as it was. */
  lemma RenameMovesFiles(w: World, stub: Path, baseLen: nat, newName: Option<Bytes>, exts: seq<Bytes>)
    requires DistinctPresent(w.files, stub, exts)
    ensures var (w', r) := RenameSpec(w, stub, baseLen, newName, exts);
      r.Ok? ==>
        && (forall e | e in exts && stub + e in w.files ::
              stub + e !in w'.files && r.value + e in w'.files && w'.files[r.value + e] == w.files[stub + e])
        && (forall p | p in w.files && (forall e | e in exts :: p != stub + e) :: p in w'.files && w'.files[p] == w.files[p])
        && (forall p | p in w'.files && p !in w.files :: exists e | e in exts :: p == r.value + e && stub + e in w.files)
  {
    var (w', r) := RenameSpec(w, stub, baseLen, newName, exts);
    RenameAllOrNothing(w, stub, baseLen, newName, exts);
    if r.Ok? {
      MovedCompanions(w.files, stub, r.value, exts);
    }
  }

  lemma MovedCompanions(files: Files, stub: Path, renamed: Path, exts: seq<Bytes>)
    requires Disjoint(files, Companions(files, stub, renamed, exts))
    ensures var after := Moved(files, Companions(files, stub, renamed, exts));
      && (forall e | e in exts && stub + e in files ::
            stub + e !in after && renamed + e in after && after[renamed + e] == files[stub + e])
      && (forall p | p in files && (forall e | e in exts :: p != stub + e) :: p in after && after[p] == files[p])
      && (forall p | p in after && p !in files :: exists e | e in exts :: p == renamed + e && stub + e in files)
  {
    var ps := Companions(files, stub, renamed, exts);
    MovedAt(files, ps);
    forall e | e in exts && stub + e in files
      ensures (stub + e, renamed + e) in ps
    {
      var i :| 0 <= i < |exts| && exts[i] == e;
      CompanionIn(files, stub, renamed, exts, i);
    }
    forall i | 0 <= i < |ps|
      ensures exists e | e in exts :: ps[i] == (stub + e, renamed + e) && stub + e in files
    {
      CompanionAt(files, stub, renamed, exts, ps[i]);
    }
  }

  // ---- The operations, step by step ----

  class PersistenceRuntime {
    var w: World

    constructor (world: World)
      ensures w == world
    {
      w := world;
    }

    method Exists(path: Path) returns (r: Result<bool, IoError>)
      modifies this
      ensures r == ExistsResult(old(w), path) && w == old(w).Later()
    {
      r := ExistsResult(w, path);
      w := w.Later();
    }

    method WriteNew(path: Path, bytes: Bytes) returns (r: Result<(), IoError>)
      modifies this
      ensures (w, r) == WriteNewResult(old(w), path, bytes)
    {
      var (next, result) := WriteNewResult(w, path, bytes);
      w, r := next, result;
    }

    method Rename(from: Path, to: Path) returns (r: Result<(), IoError>)
      modifies this
      ensures (w, r) == RenameResult(old(w), from, to)
    {
      var (next, result) := RenameResult(w, from, to);
      w, r := next, result;
    }

    method Remove(path: Path) returns (r: Result<(), IoError>)
      modifies this
      ensures (w, r) == RemoveResult(old(w), path)
    {
      var (next, result) := RemoveResult(w, path);
      w, r := next, result;
    }

    method RollbackFiles(paths: seq<Path>) returns (failures: nat)
      modifies this
      ensures (w, failures) == RollbackFrom(old(w), paths, 0)
    {
      failures := 0;
      for i := 0 to |paths|
        invariant RollbackFrom(w, paths[i..], failures) == RollbackFrom(old(w), paths, 0)
      {
        var r := Remove(paths[i]);
        assert paths[i..][1..] == paths[i + 1..];
        if r.Err? && r.error != NotFound {
          failures := failures + 1;
        }
      }
    }

    /** `saved` is the source's save hash after the call. */
    method SaveLoop(src: Source, library: Path, ext: Bytes) returns (saved: Option<Bytes>, result: SaveResult)
      modifies this
      ensures SaveOutcome(w, saved, result) == SaveLoopSpec(old(w), src, library, ext)
      ensures Clean(result) && PathOf(library, src, XML) !in old(w.files) ==>
        AllOrNothing(old(w.files), src, SaveOutcome(w, saved, result))
    {
      SaveLoopCases(w, src, library, ext);
      saved := src.saved;
      if src.saved.Some? {
        return saved, AlreadySaved;
      }
      var audio, data := PathOf(library, src, ext), PathOf(library, src, XML);
      var found := Exists(audio);
      if found.Err? {
        return saved, LookupFailed;
      }
      if found.value {
        return saved, Collision;
      }
      var wrote := WriteNew(audio, src.audio);
      if wrote.Err? {
        var unremoved := 0;
        if wrote.error != AlreadyExists {
          unremoved := RollbackFiles([audio]);
        }
        return saved, AudioFailed(unremoved);
      }
      wrote := WriteNew(data, src.metadata);
      if wrote.Err? {
        var unremoved := RollbackFiles([data, audio]);
        return saved, MetadataFailed(unremoved);
      }
      return Some(src.hash), Saved(audio, data);
    }

    method EncodeAudioFile(path: Path, bytes: Bytes) returns (r: Result<(), bool>)
      modifies this
      ensures (w, r) == EncodeResult(old(w), path, bytes)
      ensures r.Ok? ==> path !in old(w.files) && w.files == old(w.files)[path := bytes]
      ensures r == Err(true) ==> w.files == old(w.files)
    {
      var before := path in w.files;
      var wrote := WriteNew(path, bytes);
      if wrote.Ok? {
        return Ok(());
      }
      if before || path !in w.files {
        return Err(true);
      }
      var removed := Remove(path);
      return Err(removed.Ok?);
    }

    method SaveLoopEncoded(src: Source, library: Path, codec: Codec)
      returns (saved: Option<Bytes>, result: SaveResult)
      modifies this
      ensures SaveOutcome(w, saved, result) == SaveEncodedSpec(old(w), src, library, codec)
      ensures Clean(result) ==> AllOrNothing(old(w.files), src, SaveOutcome(w, saved, result))
    {
      SaveEncodedAtomic(w, src, library, codec);
      saved := src.saved;
      if src.saved.Some? {
        return saved, AlreadySaved;
      }
      // Creating the library directory adds no file.
      var made := w.Fate();
      w := w.Later();
      if made.Fails? {
        return saved, DirectoryFailed;
      }
      if Extension(codec).None? {
        return saved, BadCodec;
      }
      var audio, data := PathOf(library, src, Extension(codec).value), PathOf(library, src, XML);
      var found := Exists(audio);
      if found.Err? {
        return saved, LookupFailed;
      }
      if found.value {
        return saved, Collision;
      }
      found := Exists(data);
      if found.Err? {
        return saved, LookupFailed;
      }
      if found.value {
        return saved, Collision;
      }
      var encoded := EncodeAudioFile(audio, src.audio);
      if encoded.Err? {
        return saved, EncodeFailed(encoded.error);
      }
      var wrote := WriteNew(data, src.metadata);
      if wrote.Err? {
        var unremoved := RollbackFiles([data, audio]);
        return saved, MetadataFailed(unremoved);
      }
      return Some(src.hash), Saved(audio, data);
    }

    method RenameSaveable(stub: Path, baseLen: nat, newName: Option<Bytes>, exts: seq<Bytes>)
      returns (result: Result<Path, RenameError>)
      modifies this
      ensures (w, result) == RenameSpec(old(w), stub, baseLen, newName, exts)
      ensures result.Ok? ==> Spells(result.value, stub, baseLen, newName.UnwrapOr([]))
    {
      if newName.Some? && !SaveableName(newName.value) {
        return Err(BadName);
      }
      var parts := SplitFilename(stub, baseLen);
      match parts {
        case Invalid => return Err(BadFilename);
        case Panics => return Err(SplitPanicked);
        case Parts(_, _, _) =>
      }
      var renamed := RenamedPath(parts, newName);
      var pairs: seq<Pair> := [];
      for i := 0 to |exts|
        invariant ScanSpec(w, stub, renamed, exts[i..], pairs) == ScanSpec(old(w), stub, renamed, exts, [])
      {
        assert exts[i..][1..] == exts[i + 1..];
        var found := Exists(stub + exts[i]);
        if found.Err? {
          return Err(RenameLookupFailed);
        }
        if found.value {
          pairs := pairs + [(stub + exts[i], renamed + exts[i])];
        }
      }
      if pairs == [] {
        return Err(NothingToRename);
      }
      ghost var scannedWorld := w;
      for i := 0 to |pairs|
        invariant CheckSpec(w, pairs[i..]) == CheckSpec(scannedWorld, pairs)
      {
        assert pairs[i..][1..] == pairs[i + 1..];
        var found := Exists(pairs[i].1);
        if found.Err? {
          return Err(RenameLookupFailed);
        }
        if found.value {
          return Err(DestinationExists);
        }
      }
      ghost var checkedWorld := w;
      for i := 0 to |pairs|
        invariant MoveSpec(w, pairs, i) == MoveSpec(checkedWorld, pairs, 0)
      {
        var found := Exists(pairs[i].1);
        if found.Err? {
          return Err(LateLookupFailed(i));
        }
        if found.value {
          return Err(LateExists(i));
        }
        var renamedOk := Rename(pairs[i].0, pairs[i].1);
        if renamedOk.Err? {
          var unmoved := Undo(pairs[..i]);
          return Err(MoveFailed(unmoved));
        }
      }
      RenameSpells(old(w), stub, baseLen, newName, exts);
      return Ok(renamed);
    }

    method Undo(moved: seq<Pair>) returns (failures: nat)
      modifies this
      ensures (w, failures) == UndoSpec(old(w), moved, 0)
    {
      failures := 0;
      var i := |moved|;
      assert moved[..i] == moved;
      while i > 0
        invariant 0 <= i <= |moved|
        invariant UndoSpec(w, moved[..i], failures) == UndoSpec(old(w), moved, 0)
      {
        i := i - 1;
        assert moved[..i + 1][..i] == moved[..i];
        var r := Rename(moved[i].1, moved[i].0);
        if r.Err? {
          failures := failures + 1;
        }
      }
    }
  }
}
