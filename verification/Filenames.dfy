/** Names of saved files: `<base>-<32 hex digits>[-<name>][<ext>]`, as UTF-8 bytes. */
module Filenames {

  import opened Util
  import opened Wire

  const HASH_LENGTH: nat := 16
  const DASH: Byte := 45
  const DOT: Byte := 46
  const SLASH: Byte := 47

  // ---- Hex digits of a hash ----

  function HexDigit(d: nat): Byte
    requires d < 16
  {
    if d < 10 then 48 + d else 55 + d
  }

  /** `hash_hex_digit`: either case. */
  function DigitValue(b: Byte): Option<nat> {
    if 48 <= b <= 57 then Some(b - 48)
    else if 97 <= b <= 102 then Some(b - 87)
    else if 65 <= b <= 70 then Some(b - 55)
    else None
  }

  const DIGITS := "0123456789ABCDEF"

  /** The digits by their letters: sixteen upper-case ones, each also read in lower case. */
  lemma DigitsAre(d: nat, b: Byte)
    requires d < 16
    ensures HexDigit(d) == DIGITS[d] as int
    ensures DigitValue(b) == Some(d) <==> b == DIGITS[d] as int || (d >= 10 && b == DIGITS[d] as int + 32)
    ensures IsHex(b) ==> DigitValue(b).value < 16
  {
  }

  predicate IsHex(b: Byte) {
    DigitValue(b).Some?
  }

  function Encoded(hash: Bytes): Bytes {
    if hash == [] then [] else Encoded(hash[..|hash| - 1]) + HexPair(hash[|hash| - 1])
  }

  function HexPair(b: Byte): Bytes {
    [HexDigit(b / 16), HexDigit(b % 16)]
  }

  function DecodedPairs(s: Bytes): Option<Bytes>
    requires |s| % 2 == 0
  {
    if s == [] then Some([])
    else
      var init := DecodedPairs(s[..|s| - 2]);
      var high := DigitValue(s[|s| - 2]);
      var low := DigitValue(s[|s| - 1]);
      if init.Some? && high.Some? && low.Some? then PairByte(init.value, high.value, low.value) else None
  }

  function PairByte(init: Bytes, high: nat, low: nat): Option<Bytes> {
    if high < 16 && low < 16 then Some(init + [high * 16 + low]) else None
  }

  function Decoded(s: Bytes): Option<Bytes> {
    if |s| == 2 * HASH_LENGTH then DecodedPairs(s) else None
  }

  method EncodeHash(hash: Bytes) returns (s: Bytes)
    requires |hash| == HASH_LENGTH
    ensures s == Encoded(hash)
  {
    s := [];
    for i := 0 to |hash|
      invariant s == Encoded(hash[..i])
    {
      assert hash[..i + 1][..i] == hash[..i];
      s := s + HexPair(hash[i]);
    }
    assert hash[..|hash|] == hash;
  }

  lemma {:induction false} EncodedAt(hash: Bytes, i: nat)
    requires i < |hash|
    ensures |Encoded(hash)| == 2 * |hash|
    ensures Encoded(hash)[2 * i] == DIGITS[hash[i] / 16] as int && Encoded(hash)[2 * i + 1] == DIGITS[hash[i] % 16] as int
  {
    var init, last := hash[..|hash| - 1], hash[|hash| - 1];
    DigitsAre(last / 16, 0);
    DigitsAre(last % 16, 0);
    if init != [] {
      EncodedAt(init, if i < |init| then i else 0);
    }
  }

  method DecodeHash(s: Bytes) returns (out: Option<Bytes>)
    ensures out == Decoded(s)
  {
    if |s| != 2 * HASH_LENGTH {
      return None;
    }
    var bytes: Bytes := [];
    for i := 0 to HASH_LENGTH
      invariant DecodedPairs(s[..2 * i]) == Some(bytes)
    {
      var high := DigitValue(s[2 * i]);
      var low := DigitValue(s[2 * i + 1]);
      DecodeNext(s, 2 * i);
      if high.None? || low.None? {
        DecodeStops(s, 2 * i + 2);
        return None;
      }
      bytes := bytes + [high.value * 16 + low.value];
    }
    assert s[..2 * HASH_LENGTH] == s;
    out := Some(bytes);
  }

  lemma {:induction false} DecodeStops(s: Bytes, k: nat)
    requires k <= |s| && k % 2 == 0 && |s| % 2 == 0 && DecodedPairs(s[..k]).None?
    ensures DecodedPairs(s).None?
  {
    if k < |s| {
      assert s[..|s| - 2][..k] == s[..k];
      DecodeStops(s[..|s| - 2], k);
    } else {
      assert s[..k] == s;
    }
  }

  lemma DecodeNext(s: Bytes, k: nat)
    requires k + 2 <= |s| && k % 2 == 0
    ensures DecodedPairs(s[..k + 2])
      == (if DecodedPairs(s[..k]).Some? && IsHex(s[k]) && IsHex(s[k + 1])
          then PairByte(DecodedPairs(s[..k]).value, DigitValue(s[k]).value, DigitValue(s[k + 1]).value) else None)
  {
    DecodePairsSnoc(s[..k], s[k], s[k + 1]);
    assert s[..k + 2] == s[..k] + [s[k], s[k + 1]];
  }

  lemma DecodePairsSnoc(init: Bytes, high: Byte, low: Byte)
    requires |init| % 2 == 0
    ensures DecodedPairs(init + [high, low])
      == (if DecodedPairs(init).Some? && IsHex(high) && IsHex(low)
          then PairByte(DecodedPairs(init).value, DigitValue(high).value, DigitValue(low).value) else None)
  {
    assert (init + [high, low])[..|init|] == init;
  }

  lemma PairReadsBack(init: Bytes, b: Byte)
    ensures DigitValue(HexDigit(b / 16)) == Some(b / 16) && DigitValue(HexDigit(b % 16)) == Some(b % 16)
    ensures PairByte(init, b / 16, b % 16) == Some(init + [b])
  {
  }

  lemma {:induction false} DecodeEncodePairs(hash: Bytes)
    ensures |Encoded(hash)| == 2 * |hash| && DecodedPairs(Encoded(hash)) == Some(hash)
  {
    if hash != [] {
      var init, last := hash[..|hash| - 1], hash[|hash| - 1];
      DecodeEncodePairs(init);
      DecodePairsSnoc(Encoded(init), HexDigit(last / 16), HexDigit(last % 16));
      PairReadsBack(init, last);
      assert hash == init + [last];
    }
  }

  /** `decode_hash` inverts `encode_hash`. */
  lemma DecodeEncode(hash: Bytes)
    requires |hash| == HASH_LENGTH
    ensures Decoded(Encoded(hash)) == Some(hash)
  {
    DecodeEncodePairs(hash);
  }

  function UpperByte(b: Byte): Byte {
    if 97 <= b <= 122 then b - 32 else b
  }

  function Upper(s: Bytes): Bytes {
    if s == [] then [] else Upper(s[..|s| - 1]) + [UpperByte(s[|s| - 1])]
  }

  lemma HexPairOfDigits(high: Byte, low: Byte)
    requires IsHex(high) && IsHex(low)
    ensures DigitValue(high).value < 16 && DigitValue(low).value < 16
    ensures HexPair(DigitValue(high).value * 16 + DigitValue(low).value) == [UpperByte(high), UpperByte(low)]
  {
  }

  lemma UpperSnoc(init: Bytes, high: Byte, low: Byte)
    ensures Upper(init + [high, low]) == Upper(init) + [UpperByte(high), UpperByte(low)]
  {
    assert (init + [high, low])[..|init| + 1] == init + [high];
    assert (init + [high])[..|init|] == init;
  }

  lemma {:induction false} EncodeDecodePairs(s: Bytes)
    requires |s| % 2 == 0
    ensures DecodedPairs(s).Some? <==> forall b | b in s :: IsHex(b)
    ensures DecodedPairs(s).Some? ==> Encoded(DecodedPairs(s).value) == Upper(s)
  {
    if s != [] {
      var init, high, low := s[..|s| - 2], s[|s| - 2], s[|s| - 1];
      EncodeDecodePairs(init);
      assert s == init + [high, low];
      DecodePairsSnoc(init, high, low);
      if IsHex(high) && IsHex(low) {
        HexPairOfDigits(high, low);
        if DecodedPairs(init).Some? {
          var bytes := DecodedPairs(init).value;
          var last: Byte := DigitValue(high).value * 16 + DigitValue(low).value;
          assert (bytes + [last])[..|bytes|] == bytes;
          UpperSnoc(init, high, low);
        }
      }
    }
  }

  /** `decode_hash` accepts exactly 32 hex digits of either case, and `encode_hash` after it is
      upper-casing. */
  lemma EncodeDecode(s: Bytes)
    ensures Decoded(s).Some? <==> |s| == 2 * HASH_LENGTH && forall b | b in s :: IsHex(b)
    ensures Decoded(s).Some? ==> Encoded(Decoded(s).value) == Upper(s)
  {
    if |s| == 2 * HASH_LENGTH {
      EncodeDecodePairs(s);
    }
  }

  // ---- Printing and parsing names ----

  predicate IsHash(s: Bytes) {
    Decoded(s).Some?
  }

  function Sanitized(name: Bytes): (s: Bytes)
    ensures |s| == |name| && SLASH !in s && 0 !in s
  {
    if name == [] then []
    else [if name[0] == SLASH || name[0] == 0 then DASH else name[0]] + Sanitized(name[1..])
  }

  /** What the printed file name says about the name: nothing for an absent or empty one. */
  function NamePart(name: Option<Bytes>): Bytes {
    if name.Some? then Sanitized(name.value) else []
  }

  function ExtPart(ext: Option<Bytes>): Bytes {
    if ext.Some? then ext.value else []
  }

  function Stub(base: Bytes, hash: Bytes, name: Option<Bytes>, ext: Option<Bytes>): Bytes {
    base + [DASH] + hash + Tail(NamePart(name), ExtPart(ext))
  }

  function Tail(name: Bytes, ext: Bytes): Bytes {
    (if name == [] then [] else [DASH] + name) + ext
  }

  method SaveableStub(base: Bytes, hash: Bytes, name: Option<Bytes>, ext: Option<Bytes>) returns (s: Bytes)
    ensures s == Stub(base, hash, name, ext)
  {
    s := base + [DASH] + hash;
    if name.Some? && name.value != [] {
      s := s + [DASH];
      for i := 0 to |name.value|
        invariant s == base + [DASH] + hash + ([DASH] + Sanitized(name.value)[..i])
      {
        SanitizedAt(name.value, i);
        s := s + [if name.value[i] == SLASH || name.value[i] == 0 then DASH else name.value[i]];
      }
      assert Sanitized(name.value)[..|name.value|] == Sanitized(name.value);
    }
    s := s + ExtPart(ext);
  }

  lemma {:induction false} SanitizedAt(name: Bytes, i: nat)
    requires i < |name|
    ensures Sanitized(name)[i] == if name[i] == SLASH || name[i] == 0 then DASH else name[i]
  {
    if i > 0 {
      SanitizedAt(name[1..], i - 1);
    }
  }

  /** Where a string slice may be cut: not inside a multi-byte character. */
  predicate Boundary(s: Bytes, i: nat) {
    i <= |s| && (i == 0 || i == |s| || !(0x80 <= s[i] < 0xC0))
  }

  /** By the bits: a byte inside the string can start a character unless its top two are 10. */
  lemma BoundaryIff(s: Bytes, i: nat)
    ensures Boundary(s, i) <==> i == 0 || i == |s| || (i < |s| && s[i] / 64 != 2)
  {
  }

  function FirstIndex(s: Bytes, b: Byte): (i: nat)
    ensures i <= |s| && (i < |s| ==> s[i] == b) && forall k | 0 <= k < i :: s[k] != b
  {
    if s == [] || s[0] == b then 0 else 1 + FirstIndex(s[1..], b)
  }

  function LastIndex(s: Bytes, b: Byte): (i: nat)
    ensures i <= |s| && (i < |s| ==> s[i] == b)
    ensures i == |s| <==> b !in s
    ensures forall k | i < k < |s| :: s[k] != b
  {
    if s == [] then 0
    else if s[|s| - 1] == b then |s| - 1
    else
      var i := LastIndex(s[..|s| - 1], b);
      if i == |s| - 1 then |s| else i
  }

  datatype Split = Parts(base: Bytes, hash: Bytes, name: Bytes) | Invalid | Panics

  /** Where the hash ends: at the first hyphen, else at the last dot, else at the end. */
  function Breaker(s: Bytes): nat {
    if DASH in s then FirstIndex(s, DASH) else LastIndex(s, DOT)
  }

  /** Hash and name from the text after the base and its separator.  Only that text is searched
      for the extension's dot. */
  function ParseRest(rest: Bytes): Option<(Bytes, Bytes)> {
    var dot, breaker := LastIndex(rest, DOT), Breaker(rest);
    if rest == [] || breaker != 2 * HASH_LENGTH || !IsHash(rest[..breaker]) then None
    else Some((rest[..breaker], if breaker < dot then rest[breaker + 1..dot] else []))
  }

  function SplitFilename(filename: Bytes, baseLen: nat): Split {
    var separator := baseLen + 1;
    if !Boundary(filename, separator) then Invalid
    else
      var parsed := ParseRest(filename[separator..]);
      if parsed.None? then Invalid
      else if !Boundary(filename, baseLen) then Panics
      else Parts(filename[..baseLen], parsed.value.0, parsed.value.1)
  }

  /** Which name and extension can be told apart again. */
  predicate Separable(name: Bytes, ext: Bytes) {
    if name != [] then
      (ext == [] && DOT !in name) || (ext != [] && ext[0] == DOT && DOT !in ext[1..])
    else
      || ext == []
      || (ext[0] == DOT && DOT !in ext[1..] && DASH !in ext)
      || (ext[0] == DASH && (|ext| == 1 || (ext[1] == DOT && DOT !in ext[2..])))
  }

  lemma HashHasNoMarks(hash: Bytes)
    requires IsHash(hash)
    ensures |hash| == 2 * HASH_LENGTH && DOT !in hash && DASH !in hash
    ensures forall b | b in hash :: b < 0x80
  {
    EncodeDecode(hash);
  }

  lemma LastIndexIs(s: Bytes, b: Byte, i: nat)
    requires i < |s| && s[i] == b && forall k | i < k < |s| :: s[k] != b
    ensures LastIndex(s, b) == i
  {
  }

  lemma FirstIndexIs(s: Bytes, b: Byte, i: nat)
    requires i < |s| && s[i] == b && forall k | 0 <= k < i :: s[k] != b
    ensures FirstIndex(s, b) == i
  {
  }

  /** The last dot of the part after the base lies in the tail, if anywhere. */
  lemma DotInTail(hash: Bytes, tail: Bytes)
    requires DOT !in hash
    ensures LastIndex(hash + tail, DOT) == |hash| + LastIndex(tail, DOT)
  {
    var s, j := hash + tail, LastIndex(tail, DOT);
    forall k | |hash| <= k < |s| ensures s[k] == tail[k - |hash|] {}
    if DOT in tail {
      LastIndexIs(s, DOT, |hash| + j);
    } else {
      assert DOT !in s;
    }
  }

  lemma DashInTail(hash: Bytes, tail: Bytes)
    requires DASH !in hash && DASH in tail
    ensures DASH in hash + tail && FirstIndex(hash + tail, DASH) == |hash| + FirstIndex(tail, DASH)
  {
    var s, j := hash + tail, FirstIndex(tail, DASH);
    assert j < |tail| && s[|hash| + j] == tail[j];
    forall k | 0 <= k < |hash| + j ensures s[k] != DASH {
      if k < |hash| { assert hash[k] in hash; }
    }
    FirstIndexIs(s, DASH, |hash| + j);
  }

  /** What the parser makes of the text after the hash. */
  function TailName(tail: Bytes): Option<Bytes> {
    var dot := LastIndex(tail, DOT);
    if Breaker(tail) != 0 then None
    else Some(if 0 < dot then tail[1..dot] else [])
  }

  lemma ParseHashTail(hash: Bytes, tail: Bytes)
    requires IsHash(hash)
    ensures ParseRest(hash + tail)
      == (if TailName(tail).Some? then Some((hash, TailName(tail).value)) else None)
  {
    HashHasNoMarks(hash);
    var rest, dot := hash + tail, LastIndex(tail, DOT);
    DotInTail(hash, tail);
    BreakerInTail(hash, tail);
    assert rest[..|hash|] == hash;
    assert 0 < dot ==> rest[|hash| + 1..|hash| + dot] == tail[1..dot];
  }

  lemma BreakerInTail(hash: Bytes, tail: Bytes)
    requires DOT !in hash && DASH !in hash
    ensures Breaker(hash + tail) == |hash| + Breaker(tail)
  {
    DotInTail(hash, tail);
    if DASH in tail {
      DashInTail(hash, tail);
    } else {
      assert DASH !in hash + tail;
    }
  }

  lemma SplitStub(base: Bytes, hash: Bytes, tail: Bytes)
    requires IsHash(hash)
    ensures SplitFilename(base + [DASH] + hash + tail, |base|)
      == (if TailName(tail).Some? then Parts(base, hash, TailName(tail).value) else Invalid)
  {
    var f := base + [DASH] + hash + tail;
    assert f[|base| + 1..] == hash + tail && f[..|base|] == base;
    HashHasNoMarks(hash);
    assert hash[0] in hash && f[|base| + 1] == hash[0] && f[|base|] == DASH;
    ParseHashTail(hash, tail);
  }

  lemma TailNameOfNamed(name: Bytes, ext: Bytes)
    requires name != []
    ensures TailName([DASH] + name + ext) == Some(name) <==> Separable(name, ext)
  {
    var tail := [DASH] + name + ext;
    assert tail[0] == DASH && FirstIndex(tail, DASH) == 0;
    var dot := LastIndex(tail, DOT);
    var cut := 1 + |name|;
    assert tail[1..cut] == name && tail[cut..] == ext;
    forall k | cut <= k < |tail| ensures tail[k] == ext[k - cut] {}
    if Separable(name, ext) {
      if ext == [] {
        assert DOT !in tail;
      } else {
        forall k | cut < k < |tail| ensures tail[k] != DOT { assert tail[k] == ext[1..][k - cut - 1]; }
        LastIndexIs(tail, DOT, cut);
      }
    }
  }

  lemma TailNameOfUnnamed(ext: Bytes)
    ensures TailName(ext) == Some([]) <==> Separable([], ext)
  {
    if ext != [] {
      var dot := LastIndex(ext, DOT);
      if ext[0] == DASH {
        assert FirstIndex(ext, DASH) == 0;
        if |ext| > 1 && ext[1] == DOT {
          forall i | 0 <= i < |ext[2..]| ensures ext[2..][i] == ext[i + 2] {}
        }
      } else if ext[0] == DOT {
        forall i | 0 <= i < |ext[1..]| ensures ext[1..][i] == ext[i + 1] {}
      }
    }
  }

  /** The parser undoes the printer, for every base, hash, name and extension, exactly when name
      and extension are separable: with a name, the extension must be absent and the name free
      of dots, or start with its only dot; without one it must also hold no hyphen, or be a
      lone hyphen in front of such a suffix. */
  lemma SplitUndoesStub(base: Bytes, hash: Bytes, name: Option<Bytes>, ext: Option<Bytes>)
    requires IsHash(hash)
    ensures SplitFilename(Stub(base, hash, name, ext), |base|) == Parts(base, hash, NamePart(name))
      <==> Separable(NamePart(name), ExtPart(ext))
  {
    var n, e := NamePart(name), ExtPart(ext);
    SplitStub(base, hash, Tail(n, e));
    if n == [] {
      assert Tail(n, e) == e;
      TailNameOfUnnamed(e);
    } else {
      assert Tail(n, e) == [DASH] + n + e;
      TailNameOfNamed(n, e);
    }
  }

  /** A hash and what the parser accepts after one. */
  predicate HashThenTail(rest: Bytes) {
    && |rest| >= 2 * HASH_LENGTH && IsHash(rest[..2 * HASH_LENGTH])
    && TailName(rest[2 * HASH_LENGTH..]).Some?
  }

  lemma ParsesIff(rest: Bytes)
    ensures ParseRest(rest).Some? <==> HashThenTail(rest)
  {
    if |rest| >= 2 * HASH_LENGTH && IsHash(rest[..2 * HASH_LENGTH]) {
      var hash, tail := rest[..2 * HASH_LENGTH], rest[2 * HASH_LENGTH..];
      assert hash + tail == rest;
      ParseHashTail(hash, tail);
    }
  }

  /** `split_filename` slices inside a character if and only if the base length lies in one, the
      byte after it starts the next, and that is where a hash and a tail begin. */
  lemma SplitPanicsIff(filename: Bytes, baseLen: nat)
    ensures SplitFilename(filename, baseLen).Panics?
      <==> !Boundary(filename, baseLen) && Boundary(filename, baseLen + 1) && HashThenTail(filename[baseLen + 1..])
  {
    if Boundary(filename, baseLen + 1) {
      ParsesIff(filename[baseLen + 1..]);
    }
  }

  /** So it never does when the base length is a character boundary, as it is whenever the byte
      there is ASCII. */
  lemma SplitNeverPanicsAtBoundary(filename: Bytes, baseLen: nat)
    requires Boundary(filename, baseLen) || baseLen >= |filename| || filename[baseLen] < 0x80
    ensures !SplitFilename(filename, baseLen).Panics?
  {
    SplitPanicsIff(filename, baseLen);
  }

  /** Otherwise it can: here the base length ends inside a two-byte character that the checked
      index `baseLen + 1` steps over. */
  lemma SplitCanPanic(hash: Bytes)
    requires IsHash(hash)
    ensures SplitFilename([0xC3, 0xA9] + hash, 1) == Panics
  {
    HashHasNoMarks(hash);
    var f := [0xC3, 0xA9] + hash;
    assert hash[0] in hash && f[2] == hash[0];
    assert f[2..] == hash + [];
    ParseHashTail(hash, []);
  }

  // ---- The printed name by its bytes ----

  lemma {:induction false} SanitizedKeeps(name: Bytes)
    requires SLASH !in name && 0 !in name
    ensures Sanitized(name) == name
  {
    if name != [] {
      SanitizedKeeps(name[1..]);
    }
  }

  /** A name free of separators is printed as it is, after a hyphen, and an absent or empty one not
      at all. */
  lemma StubSpellsName(base: Bytes, hash: Bytes, name: Bytes, ext: Bytes)
    requires SLASH !in name && 0 !in name
    ensures name != [] ==> Stub(base, hash, Some(name), Some(ext)) == base + [DASH] + hash + [DASH] + name + ext
    ensures name == [] ==> Stub(base, hash, Some(name), Some(ext)) == base + [DASH] + hash + ext
    ensures Stub(base, hash, None, Some(ext)) == base + [DASH] + hash + ext
    ensures Stub(base, hash, Some(name), None) == Stub(base, hash, Some(name), Some([]))
    ensures Stub(base, hash, None, None) == Stub(base, hash, None, Some([]))
  {
    SanitizedKeeps(name);
    assert [] + ext == ext;
    if name != [] {
      Regroup([DASH], name, ext);
      assert base + [DASH] + hash + ([DASH] + name + ext) == base + [DASH] + hash + [DASH] + name + ext;
    }
  }

  /** Such a name without a dot is read back from a file name printed without an extension. */
  lemma NameReadsBackIff(base: Bytes, hash: Bytes, name: Bytes)
    requires IsHash(hash) && SLASH !in name && 0 !in name
    ensures SplitFilename(Stub(base, hash, Some(name), None), |base|) == Parts(base, hash, name) <==> DOT !in name
    ensures SplitFilename(Stub(base, hash, None, None), |base|) == Parts(base, hash, [])
  {
    SanitizedKeeps(name);
    SplitUndoesStub(base, hash, Some(name), None);
    SplitUndoesStub(base, hash, None, None);
  }

  /** The parser cuts the base at the length given and the hash from the 32 bytes after the
      separator. */
  lemma PartsAreCut(filename: Bytes, baseLen: nat)
    requires SplitFilename(filename, baseLen).Parts?
    ensures var p, end := SplitFilename(filename, baseLen), baseLen + 1 + 2 * HASH_LENGTH;
      && end <= |filename| && p.base == filename[..baseLen] && p.hash == filename[baseLen + 1..end]
      && |p.base| == baseLen && IsHash(p.hash)
  {
    var rest := filename[baseLen + 1..];
    assert rest[..2 * HASH_LENGTH] == filename[baseLen + 1..baseLen + 1 + 2 * HASH_LENGTH];
  }

  // ---- Facts used by the file operations ----

  lemma StubInjectiveInExt(base: Bytes, hash: Bytes, name: Option<Bytes>, e1: Bytes, e2: Bytes)
    requires e1 != e2
    ensures Stub(base, hash, name, Some(e1)) != Stub(base, hash, name, Some(e2))
  {
    var front := base + [DASH] + hash + (if NamePart(name) == [] then [] else [DASH] + NamePart(name));
    assert Stub(base, hash, name, Some(e1)) == front + e1;
    assert Stub(base, hash, name, Some(e2)) == front + e2;
    AppendInjective(front, e1, e2);
  }

  lemma AppendInjective(front: Bytes, e1: Bytes, e2: Bytes)
    ensures front + e1 == front + e2 ==> e1 == e2
  {
    assert (front + e1)[|front|..] == e1 && (front + e2)[|front|..] == e2;
  }
}
