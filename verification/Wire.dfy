/** Bytes and 32-bit words in both byte orders. */
module Wire {

  type Byte = b: int | 0 <= b < 256
  type Bytes = seq<Byte>

  const TWO_32: int := 0x1_0000_0000

  type Word = w: int | 0 <= w < 0x1_0000_0000

  /** Little-endian value of any number of bytes. */
  function FromLe(b: Bytes): nat {
    if b == [] then 0 else b[0] + 256 * FromLe(b[1..])
  }

  /** Big-endian value of any number of bytes. */
  function FromBe(b: Bytes): nat {
    if b == [] then 0 else 256 * FromBe(b[..|b| - 1]) + b[|b| - 1]
  }

  function ToLe(w: nat, n: nat): (b: Bytes)
    ensures |b| == n
  {
    if n == 0 then [] else [w % 256] + ToLe(w / 256, n - 1)
  }

  function ToBe(w: nat, n: nat): (b: Bytes)
    ensures |b| == n
  {
    if n == 0 then [] else ToBe(w / 256, n - 1) + [w % 256]
  }

  function Pow256(n: nat): nat {
    if n == 0 then 1 else 256 * Pow256(n - 1)
  }

  lemma {:induction false} LeRoundTrip(w: nat, n: nat)
    requires w < Pow256(n)
    ensures FromLe(ToLe(w, n)) == w
  {
    if n > 0 {
      LeRoundTrip(w / 256, n - 1);
      assert ToLe(w, n)[1..] == ToLe(w / 256, n - 1);
    }
  }

  lemma {:induction false} BeRoundTrip(w: nat, n: nat)
    requires w < Pow256(n)
    ensures FromBe(ToBe(w, n)) == w
  {
    if n > 0 {
      BeRoundTrip(w / 256, n - 1);
      assert ToBe(w, n)[..n - 1] == ToBe(w / 256, n - 1);
    }
  }

  lemma {:induction false} LeBounded(b: Bytes)
    ensures FromLe(b) < Pow256(|b|)
  {
    if b != [] {
      LeBounded(b[1..]);
    }
  }

  lemma {:induction false} BeBounded(b: Bytes)
    ensures FromBe(b) < Pow256(|b|)
  {
    if b != [] {
      BeBounded(b[..|b| - 1]);
    }
  }

  lemma Pow4()
    ensures Pow256(4) == TWO_32
  {
    assert Pow256(1) == 256 && Pow256(2) == 65536;
    assert Pow256(3) == 16777216;
  }

  function Le32(w: Word): (b: Bytes)
    ensures |b| == 4
  {
    ToLe(w, 4)
  }

  function Be32(w: Word): (b: Bytes)
    ensures |b| == 4
  {
    ToBe(w, 4)
  }

  function UnLe32(b: Bytes): Word
    requires |b| == 4
  {
    b[0] as int + 256 * (b[1] as int) + 65536 * (b[2] as int) + 16777216 * (b[3] as int)
  }

  function UnBe32(b: Bytes): Word
    requires |b| == 4
  {
    b[3] as int + 256 * (b[2] as int) + 65536 * (b[1] as int) + 16777216 * (b[0] as int)
  }

  lemma UnLe32IsFromLe(b: Bytes)
    requires |b| == 4
    ensures UnLe32(b) == FromLe(b)
  {
    var b1, b2, b3 := b[1..], b[2..], b[3..];
    assert b3[1..] == [] && b2[1..] == b3 && b1[1..] == b2;
    assert FromLe(b3) == b[3] as int;
    assert FromLe(b2) == b[2] as int + 256 * FromLe(b3);
    assert FromLe(b1) == b[1] as int + 256 * FromLe(b2);
  }

  lemma UnBe32IsFromBe(b: Bytes)
    requires |b| == 4
    ensures UnBe32(b) == FromBe(b)
  {
    var b1, b2, b3 := b[..3], b[..2], b[..1];
    assert b3[..0] == [] && b2[..1] == b3 && b1[..2] == b2;
    assert FromBe(b3) == b[0] as int;
    assert FromBe(b2) == 256 * FromBe(b3) + b[1] as int;
    assert FromBe(b1) == 256 * FromBe(b2) + b[2] as int;
  }

  lemma WordRoundTrip(w: Word)
    ensures UnLe32(Le32(w)) == w && UnBe32(Be32(w)) == w
  {
    Pow4();
    LeRoundTrip(w, 4);
    BeRoundTrip(w, 4);
    UnLe32IsFromLe(Le32(w));
    UnBe32IsFromBe(Be32(w));
  }

  /** A sequence of words, each little-endian. */
  function LeWords(ws: seq<Word>): Bytes {
    if ws == [] then [] else LeWords(ws[..|ws| - 1]) + Le32(ws[|ws| - 1])
  }

  function UnLeWords(b: Bytes): (ws: seq<Word>)
    ensures |ws| == |b| / 4
  {
    seq(|b| / 4, i requires 0 <= i < |b| / 4 => UnLe32(b[4 * i..4 * i + 4]))
  }

  lemma {:induction false} LeWordsAt(ws: seq<Word>, i: nat)
    requires i < |ws|
    ensures |LeWords(ws)| == 4 * |ws| && LeWords(ws)[4 * i..4 * i + 4] == Le32(ws[i])
  {
    var init := ws[..|ws| - 1];
    if i < |init| {
      LeWordsAt(init, i);
      assert LeWords(ws)[4 * i..4 * i + 4] == LeWords(init)[4 * i..4 * i + 4];
    } else if i > 0 {
      LeWordsAt(init, 0);
    }
  }

  lemma WordsRoundTrip(ws: seq<Word>)
    ensures |LeWords(ws)| == 4 * |ws| && UnLeWords(LeWords(ws)) == ws
  {
    forall i | 0 <= i < |ws|
      ensures |LeWords(ws)| == 4 * |ws| && UnLe32(LeWords(ws)[4 * i..4 * i + 4]) == ws[i]
    {
      LeWordsAt(ws, i);
      WordRoundTrip(ws[i]);
    }
    if ws != [] {
      LeWordsAt(ws, 0);
    }
  }

  /** A sequence of words, each big-endian. */
  function BeWords(ws: seq<Word>): (b: Bytes)
    ensures |b| == 4 * |ws|
  {
    if ws == [] then [] else BeWords(ws[..|ws| - 1]) + Be32(ws[|ws| - 1])
  }

  lemma BeWordsSnoc(ws: seq<Word>, w: Word)
    ensures BeWords(ws + [w]) == BeWords(ws) + Be32(w)
  {
    assert (ws + [w])[..|ws|] == ws;
  }

  lemma {:induction false} BeWordsAt(ws: seq<Word>, i: nat)
    requires i < |ws|
    ensures BeWords(ws)[4 * i..4 * i + 4] == Be32(ws[i])
  {
    var init := ws[..|ws| - 1];
    if i < |init| {
      BeWordsAt(init, i);
      assert BeWords(ws)[4 * i..4 * i + 4] == BeWords(init)[4 * i..4 * i + 4];
    }
  }
}
