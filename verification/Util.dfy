/** Small shared vocabulary: optional values, results and a few facts about sequences. */
module Util {

  datatype Option<+T> = None | Some(value: T)
  {
    function UnwrapOr(otherwise: T): T {
      if Some? then value else otherwise
    }
  }

  datatype Result<+T, +E> = Ok(value: T) | Err(error: E)

  // ---- Integer widths ----

  const MAX_U32: nat := 0xFFFF_FFFF
  const MAX_U64: nat := 0xFFFF_FFFF_FFFF_FFFF
  const MAX_I32: int := 0x7FFF_FFFF
  const MIN_I32: int := -0x8000_0000
  const MAX_I64: int := 0x7FFF_FFFF_FFFF_FFFF

  type I32 = i: int | -0x8000_0000 <= i <= 0x7FFF_FFFF
  type I64 = i: int | -0x8000_0000_0000_0000 <= i <= 0x7FFF_FFFF_FFFF_FFFF

  /** The low 32 bits, read as a signed number. */
  function WrapI32(n: int): I32 {
    if MIN_I32 <= n <= MAX_I32 then n
    else
      var m := n % 0x1_0000_0000;
      if m > MAX_I32 then m - 0x1_0000_0000 else m
  }

  // ---- Numbers and sequences ----

  function Min(a: int, b: int): int {
    if a <= b then a else b
  }

  function Max(a: int, b: int): int {
    if a >= b then a else b
  }

  function Clamp(x: int, lo: int, hi: int): int {
    if x < lo then lo else if x > hi then hi else x
  }

  function Total(ns: seq<nat>): nat {
    if ns == [] then 0 else ns[0] + Total(ns[1..])
  }

  /** All the pieces of a sequence of sequences, in order. */
  function Concat<T>(s: seq<seq<T>>): seq<T> {
    if s == [] then [] else s[0] + Concat(s[1..])
  }

  lemma {:induction false} ConcatAppend<T>(a: seq<seq<T>>, b: seq<seq<T>>)
    ensures Concat(a + b) == Concat(a) + Concat(b)
  {
    if a == [] {
      assert a + b == b;
    } else {
      assert (a + b)[1..] == a[1..] + b;
      ConcatAppend(a[1..], b);
    }
  }

  lemma ConcatSnoc<T>(a: seq<seq<T>>, x: seq<T>)
    ensures Concat(a + [x]) == Concat(a) + x
  {
    ConcatAppend(a, [x]);
    assert Concat([x]) == x + Concat<T>([]);
  }

  lemma Regroup<T>(a: seq<T>, b: seq<T>, c: seq<T>)
    ensures (a + b) + c == a + (b + c)
  {
  }

  // ---- Division ----

  lemma MulMonotone(i: nat, j: nat, m: nat)
    requires i <= j
    ensures i * m <= j * m
  {
    assert j * m == i * m + (j - i) * m;
  }

  lemma DivModSplit(a: nat, b: nat)
    requires b > 0
    ensures a / b * b <= a < a / b * b + b && a / b * b + a % b == a
  {
  }

  lemma DivModUnique(x: int, q: int, r: int, m: nat)
    requires m > 0 && 0 <= r < m && x == q * m + r
    ensures x / m == q && x % m == r
  {
    var q', r' := x / m, x % m;
    assert x == q' * m + r';
    assert (q - q') * m == r' - r && (q' - q) * m == r - r';
    if q > q' {
      MulMonotone(1, q - q', m);
    } else if q < q' {
      MulMonotone(1, q' - q, m);
    }
  }

  lemma ModOfMultiple(q: int, m: nat)
    requires m > 0
    ensures (q * m) % m == 0 && (q * m) / m == q
  {
    DivModUnique(q * m, q, 0, m);
  }
}
