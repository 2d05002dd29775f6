/** Binding expressions: splitting them into tokens and evaluating them. */
module Expressions {

  import opened Util

  // ---- Splitting ----

  predicate IsOperator(ch: char) {
    ch == '/' || ch == '*' || ch == '+' || ch == '-'
  }

  lemma OperatorsAre(ch: char)
    ensures IsOperator(ch) <==> ch in "/*+-"
  {
    assert "/*+-"[0] == '/' && "/*+-"[1] == '*' && "/*+-"[2] == '+' && "/*+-"[3] == '-';
  }

  datatype Piece = Piece(op: char, text: string)

  /** A first character is never an operator. */
  predicate OperatorAt(s: string, i: nat) {
    0 < i < |s| && IsOperator(s[i])
  }

  function OperatorIndices(s: string, from: nat): seq<nat>
    decreases |s| - from
  {
    if from >= |s| then []
    else (if OperatorAt(s, from) then [from] else []) + OperatorIndices(s, from + 1)
  }

  predicate Plain(text: string) {
    forall i | 0 <= i < |text| :: !IsOperator(text[i])
  }

  predicate PlainStart(text: string) {
    forall i | 0 < i < |text| :: !IsOperator(text[i])
  }

  /** The pieces put back together. */
  function Joined(start: string, pieces: seq<Piece>): string {
    if pieces == [] then start
    else
      var last := pieces[|pieces| - 1];
      Joined(start, pieces[..|pieces| - 1]) + ([last.op] + last.text)
  }

  /** Every operator but a leading one separates, and only operators do. */
  predicate Clean(start: string, pieces: seq<Piece>) {
    && PlainStart(start) && (pieces != [] ==> start != "")
    && forall i | 0 <= i < |pieces| :: IsOperator(pieces[i].op) && Plain(pieces[i].text)
  }

  /** The operators of a string from `from` on are at these indices and nowhere else. */
  predicate AreOperators(s: string, from: nat, at: seq<nat>) {
    && (forall k | 0 <= k < |at| :: from <= at[k] && OperatorAt(s, at[k]))
    && (forall j, k | 0 <= j < k < |at| :: at[j] < at[k])
    && (forall i | from <= i < |s| && OperatorAt(s, i) :: i in at)
  }

  lemma {:induction false} OperatorIndicesAreOperators(s: string, from: nat)
    ensures AreOperators(s, from, OperatorIndices(s, from))
    decreases |s| - from
  {
    if from < |s| {
      OperatorIndicesAreOperators(s, from + 1);
      AreOperatorsFront(s, from, OperatorIndices(s, from + 1));
    }
  }

  lemma AreOperatorsFront(s: string, from: nat, at: seq<nat>)
    requires from < |s| && AreOperators(s, from + 1, at)
    ensures AreOperators(s, from, (if OperatorAt(s, from) then [from] else []) + at)
  {
    if OperatorAt(s, from) {
      OperatorsCons(s, from, at);
    } else {
      assert [] + at == at;
    }
  }

  lemma OperatorsCons(s: string, from: nat, at: seq<nat>)
    requires OperatorAt(s, from) && AreOperators(s, from + 1, at)
    ensures AreOperators(s, from, [from] + at)
  {
    var all := [from] + at;
    assert forall k | 0 < k < |all| :: all[k] == at[k - 1];
    forall i | from <= i < |s| && OperatorAt(s, i)
      ensures i in all
    {
      assert i > from ==> i in at;
    }
  }

  lemma JoinedSnoc(start: string, pieces: seq<Piece>, p: Piece)
    ensures Joined(start, pieces + [p]) == Joined(start, pieces) + ([p.op] + p.text)
  {
    assert (pieces + [p])[..|pieces|] == pieces;
  }

  /** No operator between two neighbouring operator indices. */
  lemma PlainBetween(s: string, at: seq<nat>, k: nat, end: nat)
    requires AreOperators(s, 0, at) && k < |at| && end == (if k + 1 < |at| then at[k + 1] else |s|)
    ensures at[k] < end <= |s| && IsOperator(s[at[k]]) && Plain(s[at[k] + 1..end])
    ensures k + 1 < |at| ==> end < |s| && IsOperator(s[end])
  {
    assert OperatorAt(s, at[k]);
    if k + 1 < |at| {
      assert OperatorAt(s, at[k + 1]);
    }
    forall i | at[k] + 1 <= i < end
      ensures !IsOperator(s[i])
    {
      assert forall j | 0 <= j < |at| :: at[j] != i;
      assert i !in at ==> !OperatorAt(s, i);
    }
  }

  lemma PlainBefore(s: string, at: seq<nat>, end: nat)
    requires AreOperators(s, 0, at) && end == (if at == [] then |s| else at[0])
    ensures end <= |s| && PlainStart(s[..end]) && (at != [] ==> 0 < end < |s| && IsOperator(s[end]))
  {
    if at != [] {
      assert OperatorAt(s, at[0]);
    }
    forall i | 0 < i < end
      ensures !IsOperator(s[i])
    {
      assert forall j | 0 <= j < |at| :: at[j] != i;
      assert i !in at ==> !OperatorAt(s, i);
    }
  }

  predicate Splits(s: string, start: string, pieces: seq<Piece>) {
    Clean(start, pieces) && Joined(start, pieces) == s
  }

  /** The clean split that puts back together; `SplitUnique` shows that there is no other. */
  method Split(s: string) returns (start: string, pieces: seq<Piece>)
    ensures Splits(s, start, pieces)
  {
    var at := OperatorIndices(s, 0);
    FirstPiece(s, at);
    if at == [] {
      return s, [];
    }
    start, pieces := s[..at[0]], [];
    var prev := at[0];
    for k := 1 to |at|
      invariant prev == at[k - 1] && prev < |s|
      invariant start != "" && Splits(s[..prev], start, pieces)
    {
      NextPiece(s, at, k, at[k], start, pieces);
      pieces := pieces + [Piece(s[prev], s[prev + 1..at[k]])];
      prev := at[k];
    }
    NextPiece(s, at, |at|, |s|, start, pieces);
    pieces := pieces + [Piece(s[prev], s[prev + 1..|s|])];
    assert s[..|s|] == s;
  }

  lemma BeforeOperators(s: string, at: seq<nat>, end: nat)
    requires at == OperatorIndices(s, 0) && end == (if at == [] then |s| else at[0])
    ensures end <= |s| && PlainStart(s[..end]) && (at != [] ==> 0 < end < |s| && IsOperator(s[end]))
  {
    OperatorIndicesAreOperators(s, 0);
    PlainBefore(s, at, end);
  }

  lemma FirstPiece(s: string, at: seq<nat>)
    requires at == OperatorIndices(s, 0)
    ensures at == [] ==> Splits(s, s, [])
    ensures at != [] ==> 0 < at[0] < |s| && IsOperator(s[at[0]]) && Splits(s[..at[0]], s[..at[0]], [])
  {
    BeforeOperators(s, at, if at == [] then |s| else at[0]);
    assert s[..|s|] == s;
  }

  lemma {:induction false} BetweenOperators(s: string, at: seq<nat>, k: nat, end: nat)
    requires at == OperatorIndices(s, 0) && 0 < k <= |at| && end == (if k < |at| then at[k] else |s|)
    ensures at[k - 1] < |s| && IsOperator(s[at[k - 1]]) && at[k - 1] < end <= |s| && Plain(s[at[k - 1] + 1..end])
    ensures k < |at| ==> end < |s| && IsOperator(s[end])
  {
    OperatorIndicesAreOperators(s, 0);
    PlainBetween(s, at, k - 1, end);
  }

  /** The piece from one operator to the next, or to the end. */
  lemma NextPiece(s: string, at: seq<nat>, k: nat, end: nat, start: string, pieces: seq<Piece>)
    requires at == OperatorIndices(s, 0) && 0 < k <= |at| && end == (if k < |at| then at[k] else |s|)
    requires at[k - 1] < |s| && Splits(s[..at[k - 1]], start, pieces) && start != ""
    ensures at[k - 1] < end <= |s| && (k < |at| ==> end < |s|)
    ensures Splits(s[..end], start, pieces + [Piece(s[at[k - 1]], s[at[k - 1] + 1..end])])
  {
    BetweenOperators(s, at, k, end);
    OnePiece(s, start, pieces, at[k - 1], end);
  }

  lemma OnePiece(s: string, start: string, pieces: seq<Piece>, prev: nat, end: nat)
    requires prev < end <= |s| && IsOperator(s[prev]) && Plain(s[prev + 1..end])
    requires Splits(s[..prev], start, pieces) && start != ""
    ensures Splits(s[..end], start, pieces + [Piece(s[prev], s[prev + 1..end])])
  {
    var p := Piece(s[prev], s[prev + 1..end]);
    JoinedSnoc(start, pieces, p);
    assert s[..end] == s[..prev] + ([s[prev]] + s[prev + 1..end]);
  }

  lemma TailPlain(a: string, op: char, text: string)
    requires Plain(text)
    ensures forall i | |a| < i < |a + ([op] + text)| :: !IsOperator((a + ([op] + text))[i])
  {
    forall i | |a| < i < |a + ([op] + text)|
      ensures !IsOperator((a + ([op] + text))[i])
    {
      assert (a + ([op] + text))[i] == text[i - |a| - 1];
    }
  }

  /** Where the last piece of a clean split begins is the last operator of the string. */
  lemma LastOperator(a: string, op: char, text: string, b: string, op': char, text': string)
    requires a != "" && b != "" && IsOperator(op) && IsOperator(op') && Plain(text) && Plain(text')
    requires a + ([op] + text) == b + ([op'] + text')
    ensures a == b && op == op' && text == text'
  {
    var s := a + ([op] + text);
    TailPlain(a, op, text);
    TailPlain(b, op', text');
    assert s[|a|] == op && s[|b|] == op';
    assert |a| == |b|;
    assert a == s[..|a|] && b == s[..|a|];
    assert text == s[|a| + 1..] && text' == s[|a| + 1..];
  }

  lemma JoinedNotEmpty(start: string, pieces: seq<Piece>)
    requires start != ""
    ensures Joined(start, pieces) != ""
  {
  }

  lemma {:induction false} SplitUnique(start: string, pieces: seq<Piece>, start': string, pieces': seq<Piece>)
    requires Clean(start, pieces) && Clean(start', pieces') && Joined(start, pieces) == Joined(start', pieces')
    ensures start == start' && pieces == pieces'
    decreases |pieces|
  {
    if pieces == [] && pieces' == [] {
    } else if pieces == [] {
      LastIsSeparator(start', pieces');
    } else if pieces' == [] {
      LastIsSeparator(start, pieces);
    } else {
      var init, last := pieces[..|pieces| - 1], pieces[|pieces| - 1];
      var init', last' := pieces'[..|pieces'| - 1], pieces'[|pieces'| - 1];
      JoinedNotEmpty(start, init);
      JoinedNotEmpty(start', init');
      LastOperator(Joined(start, init), last.op, last.text, Joined(start', init'), last'.op, last'.text);
      SplitUnique(start, init, start', init');
      assert pieces == init + [last] && pieces' == init' + [last'];
    }
  }

  /** A joined split with pieces has an operator past its first character. */
  lemma LastIsSeparator(start: string, pieces: seq<Piece>)
    requires Clean(start, pieces) && pieces != []
    ensures !PlainStart(Joined(start, pieces))
  {
    var last := pieces[|pieces| - 1];
    var before := Joined(start, pieces[..|pieces| - 1]);
    JoinedNotEmpty(start, pieces[..|pieces| - 1]);
    assert Joined(start, pieces)[|before|] == last.op;
  }

  // ---- Values ----

  /** A float is its bits.  A value of any other kind reads as `Invalid`. */
  datatype Value = Invalid | Char(c: I32) | Int(i: I32) | Long(l: I64) | Float(bits: nat) | Range(lo: I32, hi: I32)

  /** What the machine's floats do: arithmetic on the float readings of two values, truncation to
      an integer, and the tolerant comparison of two float readings. */
  datatype Floats = Floats(
    arith: (char, Value, Value) -> nat,
    truncate: nat -> I32,
    near: (Value, Value) -> bool)

  function AsI32(fl: Floats, v: Value): I32 {
    match v
    case Char(c) => c
    case Int(i) => i
    case Long(l) => WrapI32(l)
    case Float(bits) => fl.truncate(bits)
    case _ => 0
  }

  /** The integer reading in a comparison that involves a long. */
  function AsI64(v: Value): I64 {
    match v
    case Char(c) => c
    case Int(i) => i
    case Long(l) => l
    case _ => 0
  }

  function Saturated(n: int): I32 {
    Clamp(n, MIN_I32, MAX_I32)
  }

  function TruncDiv(a: int, b: int): int
    requires b != 0
  {
    if a >= 0 then (if b > 0 then a / b else -(a / -b))
    else if b > 0 then -(-a / b) else -a / -b
  }

  /** The quotient towards zero: what is left is smaller than the divisor and has the dividend's
      sign. */
  lemma TruncDivLeaves(a: int, b: int)
    requires b != 0
    ensures var rest := a - TruncDiv(a, b) * b;
      && (if b > 0 then -b < rest < b else b < rest < -b)
      && (a >= 0 ==> rest >= 0) && (a <= 0 ==> rest <= 0)
  {
    var m, n: int := if a >= 0 then a else -a, if b > 0 then b else -b;
    DivModSplit(m, n);
    var q: int := m / n;
    assert TruncDiv(a, b) == if (a >= 0) == (b > 0) then q else -q;
    assert (-q) * (-n) == q * n && (-q) * n == -(q * n) && q * (-n) == -(q * n);
  }

  lemma TruncDivInRange(a: I32, b: I32)
    requires b != 0
    ensures MIN_I32 <= TruncDiv(a, b) <= MAX_I32 <==> !(a == MIN_I32 && b == -1)
  {
    var m: nat := if a >= 0 then a as int else -(a as int);
    var n: nat := if b > 0 then b as int else -(b as int);
    QuotientShrinks(m, n);
  }

  lemma QuotientShrinks(m: nat, n: nat)
    requires n > 0
    ensures 0 <= m / n <= m
    ensures n >= 2 ==> 2 * (m / n) <= m
    ensures n == 1 ==> m / n == m
  {
    DivModSplit(m, n);
    MulMonotone(1, n, m / n);
    if n >= 2 {
      MulMonotone(2, n, m / n);
    }
  }

  /** `None` is an abort: the one division whose quotient does not fit. */
  function Apply(fl: Floats, left: Value, right: Value, op: char): Option<Value> {
    if left.Float? || right.Float? then Some(Float(fl.arith(op, left, right)))
    else
      var l, r := AsI32(fl, left), AsI32(fl, right);
      if op == '/' && r != 0 then
        TruncDivInRange(l, r);
        if l == MIN_I32 && r == -1 then None else Some(Int(TruncDiv(l, r)))
      else if op == '*' then Some(Int(Saturated(l * r)))
      else if op == '+' then Some(Int(Saturated(l + r)))
      else if op == '-' then Some(Int(Saturated(l - r)))
      else Some(Int(l))
  }

  /** An integer operation gives the exact result when that fits, aborts on the one quotient that
      does not, and otherwise saturates; a zero divisor leaves the left operand. */
  lemma ApplyIsExactOrSaturates(fl: Floats, left: Value, right: Value, op: char)
    requires !left.Float? && !right.Float? && IsOperator(op)
    ensures var l, r := AsI32(fl, left), AsI32(fl, right);
      var exact := if op == '*' then l * r else if op == '+' then l + r else if op == '-' then l - r
                   else if r == 0 then l else TruncDiv(l, r);
      && (Apply(fl, left, right, op) == None <==> op == '/' && !(MIN_I32 <= exact <= MAX_I32))
      && (MIN_I32 <= exact <= MAX_I32 ==> Apply(fl, left, right, op) == Some(Int(exact)))
      && (op != '/' && exact > MAX_I32 ==> Apply(fl, left, right, op) == Some(Int(MAX_I32)))
      && (op != '/' && exact < MIN_I32 ==> Apply(fl, left, right, op) == Some(Int(MIN_I32)))
  {
    var l, r := AsI32(fl, left), AsI32(fl, right);
    if op == '/' && r != 0 {
      TruncDivInRange(l, r);
    }
  }

  // ---- Evaluation ----

  datatype Token = Empty | Parameter(name: string) | Variable(name: string) | Static(value: Value)

  datatype Operation = Operation(op: char, operand: Token)

  datatype Expression = Expression(start: Token, ops: seq<Operation>)

  /** Where names are looked up; there may be no event. */
  datatype Context = Context(variables: map<string, Value>, event: Option<map<string, Value>>)

  function TokenValue(t: Token, ctx: Context): Value {
    match t
    case Empty => Invalid
    case Static(v) => v
    case Parameter(name) =>
      if ctx.event.Some? && name in ctx.event.value then ctx.event.value[name] else Invalid
    case Variable(name) => if name in ctx.variables then ctx.variables[name] else Invalid
  }

  function Folded(fl: Floats, cur: Value, ops: seq<Operation>, ctx: Context): Option<Value>
    decreases |ops|
  {
    if ops == [] then Some(cur)
    else
      var next := Apply(fl, cur, TokenValue(ops[0].operand, ctx), ops[0].op);
      if next.None? then None else Folded(fl, next.value, ops[1..], ctx)
  }

  function ValueOf(fl: Floats, exp: Expression, ctx: Context): Option<Value> {
    Folded(fl, TokenValue(exp.start, ctx), exp.ops, ctx)
  }

  lemma {:induction false} FoldedSnoc(fl: Floats, cur: Value, ops: seq<Operation>, last: Operation, ctx: Context)
    ensures var before := Folded(fl, cur, ops, ctx);
      Folded(fl, cur, ops + [last], ctx)
      == if before.None? then None else Apply(fl, before.value, TokenValue(last.operand, ctx), last.op)
    decreases |ops|
  {
    if ops == [] {
      assert ops + [last] == [last];
    } else {
      assert (ops + [last])[1..] == ops[1..] + [last];
      var next := Apply(fl, cur, TokenValue(ops[0].operand, ctx), ops[0].op);
      if next.Some? {
        FoldedSnoc(fl, next.value, ops[1..], last, ctx);
      }
    }
  }

  /** The last operation is applied to the value of all that stands before it, on its left. */
  lemma ValueOfSnoc(fl: Floats, exp: Expression, last: Operation, ctx: Context)
    ensures var before := ValueOf(fl, exp, ctx);
      ValueOf(fl, Expression(exp.start, exp.ops + [last]), ctx)
      == if before.None? then None else Apply(fl, before.value, TokenValue(last.operand, ctx), last.op)
  {
    FoldedSnoc(fl, TokenValue(exp.start, ctx), exp.ops, last, ctx);
  }

  method Evaluate(fl: Floats, exp: Expression, ctx: Context) returns (r: Option<Value>)
    ensures r == ValueOf(fl, exp, ctx)
  {
    var cur := TokenValue(exp.start, ctx);
    for k := 0 to |exp.ops|
      invariant Folded(fl, cur, exp.ops[k..], ctx) == ValueOf(fl, exp, ctx)
    {
      var tmp := TokenValue(exp.ops[k].operand, ctx);
      assert exp.ops[k..][1..] == exp.ops[k + 1..];
      var next := Apply(fl, cur, tmp, exp.ops[k].op);
      if next.None? {
        return None;
      }
      cur := next.value;
    }
    r := Some(cur);
  }

  predicate IsStatic(exp: Expression) {
    exp.start.Static? && forall k | 0 <= k < |exp.ops| :: exp.ops[k].operand.Static?
  }

  lemma {:induction false} StaticFolds(fl: Floats, cur: Value, ops: seq<Operation>, ctx: Context, ctx': Context)
    requires forall k | 0 <= k < |ops| :: ops[k].operand.Static?
    ensures Folded(fl, cur, ops, ctx) == Folded(fl, cur, ops, ctx')
    decreases |ops|
  {
    if ops != [] {
      var next := Apply(fl, cur, TokenValue(ops[0].operand, ctx), ops[0].op);
      if next.Some? {
        StaticFolds(fl, next.value, ops[1..], ctx, ctx');
      }
    }
  }

  /** A static expression means the same whatever the variables and the event are. */
  lemma StaticIgnoresContext(fl: Floats, exp: Expression, ctx: Context, ctx': Context)
    requires IsStatic(exp)
    ensures ValueOf(fl, exp, ctx) == ValueOf(fl, exp, ctx')
  {
    StaticFolds(fl, exp.start.value, exp.ops, ctx, ctx');
  }

  /** Once a float is reached the value stays one, and no later operation aborts. */
  lemma {:induction false} FloatsStay(fl: Floats, cur: Value, ops: seq<Operation>, ctx: Context)
    requires cur.Float? || exists i | 0 <= i < |ops| :: TokenValue(ops[i].operand, ctx).Float?
    ensures Folded(fl, cur, ops, ctx).Some? ==> Folded(fl, cur, ops, ctx).value.Float?
    ensures cur.Float? ==> Folded(fl, cur, ops, ctx).Some?
    decreases |ops|
  {
    if ops != [] {
      var next := Apply(fl, cur, TokenValue(ops[0].operand, ctx), ops[0].op);
      if next.Some? {
        if !next.value.Float? {
          var i :| 0 <= i < |ops| && TokenValue(ops[i].operand, ctx).Float?;
          assert ops[1..][i - 1] == ops[i];
        }
        FloatsStay(fl, next.value, ops[1..], ctx);
      }
    }
  }

  /** Only an expression of a single token can be a range. */
  lemma {:induction false} RangesAreSingle(fl: Floats, cur: Value, ops: seq<Operation>, ctx: Context)
    requires ops != [] && Folded(fl, cur, ops, ctx).Some?
    ensures Folded(fl, cur, ops, ctx).value.Int? || Folded(fl, cur, ops, ctx).value.Float?
    decreases |ops|
  {
    var next := Apply(fl, cur, TokenValue(ops[0].operand, ctx), ops[0].op);
    if |ops| > 1 {
      RangesAreSingle(fl, next.value, ops[1..], ctx);
    }
  }

  // ---- Comparison ----

  /** Ranges are membership tests; anything else compares in its widest type. */
  function ValuesMatch(fl: Floats, left: Value, right: Value): bool {
    if left.Range? && right.Range? then left == right
    else if left.Range? then left.lo <= AsI32(fl, right) <= left.hi
    else if right.Range? then right.lo <= AsI32(fl, left) <= right.hi
    else if left.Float? || right.Float? then fl.near(left, right)
    else if left.Long? || right.Long? then AsI64(left) == AsI64(right)
    else AsI32(fl, left) == AsI32(fl, right)
  }

  /** The number that a value stands for, whatever its width; an invalid one stands for zero. */
  function Number(v: Value): Option<int> {
    match v
    case Char(c) => Some(c)
    case Int(i) => Some(i)
    case Long(l) => Some(l)
    case Invalid => Some(0)
    case _ => None
  }

  lemma WrapIsCongruent(n: int)
    ensures exists k: int :: WrapI32(n) == n + k * 0x1_0000_0000
  {
    if MIN_I32 <= n <= MAX_I32 {
      assert WrapI32(n) == n + 0 * 0x1_0000_0000;
    } else {
      var q, m := n / 0x1_0000_0000, n % 0x1_0000_0000;
      assert n == q * 0x1_0000_0000 + m;
      assert WrapI32(n) == n + (if m > MAX_I32 then -q - 1 else -q) * 0x1_0000_0000;
    }
  }

  /** Matching by the numbers themselves: numbers match if they are equal, a range matches the
      numbers from its lower to its upper end, and ranges match if they have the same ends. */
  lemma MatchIsNumeric(fl: Floats, left: Value, right: Value)
    ensures Number(left).Some? && Number(right).Some? ==> (ValuesMatch(fl, left, right) <==> Number(left) == Number(right))
    ensures left.Range? && right.Range? ==> (ValuesMatch(fl, left, right) <==> left.lo == right.lo && left.hi == right.hi)
    ensures left.Range? && Number(right).Some? && MIN_I32 <= Number(right).value <= MAX_I32 ==>
      (ValuesMatch(fl, left, right) <==> left.lo <= Number(right).value <= left.hi)
    ensures right.Range? && Number(left).Some? && MIN_I32 <= Number(left).value <= MAX_I32 ==>
      (ValuesMatch(fl, left, right) <==> right.lo <= Number(left).value <= right.hi)
    ensures !left.Range? && !right.Range? && (left.Float? || right.Float?) ==>
      (ValuesMatch(fl, left, right) <==> fl.near(left, right))
    ensures left.Range? && right.Float? ==> (ValuesMatch(fl, left, right) <==> left.lo <= fl.truncate(right.bits) <= left.hi)
    ensures left.Float? && right.Range? ==> (ValuesMatch(fl, left, right) <==> right.lo <= fl.truncate(left.bits) <= right.hi)
  {
  }

  /** A long outside 32 bits is in a range if the 32-bit number it wraps to is. */
  lemma WideMatchesWrapped(fl: Floats, lo: I32, hi: I32, l: I64, n: I32, k: int)
    requires n == l + k * 0x1_0000_0000
    ensures ValuesMatch(fl, Range(lo, hi), Long(l)) <==> lo <= n <= hi
    ensures ValuesMatch(fl, Long(l), Range(lo, hi)) <==> lo <= n <= hi
  {
    WrapIsCongruent(l);
    var j: int :| WrapI32(l) == l + j * 0x1_0000_0000;
    assert WrapI32(l) - n == (j - k) * 0x1_0000_0000;
  }
}
