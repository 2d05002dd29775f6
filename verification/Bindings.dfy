/** Event bindings: a table indexed by one event parameter, filled from declarations and searched
    when an event arrives. */
module Bindings {

  import opened Util
  import opened Expressions

  const INTERFACE_ID := "interfaceid"

  /** A negative maximum marks a parameter that no table is indexed by. */
  datatype EventParam = EventParam(name: string, isInt: bool, maxIndex: int)

  datatype Condition = Condition(token: Token, exp: Expression)

  datatype Binding = Binding(conds: seq<Condition>, output: nat, echo: bool, continued: bool)

  type Chain = seq<Binding>

  datatype EventKind = GoSub | StartInterface | OtherKind

  datatype Event = Event(kind: EventKind, params: map<string, Value>)

  /** Only the first binding of a chain is ever tested, and all but the last say so. */
  predicate IsChain(chain: Chain) {
    && chain != [] && !chain[|chain| - 1].continued
    && forall i | 0 <= i < |chain| - 1 :: chain[i].continued
  }

  // ---- Conditions ----

  datatype Verdict = Holds | Fails | Aborts

  function ConditionVerdict(fl: Floats, cond: Condition, ctx: Context): Verdict {
    var right := ValueOf(fl, cond.exp, ctx);
    if right.None? then Aborts
    else if ValuesMatch(fl, TokenValue(cond.token, ctx), right.value) then Holds
    else Fails
  }

  /** Conditions are tested in order, up to the first that does not hold. */
  function VerdictOf(fl: Floats, conds: seq<Condition>, ctx: Context): Verdict {
    if conds == [] then Holds
    else
      var first := ConditionVerdict(fl, conds[0], ctx);
      if first.Holds? then VerdictOf(fl, conds[1..], ctx) else first
  }

  lemma {:induction false} HoldsIff(fl: Floats, conds: seq<Condition>, ctx: Context)
    ensures VerdictOf(fl, conds, ctx).Holds? <==> forall c | c in conds :: ConditionVerdict(fl, c, ctx).Holds?
  {
    if conds != [] {
      HoldsIff(fl, conds[1..], ctx);
      assert conds == [conds[0]] + conds[1..];
    }
  }

  method CheckConditions(fl: Floats, conds: seq<Condition>, ctx: Context) returns (r: Verdict)
    ensures r == VerdictOf(fl, conds, ctx)
  {
    for k := 0 to |conds|
      invariant VerdictOf(fl, conds[k..], ctx) == VerdictOf(fl, conds, ctx)
    {
      assert conds[k..][1..] == conds[k + 1..];
      var right := Evaluate(fl, conds[k].exp, ctx);
      if right.None? {
        return Aborts;
      }
      if !ValuesMatch(fl, TokenValue(conds[k].token, ctx), right.value) {
        return Fails;
      }
    }
    r := Holds;
  }

  // ---- Searching a bucket ----

  /** What a search finds: for a bucket, the bindings from the match on. */
  datatype Found = At(bindings: seq<Binding>) | NotFound | Aborted

  /** The scan of a bucket: a binding after a continued one is passed over. */
  function Scan(fl: Floats, bindings: seq<Binding>, prevCont: bool, ctx: Context): Found {
    if bindings == [] then NotFound
    else
      var verdict := if prevCont then Fails else VerdictOf(fl, bindings[0].conds, ctx);
      match verdict
      case Holds => At(bindings)
      case Aborts => Aborted
      case Fails => Scan(fl, bindings[1..], bindings[0].continued, ctx)
  }

  /** The bindings up to and including the first that is not continued. */
  function Collected(bindings: seq<Binding>): seq<Binding> {
    if bindings == [] then []
    else if !bindings[0].continued then [bindings[0]]
    else [bindings[0]] + Collected(bindings[1..])
  }

  /** The plain search: the first chain whose head holds. */
  function FirstHolding(fl: Floats, chains: seq<Chain>, ctx: Context): Found
    requires forall c | c in chains :: IsChain(c)
  {
    if chains == [] then NotFound
    else
      assert IsChain(chains[0]);
      match VerdictOf(fl, chains[0][0].conds, ctx)
      case Holds => At(chains[0])
      case Aborts => Aborted
      case Fails => FirstHolding(fl, chains[1..], ctx)
  }

  lemma {:induction false} CollectedChain(chain: Chain, rest: seq<Binding>)
    requires IsChain(chain)
    ensures Collected(chain + rest) == chain
  {
    if |chain| == 1 {
      assert (chain + rest)[0] == chain[0];
    } else {
      assert (chain + rest)[1..] == chain[1..] + rest;
      CollectedChain(chain[1..], rest);
    }
  }

  /** A scan passes over what is left of a chain. */
  lemma {:induction false} ScanSkips(fl: Floats, tail: seq<Binding>, rest: seq<Binding>, ctx: Context)
    requires IsChain(tail)
    ensures Scan(fl, tail + rest, true, ctx) == Scan(fl, rest, false, ctx)
  {
    assert (tail + rest)[1..] == tail[1..] + rest;
    if |tail| == 1 {
      assert tail[1..] + rest == rest;
    } else {
      ScanSkips(fl, tail[1..], rest, ctx);
    }
  }

  /** Scanning a bucket of chains and collecting from the match is the plain search. */
  lemma {:induction false} ScanIsFirstHolding(fl: Floats, chains: seq<Chain>, ctx: Context)
    requires forall c | c in chains :: IsChain(c)
    ensures Scan(fl, Concat(chains), false, ctx).At? <==> FirstHolding(fl, chains, ctx).At?
    ensures Scan(fl, Concat(chains), false, ctx).Aborted? <==> FirstHolding(fl, chains, ctx).Aborted?
    ensures var scan := Scan(fl, Concat(chains), false, ctx);
      scan.At? ==> Collected(scan.bindings) == FirstHolding(fl, chains, ctx).bindings
  {
    if chains != [] {
      var chain, rest := chains[0], Concat(chains[1..]);
      assert IsChain(chain);
      assert (chain + rest)[0] == chain[0] && (chain + rest)[1..] == chain[1..] + rest;
      ScanIsFirstHolding(fl, chains[1..], ctx);
      CollectedChain(chain, rest);
      if |chain| == 1 {
        assert chain[1..] + rest == rest;
      } else {
        ScanSkips(fl, chain[1..], rest, ctx);
      }
    }
  }

  method MatchBindingIndex(fl: Floats, bindings: seq<Binding>, ctx: Context) returns (r: Result<Option<nat>, ()>)
    ensures match Scan(fl, bindings, false, ctx)
            case Aborted => r.Err?
            case NotFound => r == Ok(None)
            case At(from) => r.Ok? && r.value.Some? && r.value.value < |bindings| && bindings[r.value.value..] == from
  {
    var prevCont := false;
    for i := 0 to |bindings|
      invariant Scan(fl, bindings[i..], prevCont, ctx) == Scan(fl, bindings, false, ctx)
    {
      assert bindings[i..][1..] == bindings[i + 1..];
      if !prevCont {
        var verdict := CheckConditions(fl, bindings[i].conds, ctx);
        if verdict.Aborts? {
          return Err(());
        }
        if verdict.Holds? {
          return Ok(Some(i));
        }
      }
      prevCont := bindings[i].continued;
    }
    r := Ok(None);
  }

  method CollectContinued(first: nat, bindings: seq<Binding>) returns (matched: seq<Binding>)
    requires first <= |bindings|
    ensures matched == Collected(bindings[first..])
  {
    matched := [];
    var i := first;
    while i < |bindings|
      invariant first <= i <= |bindings|
      invariant matched + Collected(bindings[i..]) == Collected(bindings[first..])
    {
      assert bindings[i..][1..] == bindings[i + 1..];
      assert matched + ([bindings[i]] + Collected(bindings[i + 1..])) == (matched + [bindings[i]]) + Collected(bindings[i + 1..]);
      matched := matched + [bindings[i]];
      if !bindings[i].continued {
        return;
      }
      i := i + 1;
    }
    assert matched + [] == matched;
  }

  // ---- Buckets ----

  function BucketIndex(param: EventParam, raw: I32): nat
    requires param.maxIndex > 0
  {
    if raw < 0 then param.maxIndex else raw % param.maxIndex
  }

  /** A static value picks its bucket; anything else goes to the wildcard bucket, the last one. */
  function ConditionBucket(fl: Floats, param: EventParam, exp: Expression): nat
    requires param.maxIndex > 0
  {
    var value := ValueOf(fl, exp, Context(map[], None));
    if IsStatic(exp) && value.Some? && param.isInt then BucketIndex(param, AsI32(fl, value.value))
    else param.maxIndex
  }

  /** The last condition on the indexed parameter decides. */
  function BucketFor(fl: Floats, indexed: Option<EventParam>, conds: seq<Condition>): nat
    requires indexed.Some? ==> indexed.value.maxIndex > 0
  {
    if indexed.None? then 0
    else if conds == [] then indexed.value.maxIndex
    else
      var last := conds[|conds| - 1];
      if last.token == Parameter(indexed.value.name) then ConditionBucket(fl, indexed.value, last.exp)
      else BucketFor(fl, indexed, conds[..|conds| - 1])
  }

  lemma {:induction false} BucketInRange(fl: Floats, indexed: Option<EventParam>, conds: seq<Condition>)
    requires indexed.Some? ==> indexed.value.maxIndex > 0
    ensures BucketFor(fl, indexed, conds) <= if indexed.Some? then indexed.value.maxIndex else 0
  {
    if indexed.Some? && conds != [] {
      BucketInRange(fl, indexed, conds[..|conds| - 1]);
    }
  }

  // ---- Declarations ----

  datatype OutputAttr = Known(event: nat) | Unknown

  /** A condition attribute, split at its equals sign. */
  datatype Declared = Declared(lvalue: string, exp: Expression)

  /** `numbered[i]` is the attribute `output<i + 1>`. */
  datatype Node = Node(echo: bool, conditions: seq<Declared>, zero: Option<OutputAttr>, numbered: seq<Option<OutputAttr>>)

  datatype BindError = UnknownOutput | NoOutput | Overflow

  predicate HasParam(schema: seq<EventParam>, name: string) {
    exists i | 0 <= i < |schema| :: schema[i].name == name
  }

  function FirstIndexed(schema: seq<EventParam>): (p: Option<EventParam>)
    ensures p.Some? ==> exists i ::
      && 0 <= i < |schema| && p.value == schema[i] && schema[i].maxIndex >= 0
      && forall j | 0 <= j < i :: schema[j].maxIndex < 0
    ensures p.None? <==> forall i | 0 <= i < |schema| :: schema[i].maxIndex < 0
  {
    if schema == [] then None
    else if schema[0].maxIndex >= 0 then Some(schema[0])
    else FirstIndexed(schema[1..])
  }

  /** Conditions on parameters and on variables count, in order; others are ignored. */
  function DeclaredConditions(schema: seq<EventParam>, vars: map<string, Value>, decls: seq<Declared>): seq<Condition> {
    if decls == [] then []
    else
      var last := decls[|decls| - 1];
      DeclaredConditions(schema, vars, decls[..|decls| - 1])
      + (if HasParam(schema, last.lvalue) then [Condition(Parameter(last.lvalue), last.exp)]
         else if last.lvalue in vars then [Condition(Variable(last.lvalue), last.exp)]
         else [])
  }

  /** Which conditions a declaration makes: one on the parameter if the schema has it, else one on
      the variable if there is one. */
  lemma {:induction false} DeclaredConditionsIff(schema: seq<EventParam>, vars: map<string, Value>, decls: seq<Declared>,
                                                 token: Token, exp: Expression)
    ensures Condition(token, exp) in DeclaredConditions(schema, vars, decls)
      <==> exists i | 0 <= i < |decls| ::
             && decls[i].exp == exp
             && var name := decls[i].lvalue;
               || ((exists j | 0 <= j < |schema| :: schema[j].name == name) && token == Parameter(name))
               || (!(exists j | 0 <= j < |schema| :: schema[j].name == name) && name in vars && token == Variable(name))
  {
    if decls != [] {
      var init, last := decls[..|decls| - 1], decls[|decls| - 1];
      DeclaredConditionsIff(schema, vars, init, token, exp);
      assert decls == init + [last];
    }
  }

  predicate SetsInterface(schema: seq<EventParam>, decls: seq<Declared>) {
    HasParam(schema, INTERFACE_ID) && exists i | 0 <= i < |decls| :: decls[i].lvalue == INTERFACE_ID
  }

  /** Unless declared, the interface must be the one the binding was read for. */
  function ConditionsFor(schema: seq<EventParam>, vars: map<string, Value>, interfaceId: I32, decls: seq<Declared>): seq<Condition> {
    DeclaredConditions(schema, vars, decls) + InterfaceCondition(schema, interfaceId, SetsInterface(schema, decls))
  }

  function InterfaceCondition(schema: seq<EventParam>, interfaceId: I32, interfaceSet: bool): seq<Condition> {
    if HasParam(schema, INTERFACE_ID) && !interfaceSet
    then [Condition(Parameter(INTERFACE_ID), Expression(Static(Int(interfaceId)), []))] else []
  }

  /** The outputs that exist: an optional unnumbered one, then from one up to the first gap. */
  function NumberedOutputs(numbered: seq<Option<OutputAttr>>): seq<OutputAttr> {
    if numbered == [] || numbered[0].None? then [] else [numbered[0].value] + NumberedOutputs(numbered[1..])
  }

  function OutputsOf(node: Node): seq<OutputAttr> {
    (if node.zero.Some? then [node.zero.value] else []) + NumberedOutputs(node.numbered)
  }

  predicate AllKnown(outputs: seq<OutputAttr>) {
    forall i | 0 <= i < |outputs| :: outputs[i].Known?
  }

  /** Conditions and echo belong to the first output. */
  function ChainFor(conds: seq<Condition>, echo: bool, outputs: seq<OutputAttr>): Chain
    requires AllKnown(outputs)
  {
    seq(|outputs|, i requires 0 <= i < |outputs| =>
      Binding(if i == 0 then conds else [], outputs[i].event, i == 0 && echo, i < |outputs| - 1))
  }

  // ---- The table ----

  predicate AllChains(declared: seq<Chain>) {
    forall i | 0 <= i < |declared| :: IsChain(declared[i])
  }

  /** The chains of a bucket, in declaration order. */
  function InBucket(fl: Floats, indexed: Option<EventParam>, declared: seq<Chain>, b: nat): (chains: seq<Chain>)
    requires indexed.Some? ==> indexed.value.maxIndex > 0
    requires AllChains(declared)
    ensures forall c | c in chains :: IsChain(c)
  {
    if declared == [] then []
    else
      var last := declared[|declared| - 1];
      assert IsChain(last);
      InBucket(fl, indexed, declared[..|declared| - 1], b)
      + (if BucketFor(fl, indexed, last[0].conds) == b then [last] else [])
  }

  lemma {:induction false} InBucketIff(fl: Floats, indexed: Option<EventParam>, declared: seq<Chain>, b: nat)
    requires indexed.Some? ==> indexed.value.maxIndex > 0
    requires AllChains(declared)
    ensures forall c: Chain :: c in InBucket(fl, indexed, declared, b)
              <==> c in declared && IsChain(c) && BucketFor(fl, indexed, c[0].conds) == b
  {
    if declared != [] {
      var init, last := declared[..|declared| - 1], declared[|declared| - 1];
      InBucketIff(fl, indexed, init, b);
      assert declared == init + [last] && IsChain(last);
    }
  }

  class BindingTable {
    const fl: Floats
    const indexed: Option<EventParam>
    var buckets: seq<seq<Binding>>
    /** The chains declared so far. */
    ghost var declared: seq<Chain>

    function Last(): nat {
      if indexed.Some? && indexed.value.maxIndex >= 0 then indexed.value.maxIndex else 0
    }

    ghost predicate Valid()
      reads this
    {
      && (indexed.Some? ==> indexed.value.maxIndex > 0)
      && |buckets| == Last() + 1
      && AllChains(declared)
      && forall b | 0 <= b < |buckets| :: buckets[b] == Concat(InBucket(fl, indexed, declared, b))
    }

    /** No schema has a maximum of zero: it would be a divisor. */
    constructor (fl: Floats, schema: seq<EventParam>)
      requires forall p | p in schema :: p.maxIndex != 0
      ensures Valid() && declared == [] && this.fl == fl && indexed == FirstIndexed(schema)
    {
      this.fl, indexed, declared := fl, FirstIndexed(schema), [];
      var first := FirstIndexed(schema);
      buckets := seq(if first.Some? then first.value.maxIndex + 1 else 1, _ => []);
    }

    /** The bucket a condition on the indexed parameter asks for. */
    method BucketFromExpression(exp: Expression, vars: map<string, Value>) returns (r: Result<nat, BindError>)
      requires indexed.Some? && indexed.value.maxIndex > 0
      ensures r.Err? <==> IsStatic(exp) && ValueOf(fl, exp, Context(vars, None)).None?
      ensures r.Err? ==> r.error == Overflow
      ensures r.Ok? ==> r.value == ConditionBucket(fl, indexed.value, exp)
    {
      if IsStatic(exp) {
        StaticIgnoresContext(fl, exp, Context(vars, None), Context(map[], None));
        var value := Evaluate(fl, exp, Context(vars, None));
        if value.None? {
          return Err(Overflow);
        }
        r := Ok(if indexed.value.isInt then BucketIndex(indexed.value, AsI32(fl, value.value))
                else indexed.value.maxIndex);
      } else {
        r := Ok(indexed.value.maxIndex);
      }
    }

    /** A condition whose bucket cannot be computed: its static value aborts. */
    predicate Overflows(schema: seq<EventParam>, d: Declared) {
      && indexed.Some? && d.lvalue == indexed.value.name && HasParam(schema, d.lvalue)
      && IsStatic(d.exp) && ValueOf(fl, d.exp, Context(map[], None)).None?
    }

    method CreateConditions(schema: seq<EventParam>, vars: map<string, Value>, interfaceId: I32, decls: seq<Declared>)
      returns (r: Result<(seq<Condition>, nat), BindError>)
      requires indexed.Some? ==> indexed.value.maxIndex > 0
      ensures r.Ok? ==>
        var conds := ConditionsFor(schema, vars, interfaceId, decls);
        r.value == (conds, BucketFor(fl, indexed, conds))
      ensures r.Err? <==> exists i | 0 <= i < |decls| :: Overflows(schema, decls[i])
      ensures r.Err? ==> r.error == Overflow
    {
      var bucket := Last();
      var interfaceSet := false;
      var conds: seq<Condition> := [];
      for i := 0 to |decls|
        invariant conds == DeclaredConditions(schema, vars, decls[..i])
        invariant bucket == BucketFor(fl, indexed, conds)
        invariant interfaceSet <==> SetsInterface(schema, decls[..i])
        invariant forall j | 0 <= j < i :: !Overflows(schema, decls[j])
      {
        assert decls[..i + 1][..i] == decls[..i];
        SetsInterfaceSnoc(schema, decls, i);
        var d := decls[i];
        if HasParam(schema, d.lvalue) {
          interfaceSet := interfaceSet || d.lvalue == INTERFACE_ID;
          if indexed.Some? && indexed.value.name == d.lvalue {
            var asked := BucketFromExpression(d.exp, vars);
            if IsStatic(d.exp) {
              StaticIgnoresContext(fl, d.exp, Context(vars, None), Context(map[], None));
            }
            if asked.Err? {
              assert Overflows(schema, decls[i]);
              return Err(asked.error);
            }
            bucket := asked.value;
          }
          BucketSnoc(fl, indexed, conds, Condition(Parameter(d.lvalue), d.exp));
          conds := conds + [Condition(Parameter(d.lvalue), d.exp)];
        } else if d.lvalue in vars {
          BucketSnoc(fl, indexed, conds, Condition(Variable(d.lvalue), d.exp));
          conds := conds + [Condition(Variable(d.lvalue), d.exp)];
        } else {
          assert conds + [] == conds;
        }
      }
      assert decls[..|decls|] == decls;
      r := AddInterface(schema, interfaceId, conds, bucket, interfaceSet);
    }

    /** The condition on the interface, unless one was declared. */
    method AddInterface(schema: seq<EventParam>, interfaceId: I32, declaredConds: seq<Condition>, declaredBucket: nat,
                        interfaceSet: bool)
      returns (r: Result<(seq<Condition>, nat), BindError>)
      requires indexed.Some? ==> indexed.value.maxIndex > 0
      requires declaredBucket == BucketFor(fl, indexed, declaredConds)
      ensures r.Ok? && r.value.0 == declaredConds + InterfaceCondition(schema, interfaceId, interfaceSet)
      ensures r.Ok? && r.value.1 == BucketFor(fl, indexed, r.value.0)
    {
      var conds, bucket := declaredConds, declaredBucket;
      if !interfaceSet && HasParam(schema, INTERFACE_ID) {
        var exp := Expression(Static(Int(interfaceId)), []);
        if indexed.Some? && indexed.value.name == INTERFACE_ID {
          // A literal cannot abort.
          var asked := BucketFromExpression(exp, map[]);
          bucket := asked.value;
        }
        BucketSnoc(fl, indexed, conds, Condition(Parameter(INTERFACE_ID), exp));
        conds := conds + [Condition(Parameter(INTERFACE_ID), exp)];
      } else {
        assert conds + [] == conds;
      }
      r := Ok((conds, bucket));
    }

    method AddBindingToTable(bucket: nat, binding: Binding)
      modifies this`buckets
      ensures buckets == if bucket < |old(buckets)| then old(buckets)[bucket := old(buckets)[bucket] + [binding]]
                         else old(buckets)
    {
      if bucket < |buckets| {
        buckets := buckets[bucket := buckets[bucket] + [binding]];
      }
    }

    /** The outputs of a node as bindings, none of them continued yet. */
    method CreateOutputs(node: Node, conds: seq<Condition>) returns (r: Result<seq<Binding>, BindError>)
      ensures var outputs := OutputsOf(node);
        if !AllKnown(outputs) then r == Err(UnknownOutput)
        else if outputs == [] then r == Err(NoOutput)
        else r == Ok(Uncontinued(conds, node.echo, outputs))
    {
      var bindings: seq<Binding> := [];
      ghost var seen: seq<OutputAttr> := [];
      var idx := 0;
      while true
        invariant idx <= |node.numbered| + 1
        invariant AllKnown(seen)
        invariant seen + OutputsFrom(node, idx) == OutputsOf(node)
        invariant bindings == Uncontinued(conds, node.echo, seen)
        decreases |node.numbered| + 1 - idx
      {
        var attr := Attr(node, idx);
        OutputsStep(node, idx);
        if attr.None? {
          if idx == 0 {
            idx := idx + 1;
            continue;
          }
          break;
        }
        if attr.value.Unknown? {
          UnknownIsSeen(seen, attr.value, OutputsFrom(node, idx + 1), OutputsOf(node));
          return Err(UnknownOutput);
        }
        Regroup(seen, [attr.value], OutputsFrom(node, idx + 1));
        UncontinuedSnoc(conds, node.echo, seen, attr.value);
        bindings := bindings + [Binding(if bindings == [] then conds else [], attr.value.event, bindings == [] && node.echo, false)];
        seen := seen + [attr.value];
        idx := idx + 1;
      }
      assert seen == OutputsOf(node);
      if bindings == [] {
        return Err(NoOutput);
      }
      r := Ok(bindings);
    }

    /** All but the last binding are continued. */
    method MarkContinued(ghost conds: seq<Condition>, ghost echo: bool, ghost attrs: seq<OutputAttr>, made: seq<Binding>)
      returns (chain: Chain)
      requires attrs != [] && AllKnown(attrs)
      requires made == Uncontinued(conds, echo, attrs)
      ensures chain == ChainFor(conds, echo, attrs) && IsChain(chain) && chain[0].conds == conds
    {
      chain := made;
      for i := 0 to |made| - 1
        invariant |chain| == |made|
        invariant forall j | 0 <= j < |chain| :: chain[j] == made[j].(continued := j < i)
      {
        chain := chain[i := chain[i].(continued := true)];
      }
    }

    method AddChain(bucket: nat, chain: Chain)
      requires bucket < |buckets|
      modifies this`buckets
      ensures buckets == old(buckets)[bucket := old(buckets)[bucket] + chain]
    {
      ghost var before := buckets;
      assert before[bucket] + chain[..0] == before[bucket];
      for k := 0 to |chain|
        invariant buckets == before[bucket := before[bucket] + chain[..k]]
      {
        AddBindingToTable(bucket, chain[k]);
        assert chain[..k + 1] == chain[..k] + [chain[k]];
        Regroup(before[bucket], chain[..k], [chain[k]]);
      }
      assert chain[..|chain|] == chain;
    }

    /** A declaration adds its whole chain to one bucket, or nothing at all. */
    method ParseBindingNode(schema: seq<EventParam>, vars: map<string, Value>, interfaceId: I32, node: Node)
      returns (r: Result<(), BindError>)
      requires Valid()
      modifies this
      ensures Valid()
      ensures r.Ok? <==>
        && (forall i | 0 <= i < |node.conditions| :: !Overflows(schema, node.conditions[i]))
        && OutputsOf(node) != [] && AllKnown(OutputsOf(node))
      ensures r.Err? ==> buckets == old(buckets) && declared == old(declared)
      ensures r.Ok? ==>
        declared == old(declared) + [ChainFor(ConditionsFor(schema, vars, interfaceId, node.conditions), node.echo, OutputsOf(node))]
    {
      var conditions := CreateConditions(schema, vars, interfaceId, node.conditions);
      if conditions.Err? {
        return Err(conditions.error);
      }
      var (conds, bucket) := conditions.value;
      var made := CreateOutputs(node, conds);
      if made.Err? {
        return Err(made.error);
      }
      var chain := MarkContinued(conds, node.echo, OutputsOf(node), made.value);
      BucketInRange(fl, indexed, conds);
      ghost var before := buckets;
      AddChain(bucket, chain);
      declared := declared + [chain];
      BucketsExtended(fl, indexed, old(declared), chain, before, buckets);
      r := Ok(());
    }

    /** One bucket: the first match and what continues it. */
    method ResolveBucket(b: nat, vars: map<string, Value>, ev: Event) returns (r: Option<Dispatch>)
      requires Valid() && b < |buckets|
      ensures r == Resolved(fl, InBucket(fl, indexed, declared, b), ContextOf(vars, ev))
    {
      ghost var chains := InBucket(fl, indexed, declared, b);
      ScanIsFirstHolding(fl, chains, ContextOf(vars, ev));
      var bindings := buckets[b];
      var first := MatchBindingIndex(fl, bindings, ContextOf(vars, ev));
      if first.Err? {
        return Some(Abort);
      }
      if first.value.None? {
        return None;
      }
      var matched := CollectContinued(first.value.value, bindings);
      FoundIsChain(fl, chains, ContextOf(vars, ev));
      CollectedFirst(bindings[first.value.value..]);
      r := Some(Matched(bindings[first.value.value].echo, matched));
    }

    /** The event's own bucket comes before the wildcard bucket. */
    method DispatchEventBindings(vars: map<string, Value>, ev: Event) returns (r: Dispatch)
      requires Valid()
      ensures r == Dispatched(fl, indexed, declared, vars, ev)
    {
      if indexed.None? {
        var result := ResolveBucket(0, vars, ev);
        if result.Some? {
          return result.value;
        }
      } else if indexed.value.isInt {
        var exact := BucketIndex(indexed.value, EventIndex(fl, indexed.value, ev));
        var result := ResolveBucket(exact, vars, ev);
        if result.Some? {
          return result.value;
        }
        result := ResolveBucket(indexed.value.maxIndex, vars, ev);
        if result.Some? {
          return result.value;
        }
      }
      r := Unmatched(ev.kind != GoSub && ev.kind != StartInterface);
    }
  }

  lemma SetsInterfaceSnoc(schema: seq<EventParam>, decls: seq<Declared>, i: nat)
    requires i < |decls|
    ensures SetsInterface(schema, decls[..i + 1])
        <==> SetsInterface(schema, decls[..i]) || (HasParam(schema, INTERFACE_ID) && decls[i].lvalue == INTERFACE_ID)
  {
    var longer, shorter := decls[..i + 1], decls[..i];
    assert forall j | 0 <= j < i :: longer[j] == shorter[j];
    assert longer[i] == decls[i];
    if SetsInterface(schema, shorter) {
      var j :| 0 <= j < i && shorter[j].lvalue == INTERFACE_ID;
      assert longer[j].lvalue == INTERFACE_ID;
    }
  }

  lemma BucketSnoc(fl: Floats, indexed: Option<EventParam>, conds: seq<Condition>, c: Condition)
    requires indexed.Some? ==> indexed.value.maxIndex > 0
    ensures BucketFor(fl, indexed, conds + [c])
         == if indexed.Some? && c.token == Parameter(indexed.value.name) then ConditionBucket(fl, indexed.value, c.exp)
            else BucketFor(fl, indexed, conds)
  {
    assert (conds + [c])[..|conds|] == conds;
  }

  function Uncontinued(conds: seq<Condition>, echo: bool, outputs: seq<OutputAttr>): seq<Binding>
    requires AllKnown(outputs)
  {
    seq(|outputs|, i requires 0 <= i < |outputs| =>
      Binding(if i == 0 then conds else [], outputs[i].event, i == 0 && echo, false))
  }

  lemma UncontinuedSnoc(conds: seq<Condition>, echo: bool, seen: seq<OutputAttr>, o: OutputAttr)
    requires AllKnown(seen) && o.Known?
    ensures AllKnown(seen + [o])
    ensures Uncontinued(conds, echo, seen + [o])
         == Uncontinued(conds, echo, seen) + [Binding(if seen == [] then conds else [], o.event, seen == [] && echo, false)]
  {
  }

  /** An output that is reached and unknown is among the outputs. */
  lemma UnknownIsSeen(seen: seq<OutputAttr>, o: OutputAttr, rest: seq<OutputAttr>, all: seq<OutputAttr>)
    requires o.Unknown? && seen + ([o] + rest) == all
    ensures !AllKnown(all)
  {
    assert all[|seen|] == o;
  }

  function Attr(node: Node, idx: nat): Option<OutputAttr> {
    if idx == 0 then node.zero else if idx - 1 < |node.numbered| then node.numbered[idx - 1] else None
  }

  /** The outputs from number `idx` on. */
  function OutputsFrom(node: Node, idx: nat): seq<OutputAttr>
    requires idx <= |node.numbered| + 1
  {
    if idx == 0 then OutputsOf(node) else NumberedOutputs(node.numbered[idx - 1..])
  }

  lemma OutputsStep(node: Node, idx: nat)
    requires idx <= |node.numbered| + 1
    ensures Attr(node, idx).Some? ==>
      idx + 1 <= |node.numbered| + 1 && OutputsFrom(node, idx) == [Attr(node, idx).value] + OutputsFrom(node, idx + 1)
    ensures Attr(node, idx).None? ==>
      OutputsFrom(node, idx) == if idx == 0 then OutputsFrom(node, 1) else []
  {
    if idx == 0 {
      assert node.numbered[0..] == node.numbered;
    } else if idx <= |node.numbered| {
      assert node.numbered[idx - 1..][1..] == node.numbered[idx..];
    }
  }

  lemma BucketsExtended(fl: Floats, indexed: Option<EventParam>, declared: seq<Chain>, chain: Chain,
                        before: seq<seq<Binding>>, after: seq<seq<Binding>>)
    requires indexed.Some? ==> indexed.value.maxIndex > 0
    requires IsChain(chain) && AllChains(declared)
    requires forall b | 0 <= b < |before| :: before[b] == Concat(InBucket(fl, indexed, declared, b))
    requires BucketFor(fl, indexed, chain[0].conds) < |before|
    requires var bucket := BucketFor(fl, indexed, chain[0].conds);
      after == before[bucket := before[bucket] + chain]
    ensures AllChains(declared + [chain])
    ensures forall b | 0 <= b < |after| :: after[b] == Concat(InBucket(fl, indexed, declared + [chain], b))
  {
    var all := declared + [chain];
    assert all[..|all| - 1] == declared;
    forall b | 0 <= b < |after|
      ensures after[b] == Concat(InBucket(fl, indexed, all, b))
    {
      var was := InBucket(fl, indexed, declared, b);
      ConcatSnoc(was, chain);
      assert was + [] == was;
    }
  }

  // ---- What dispatch does ----

  datatype Dispatch = Matched(echo: bool, bindings: Chain) | Unmatched(echo: bool) | Abort

  function ContextOf(vars: map<string, Value>, ev: Event): Context {
    Context(vars, Some(ev.params))
  }

  function EventIndex(fl: Floats, param: EventParam, ev: Event): I32 {
    AsI32(fl, TokenValue(Parameter(param.name), Context(map[], Some(ev.params))))
  }

  function Resolved(fl: Floats, chains: seq<Chain>, ctx: Context): Option<Dispatch>
    requires forall c | c in chains :: IsChain(c)
  {
    match FirstHolding(fl, chains, ctx)
    case NotFound => None
    case Aborted => Some(Abort)
    case At(chain) => if chain == [] then None else Some(Matched(chain[0].echo, chain))
  }

  lemma {:induction false} FoundIsChain(fl: Floats, chains: seq<Chain>, ctx: Context)
    requires forall c | c in chains :: IsChain(c)
    ensures var found := FirstHolding(fl, chains, ctx);
      && (found.At? ==> found.bindings in chains && IsChain(found.bindings)
                        && VerdictOf(fl, found.bindings[0].conds, ctx).Holds?)
      && (found.NotFound? <==> forall c: Chain | c in chains :: IsChain(c) && VerdictOf(fl, c[0].conds, ctx).Fails?)
  {
    if chains != [] {
      FoundIsChain(fl, chains[1..], ctx);
      assert chains == [chains[0]] + chains[1..];
    }
  }

  lemma CollectedFirst(bindings: seq<Binding>)
    requires bindings != []
    ensures Collected(bindings) != [] && Collected(bindings)[0] == bindings[0]
  {
  }

  /** The first match in the event's own bucket, else in the wildcard bucket. */
  function Dispatched(fl: Floats, indexed: Option<EventParam>, declared: seq<Chain>,
                      vars: map<string, Value>, ev: Event): Dispatch
    requires (indexed.Some? ==> indexed.value.maxIndex > 0) && AllChains(declared)
  {
    var ctx, otherwise := ContextOf(vars, ev), Unmatched(ev.kind != GoSub && ev.kind != StartInterface);
    if indexed.None? then
      var result := Resolved(fl, InBucket(fl, indexed, declared, 0), ctx);
      if result.Some? then result.value else otherwise
    else if !indexed.value.isInt then otherwise
    else
      var exact, wild := BucketIndex(indexed.value, EventIndex(fl, indexed.value, ev)), indexed.value.maxIndex;
      var first := Resolved(fl, InBucket(fl, indexed, declared, exact), ctx);
      var second := Resolved(fl, InBucket(fl, indexed, declared, wild), ctx);
      if first.Some? then first.value else if second.Some? then second.value else otherwise
  }

  // ---- Order ----

  lemma {:induction false} FirstHoldingSnoc(fl: Floats, chains: seq<Chain>, last: Chain, ctx: Context)
    requires (forall c | c in chains :: IsChain(c)) && IsChain(last)
    ensures forall c | c in chains + [last] :: IsChain(c)
    ensures FirstHolding(fl, chains + [last], ctx)
         == if FirstHolding(fl, chains, ctx).NotFound? then FirstHolding(fl, [last], ctx) else FirstHolding(fl, chains, ctx)
  {
    if chains == [] {
      assert chains + [last] == [last];
    } else {
      assert (chains + [last])[1..] == chains[1..] + [last];
      assert IsChain(chains[0]);
      FirstHoldingSnoc(fl, chains[1..], last, ctx);
    }
  }

  lemma FirstHoldingOne(fl: Floats, last: Chain, ctx: Context)
    requires IsChain(last)
    ensures FirstHolding(fl, [last], ctx)
         == match VerdictOf(fl, last[0].conds, ctx) case Holds => At(last) case Aborts => Aborted case Fails => NotFound
  {
    assert [last][1..] == [];
  }

  lemma InBucketSnoc(fl: Floats, indexed: Option<EventParam>, init: seq<Chain>, last: Chain, b: nat)
    requires (indexed.Some? ==> indexed.value.maxIndex > 0) && AllChains(init) && IsChain(last)
    ensures AllChains(init + [last])
    ensures InBucket(fl, indexed, init + [last], b)
         == InBucket(fl, indexed, init, b) + (if BucketFor(fl, indexed, last[0].conds) == b then [last] else [])
  {
    assert (init + [last])[..|init|] == init;
  }

  /** What one more declaration does to a bucket's first match. */
  lemma BucketFirstSnoc(fl: Floats, indexed: Option<EventParam>, init: seq<Chain>, last: Chain, b: nat, ctx: Context)
    requires (indexed.Some? ==> indexed.value.maxIndex > 0) && AllChains(init) && IsChain(last)
    ensures AllChains(init + [last])
    ensures var before := FirstHolding(fl, InBucket(fl, indexed, init, b), ctx);
      FirstHolding(fl, InBucket(fl, indexed, init + [last], b), ctx)
      == if before.NotFound? && BucketFor(fl, indexed, last[0].conds) == b then FirstHolding(fl, [last], ctx) else before
  {
    var chains := InBucket(fl, indexed, init, b);
    InBucketSnoc(fl, indexed, init, last, b);
    FirstHoldingSnoc(fl, chains, last, ctx);
    assert chains + [] == chains;
  }

  /** No chain of the bucket holds. */
  ghost predicate BucketFails(fl: Floats, indexed: Option<EventParam>, declared: seq<Chain>, b: nat, ctx: Context)
    requires (indexed.Some? ==> indexed.value.maxIndex > 0) && AllChains(declared)
  {
    forall j | 0 <= j < |declared| && BucketFor(fl, indexed, declared[j][0].conds) == b ::
      VerdictOf(fl, declared[j][0].conds, ctx).Fails?
  }

  lemma BucketFailsIff(fl: Floats, indexed: Option<EventParam>, declared: seq<Chain>, b: nat, ctx: Context)
    requires (indexed.Some? ==> indexed.value.maxIndex > 0) && AllChains(declared)
    ensures FirstHolding(fl, InBucket(fl, indexed, declared, b), ctx).NotFound?
        <==> BucketFails(fl, indexed, declared, b, ctx)
  {
    InBucketIff(fl, indexed, declared, b);
    FoundIsChain(fl, InBucket(fl, indexed, declared, b), ctx);
    if BucketFails(fl, indexed, declared, b, ctx) {
      forall c: Chain | c in InBucket(fl, indexed, declared, b)
        ensures IsChain(c) && VerdictOf(fl, c[0].conds, ctx).Fails?
      {
        var j :| 0 <= j < |declared| && declared[j] == c;
      }
    }
  }

  /** The `i`th declaration holds, and no earlier one of the bucket does. */
  ghost predicate EarliestAt(fl: Floats, indexed: Option<EventParam>, declared: seq<Chain>, b: nat, ctx: Context, i: nat)
    requires (indexed.Some? ==> indexed.value.maxIndex > 0) && AllChains(declared)
  {
    && i < |declared| && BucketFor(fl, indexed, declared[i][0].conds) == b
    && VerdictOf(fl, declared[i][0].conds, ctx).Holds? && BucketFails(fl, indexed, declared[..i], b, ctx)
  }

  /** A bucket's match is the earliest declaration of that bucket that holds. */
  lemma {:induction false} BucketMatchIsEarliest(fl: Floats, indexed: Option<EventParam>, declared: seq<Chain>, b: nat, ctx: Context)
    returns (i: nat)
    requires (indexed.Some? ==> indexed.value.maxIndex > 0) && AllChains(declared)
    requires FirstHolding(fl, InBucket(fl, indexed, declared, b), ctx).At?
    ensures EarliestAt(fl, indexed, declared, b, ctx, i)
    ensures declared[i] == FirstHolding(fl, InBucket(fl, indexed, declared, b), ctx).bindings
  {
    var init, last := declared[..|declared| - 1], declared[|declared| - 1];
    assert declared == init + [last] && IsChain(last);
    BucketFirstSnoc(fl, indexed, init, last, b, ctx);
    if FirstHolding(fl, InBucket(fl, indexed, init, b), ctx).At? {
      i := BucketMatchIsEarliest(fl, indexed, init, b, ctx);
      assert init[..i] == declared[..i] && init[i] == declared[i];
    } else {
      FirstHoldingOne(fl, last, ctx);
      BucketFailsIff(fl, indexed, init, b, ctx);
      i := |init|;
    }
  }

  /** The plain scan's first match is also the first match of its own bucket. */
  lemma {:induction false} ScanMatchInBucket(fl: Floats, indexed: Option<EventParam>, declared: seq<Chain>, ctx: Context)
    requires (indexed.Some? ==> indexed.value.maxIndex > 0) && AllChains(declared)
    ensures forall c | c in declared :: IsChain(c)
    ensures var scan := FirstHolding(fl, declared, ctx);
      scan.At? ==>
        && IsChain(scan.bindings)
        && FirstHolding(fl, InBucket(fl, indexed, declared, BucketFor(fl, indexed, scan.bindings[0].conds)), ctx) == scan
  {
    if declared != [] {
      var init, last := declared[..|declared| - 1], declared[|declared| - 1];
      assert declared == init + [last] && IsChain(last);
      ScanMatchInBucket(fl, indexed, init, ctx);
      FirstHoldingSnoc(fl, init, last, ctx);
      var scan := FirstHolding(fl, declared, ctx);
      if scan.At? {
        FoundIsChain(fl, declared, ctx);
        var b := BucketFor(fl, indexed, scan.bindings[0].conds);
        BucketFirstSnoc(fl, indexed, init, last, b, ctx);
        if FirstHolding(fl, init, ctx).NotFound? {
          NothingAnywhere(fl, indexed, init, b, ctx);
          FirstHoldingOne(fl, last, ctx);
        }
      }
    }
  }

  lemma NothingAnywhere(fl: Floats, indexed: Option<EventParam>, declared: seq<Chain>, b: nat, ctx: Context)
    requires (indexed.Some? ==> indexed.value.maxIndex > 0) && AllChains(declared)
    requires forall c | c in declared :: IsChain(c)
    requires FirstHolding(fl, declared, ctx).NotFound?
    ensures FirstHolding(fl, InBucket(fl, indexed, declared, b), ctx).NotFound?
  {
    FoundIsChain(fl, declared, ctx);
    forall j | 0 <= j < |declared|
      ensures VerdictOf(fl, declared[j][0].conds, ctx).Fails?
    {
      assert declared[j] in declared;
    }
    BucketFailsIff(fl, indexed, declared, b, ctx);
  }

  // ---- Dispatch against the plain scan ----

  /** Any event value a static condition accepts falls in the bucket the condition was put in,
      unless that is the wildcard bucket. */
  ghost predicate ExactValue(fl: Floats, param: EventParam, v: Value)
    requires param.maxIndex > 0
  {
    var b := BucketIndex(param, AsI32(fl, v));
    b == param.maxIndex || forall e: I32 | ValuesMatch(fl, Int(e), v) :: BucketIndex(param, e) == b
  }

  /** The condition that decides the bucket is exact, if it is static. */
  ghost predicate ExactConditions(fl: Floats, param: EventParam, conds: seq<Condition>)
    requires param.maxIndex > 0
  {
    if conds == [] then true
    else
      var last := conds[|conds| - 1];
      if last.token == Parameter(param.name) then
        var v := ValueOf(fl, last.exp, Context(map[], None));
        IsStatic(last.exp) && v.Some? ==> ExactValue(fl, param, v.value)
      else ExactConditions(fl, param, conds[..|conds| - 1])
  }

  /** Integers of any width are exact; only ranges and floats may not be. */
  lemma ExactUnlessRangeOrFloat(fl: Floats, param: EventParam, v: Value)
    requires param.maxIndex > 0 && !v.Range? && !v.Float?
    ensures ExactValue(fl, param, v)
  {
    if v.Long? {
      forall e: I32 | ValuesMatch(fl, Int(e), v)
        ensures WrapI32(v.l) == e
      {
        if e >= 0 {
          DivModUnique(e, 0, e, 0x1_0000_0000);
        } else {
          DivModUnique(e, -1, e + 0x1_0000_0000, 0x1_0000_0000);
        }
      }
    }
  }

  /** A range reads as zero, so it is exact only if it is empty, or has a single multiple of the
      maximum, or every number goes to bucket zero. */
  predicate RangeIsExact(maxIndex: nat, lo: I32, hi: I32)
    requires maxIndex > 0
  {
    lo > hi || (lo >= 0 && (maxIndex == 1 || (lo == hi && lo % maxIndex == 0)))
  }

  lemma RangeExactIff(fl: Floats, param: EventParam, lo: I32, hi: I32)
    requires param.maxIndex > 0
    ensures ExactValue(fl, param, Range(lo, hi)) <==> RangeIsExact(param.maxIndex, lo, hi)
  {
    var m: nat, v := param.maxIndex, Range(lo, hi);
    DivModUnique(0, 0, 0, m);
    if RangeIsExact(m, lo, hi) {
      forall e: I32 | ValuesMatch(fl, Int(e), v)
        ensures BucketIndex(param, e) == 0
      {
        if m == 1 {
          DivModUnique(e, e, 0, 1);
        }
      }
    } else {
      assert ValuesMatch(fl, Int(lo), v);
      if lo >= 0 && lo % m == 0 {
        ModOfNext(lo, m);
        assert ValuesMatch(fl, Int(lo + 1), v);
        assert BucketIndex(param, lo + 1) == 1;
      }
    }
  }

  lemma ModOfNext(n: nat, m: nat)
    requires m > 1 && n % m == 0
    ensures (n + 1) % m == 1
  {
    DivModSplit(n, m);
    DivModUnique(n + 1, n / m, 1, m);
  }

  /** An event whose indexed parameter is an integer, as its schema says. */
  predicate Fits(param: EventParam, ev: Event) {
    param.name in ev.params && ev.params[param.name].Int?
  }

  predicate Reached(fl: Floats, param: EventParam, conds: seq<Condition>, ev: Event)
    requires param.maxIndex > 0
  {
    var b := BucketFor(fl, Some(param), conds);
    b == BucketIndex(param, EventIndex(fl, param, ev)) || b == param.maxIndex
  }

  /** Conditions that hold put the chain where dispatch looks. */
  lemma {:induction false} HoldingIsReached(fl: Floats, param: EventParam, conds: seq<Condition>, vars: map<string, Value>, ev: Event)
    requires param.maxIndex > 0 && Fits(param, ev) && ExactConditions(fl, param, conds)
    requires forall c | c in conds :: ConditionVerdict(fl, c, ContextOf(vars, ev)).Holds?
    ensures Reached(fl, param, conds, ev)
    decreases |conds|
  {
    if conds != [] {
      var last := conds[|conds| - 1];
      if last.token == Parameter(param.name) {
        assert ConditionVerdict(fl, last, ContextOf(vars, ev)).Holds?;
        if IsStatic(last.exp) {
          StaticIgnoresContext(fl, last.exp, ContextOf(vars, ev), Context(map[], None));
        }
      } else {
        HoldingIsReached(fl, param, conds[..|conds| - 1], vars, ev);
      }
    }
  }

  /** No head that dispatch could test aborts. */
  ghost predicate NothingAborts(fl: Floats, declared: seq<Chain>, ctx: Context)
    requires AllChains(declared)
  {
    forall i | 0 <= i < |declared| :: !VerdictOf(fl, declared[i][0].conds, ctx).Aborts?
  }

  lemma NeverAborted(fl: Floats, indexed: Option<EventParam>, declared: seq<Chain>, b: nat, ctx: Context)
    requires (indexed.Some? ==> indexed.value.maxIndex > 0) && AllChains(declared) && NothingAborts(fl, declared, ctx)
    ensures !FirstHolding(fl, InBucket(fl, indexed, declared, b), ctx).Aborted?
  {
    InBucketIff(fl, indexed, declared, b);
    forall c: Chain | c in InBucket(fl, indexed, declared, b)
      ensures IsChain(c) && !VerdictOf(fl, c[0].conds, ctx).Aborts?
    {
      var j :| 0 <= j < |declared| && declared[j] == c;
    }
    NoneAborted(fl, InBucket(fl, indexed, declared, b), ctx);
  }

  lemma {:induction false} NoneAborted(fl: Floats, chains: seq<Chain>, ctx: Context)
    requires forall c: Chain | c in chains :: IsChain(c) && !VerdictOf(fl, c[0].conds, ctx).Aborts?
    ensures !FirstHolding(fl, chains, ctx).Aborted?
  {
    if chains != [] {
      assert chains[0] in chains;
      NoneAborted(fl, chains[1..], ctx);
    }
  }

  /** What dispatch finds, and when it finds nothing: it looks in two buckets only. */
  lemma {:induction false} DispatchedCases(fl: Floats, param: EventParam, declared: seq<Chain>, vars: map<string, Value>, ev: Event)
    requires param.isInt && param.maxIndex > 0 && AllChains(declared)
    requires NothingAborts(fl, declared, ContextOf(vars, ev))
    ensures var ctx, exact := ContextOf(vars, ev), BucketIndex(param, EventIndex(fl, param, ev));
      var first := FirstHolding(fl, InBucket(fl, Some(param), declared, exact), ctx);
      var second := FirstHolding(fl, InBucket(fl, Some(param), declared, param.maxIndex), ctx);
      var result := Dispatched(fl, Some(param), declared, vars, ev);
      && (first.At? ==> first.bindings != [] && result == Matched(first.bindings[0].echo, first.bindings))
      && (first.NotFound? && second.At? ==>
            second.bindings != [] && result == Matched(second.bindings[0].echo, second.bindings))
      && (first.NotFound? && second.NotFound? ==> result.Unmatched?)
      && !first.Aborted? && !second.Aborted?
  {
    var ctx, exact := ContextOf(vars, ev), BucketIndex(param, EventIndex(fl, param, ev));
    NeverAborted(fl, Some(param), declared, exact, ctx);
    NeverAborted(fl, Some(param), declared, param.maxIndex, ctx);
    FoundIsChain(fl, InBucket(fl, Some(param), declared, exact), ctx);
    FoundIsChain(fl, InBucket(fl, Some(param), declared, param.maxIndex), ctx);
  }

  /** If the deciding static conditions are exact, dispatch matches nothing exactly when no
      declared chain's head holds. */
  lemma {:induction false} DispatchMissesNothing(fl: Floats, param: EventParam, declared: seq<Chain>, vars: map<string, Value>, ev: Event)
    requires param.isInt && param.maxIndex > 0 && Fits(param, ev) && AllChains(declared)
    requires NothingAborts(fl, declared, ContextOf(vars, ev))
    requires forall i | 0 <= i < |declared| :: ExactConditions(fl, param, declared[i][0].conds)
    ensures Dispatched(fl, Some(param), declared, vars, ev).Unmatched?
        <==> forall i | 0 <= i < |declared| :: VerdictOf(fl, declared[i][0].conds, ContextOf(vars, ev)).Fails?
  {
    var ctx, exact := ContextOf(vars, ev), BucketIndex(param, EventIndex(fl, param, ev));
    DispatchedCases(fl, param, declared, vars, ev);
    BucketFailsIff(fl, Some(param), declared, exact, ctx);
    BucketFailsIff(fl, Some(param), declared, param.maxIndex, ctx);
    if BucketFails(fl, Some(param), declared, exact, ctx) && BucketFails(fl, Some(param), declared, param.maxIndex, ctx) {
      forall i | 0 <= i < |declared|
        ensures VerdictOf(fl, declared[i][0].conds, ctx).Fails?
      {
        var conds := declared[i][0].conds;
        HoldsIff(fl, conds, ctx);
        if VerdictOf(fl, conds, ctx).Holds? {
          HoldingIsReached(fl, param, conds, vars, ev);
        }
      }
    }
  }

  /** What dispatch matches is the earliest holding declaration of the event's own bucket or, if
      that has none, of the wildcard bucket. */
  lemma {:induction false} DispatchIsEarliest(fl: Floats, param: EventParam, declared: seq<Chain>, vars: map<string, Value>, ev: Event)
    returns (b: nat, i: nat)
    requires param.isInt && param.maxIndex > 0 && AllChains(declared)
    requires NothingAborts(fl, declared, ContextOf(vars, ev))
    requires Dispatched(fl, Some(param), declared, vars, ev).Matched?
    ensures var exact := BucketIndex(param, EventIndex(fl, param, ev));
      && (b == exact || (b == param.maxIndex && BucketFails(fl, Some(param), declared, exact, ContextOf(vars, ev))))
      && EarliestAt(fl, Some(param), declared, b, ContextOf(vars, ev), i)
      && Dispatched(fl, Some(param), declared, vars, ev) == Matched(declared[i][0].echo, declared[i])
  {
    var ctx, exact := ContextOf(vars, ev), BucketIndex(param, EventIndex(fl, param, ev));
    DispatchedCases(fl, param, declared, vars, ev);
    BucketFailsIff(fl, Some(param), declared, exact, ctx);
    b := if FirstHolding(fl, InBucket(fl, Some(param), declared, exact), ctx).At? then exact else param.maxIndex;
    i := BucketMatchIsEarliest(fl, Some(param), declared, b, ctx);
  }

  /** Dispatch returns the plain scan's match exactly when that is in the event's own bucket or
      nothing else there holds. */
  lemma {:induction false} DispatchIsScanIff(fl: Floats, param: EventParam, declared: seq<Chain>, vars: map<string, Value>, ev: Event)
    requires param.isInt && param.maxIndex > 0 && Fits(param, ev) && AllChains(declared)
    requires NothingAborts(fl, declared, ContextOf(vars, ev))
    requires forall i | 0 <= i < |declared| :: ExactConditions(fl, param, declared[i][0].conds)
    ensures forall c | c in declared :: IsChain(c)
    ensures FirstHolding(fl, declared, ContextOf(vars, ev)).At? ==>
      var chain, exact := FirstHolding(fl, declared, ContextOf(vars, ev)).bindings, BucketIndex(param, EventIndex(fl, param, ev));
      && chain != []
      && (Dispatched(fl, Some(param), declared, vars, ev) == Matched(chain[0].echo, chain)
          <==> BucketFor(fl, Some(param), chain[0].conds) == exact
               || BucketFails(fl, Some(param), declared, exact, ContextOf(vars, ev)))
  {
    var ctx, exact := ContextOf(vars, ev), BucketIndex(param, EventIndex(fl, param, ev));
    ScanMatchInBucket(fl, Some(param), declared, ctx);
    FoundIsChain(fl, declared, ctx);
    DispatchedCases(fl, param, declared, vars, ev);
    BucketFailsIff(fl, Some(param), declared, exact, ctx);
    var scan := FirstHolding(fl, declared, ctx);
    if scan.At? {
      var conds := scan.bindings[0].conds;
      var i :| 0 <= i < |declared| && declared[i] == scan.bindings;
      HoldsIff(fl, conds, ctx);
      HoldingIsReached(fl, param, conds, vars, ev);
      if FirstHolding(fl, InBucket(fl, Some(param), declared, exact), ctx).At? {
        var k := BucketMatchIsEarliest(fl, Some(param), declared, exact, ctx);
      }
    }
  }

  // ---- A single static condition ----

  function SingleChain(param: EventParam, v: Value, output: nat): Chain {
    [Binding([Condition(Parameter(param.name), Expression(Static(v), []))], output, false, false)]
  }

  predicate Accepts(fl: Floats, param: EventParam, v: Value, ev: Event)
    requires Fits(param, ev)
  {
    ValuesMatch(fl, ev.params[param.name], v)
  }

  /** A binding on one literal is found by every event it accepts if and only if the literal is
      exact. */
  lemma SingleConditionFoundIff(fl: Floats, param: EventParam, v: Value, output: nat, vars: map<string, Value>)
    requires param.isInt && param.maxIndex > 0
    ensures AllChains([SingleChain(param, v, output)])
    ensures (forall ev: Event | Fits(param, ev) && Accepts(fl, param, v, ev) ::
               Dispatched(fl, Some(param), [SingleChain(param, v, output)], vars, ev).Matched?)
        <==> ExactValue(fl, param, v)
  {
    var declared: seq<Chain> := [SingleChain(param, v, output)];
    var found := forall ev: Event | Fits(param, ev) && Accepts(fl, param, v, ev) ::
                   Dispatched(fl, Some(param), declared, vars, ev).Matched?;
    forall ev: Event | Fits(param, ev) && Accepts(fl, param, v, ev)
      ensures Dispatched(fl, Some(param), declared, vars, ev).Matched?
          <==> Reached(fl, param, declared[0][0].conds, ev)
    {
      SingleDispatch(fl, param, v, output, vars, ev);
    }
    var reached := forall ev: Event | Fits(param, ev) && Accepts(fl, param, v, ev) ::
                     Reached(fl, param, declared[0][0].conds, ev);
    assert found <==> reached;
    AllReachIff(fl, param, v, output);
  }

  lemma AllReachIff(fl: Floats, param: EventParam, v: Value, output: nat)
    requires param.isInt && param.maxIndex > 0
    ensures (forall ev: Event | Fits(param, ev) && Accepts(fl, param, v, ev) ::
               Reached(fl, param, SingleChain(param, v, output)[0].conds, ev))
        <==> ExactValue(fl, param, v)
  {
    var conds := SingleChain(param, v, output)[0].conds;
    var b := BucketIndex(param, AsI32(fl, v));
    assert conds[..0] == [];
    if b != param.maxIndex && forall ev: Event | Fits(param, ev) && Accepts(fl, param, v, ev) :: Reached(fl, param, conds, ev) {
      forall e: I32 | ValuesMatch(fl, Int(e), v)
        ensures BucketIndex(param, e) == b
      {
        var ev := Event(OtherKind, map[param.name := Int(e)]);
        assert Fits(param, ev) && Accepts(fl, param, v, ev);
      }
    }
  }

  /** So a literal range works on the indexed parameter only in these cases. */
  lemma RangeConditionFoundIff(fl: Floats, param: EventParam, lo: I32, hi: I32, output: nat, vars: map<string, Value>)
    requires param.isInt && param.maxIndex > 0
    ensures AllChains([SingleChain(param, Range(lo, hi), output)])
    ensures (forall ev: Event | Fits(param, ev) && Accepts(fl, param, Range(lo, hi), ev) ::
               Dispatched(fl, Some(param), [SingleChain(param, Range(lo, hi), output)], vars, ev).Matched?)
        <==> RangeIsExact(param.maxIndex, lo, hi)
  {
    SingleConditionFoundIff(fl, param, Range(lo, hi), output, vars);
    RangeExactIff(fl, param, lo, hi);
  }

  lemma SingleDispatch(fl: Floats, param: EventParam, v: Value, output: nat, vars: map<string, Value>, ev: Event)
    requires param.isInt && param.maxIndex > 0 && Fits(param, ev) && Accepts(fl, param, v, ev)
    ensures var chain := SingleChain(param, v, output);
      && AllChains([chain])
      && (Dispatched(fl, Some(param), [chain], vars, ev).Matched? <==> Reached(fl, param, chain[0].conds, ev))
  {
    var chain, ctx := SingleChain(param, v, output), ContextOf(vars, ev);
    var exact := BucketIndex(param, EventIndex(fl, param, ev));
    assert chain[0].conds[1..] == [];
    assert VerdictOf(fl, chain[0].conds, ctx).Holds?;
    DispatchedCases(fl, param, [chain], vars, ev);
    BucketFailsIff(fl, Some(param), [chain], exact, ctx);
    BucketFailsIff(fl, Some(param), [chain], param.maxIndex, ctx);
  }

  // ---- Literal conditions by their numbers ----

  /** A binding on a variable matches whenever the variable has the literal's number, whatever the
      event's own number is. */
  lemma VariableDispatchIff(fl: Floats, param: EventParam, name: string, v: Value, output: nat, vars: map<string, Value>, ev: Event)
    requires param.isInt && param.maxIndex > 0 && Fits(param, ev) && name in vars && vars[name].Int? && Number(v).Some?
    ensures var chain: Chain := [Binding([Condition(Variable(name), Expression(Static(v), []))], output, false, false)];
      && AllChains([chain])
      && (Dispatched(fl, Some(param), [chain], vars, ev).Matched? <==> vars[name].i == Number(v).value)
  {
    var conds := [Condition(Variable(name), Expression(Static(v), []))];
    var declared: seq<Chain> := [[Binding(conds, output, false, false)]];
    var ctx := ContextOf(vars, ev);
    VariableHoldsIff(fl, name, v, ctx);
    assert conds[1..] == [] && conds[..0] == [];
    DispatchMissesNothing(fl, param, declared, vars, ev);
    DispatchedCases(fl, param, declared, vars, ev);
  }

  /** When a condition holds, by the numbers: both sides have the same one, or one is a range that
      the other's number is in. */
  lemma LiteralHoldsIff(fl: Floats, name: string, v: Value, ctx: Context)
    requires ctx.event.Some? && name in ctx.event.value && ctx.event.value[name].Int?
    ensures var e, verdict := ctx.event.value[name].i, ConditionVerdict(fl, Condition(Parameter(name), Expression(Static(v), [])), ctx);
      && !verdict.Aborts?
      && (Number(v).Some? ==> (verdict.Holds? <==> e == Number(v).value))
      && (v.Range? ==> (verdict.Holds? <==> v.lo <= e <= v.hi))
  {
    MatchIsNumeric(fl, ctx.event.value[name], v);
  }

  lemma VariableHoldsIff(fl: Floats, name: string, v: Value, ctx: Context)
    requires name in ctx.variables && ctx.variables[name].Int?
    ensures var e, verdict := ctx.variables[name].i, ConditionVerdict(fl, Condition(Variable(name), Expression(Static(v), [])), ctx);
      && !verdict.Aborts?
      && (Number(v).Some? ==> (verdict.Holds? <==> e == Number(v).value))
      && (v.Range? ==> (verdict.Holds? <==> v.lo <= e <= v.hi))
  {
    MatchIsNumeric(fl, ctx.variables[name], v);
  }

  /** A table whose chains each test one literal. */
  ghost predicate LiteralTable(param: EventParam, declared: seq<Chain>, literals: seq<Value>) {
    && |literals| == |declared|
    && forall i | 0 <= i < |declared| ::
         && IsChain(declared[i])
         && declared[i][0].conds == [Condition(Parameter(param.name), Expression(Static(literals[i]), []))]
  }

  lemma LiteralVerdict(fl: Floats, param: EventParam, v: Value, vars: map<string, Value>, ev: Event)
    requires param.maxIndex > 0 && Fits(param, ev)
    ensures var conds, e := [Condition(Parameter(param.name), Expression(Static(v), []))], ev.params[param.name].i;
      && !VerdictOf(fl, conds, ContextOf(vars, ev)).Aborts?
      && (Number(v).Some? ==> (VerdictOf(fl, conds, ContextOf(vars, ev)).Holds? <==> e == Number(v).value))
      && (v.Range? ==> (VerdictOf(fl, conds, ContextOf(vars, ev)).Holds? <==> v.lo <= e <= v.hi))
      && (Number(v).Some? ==> ExactConditions(fl, param, conds))
  {
    var conds := [Condition(Parameter(param.name), Expression(Static(v), []))];
    LiteralHoldsIff(fl, param.name, v, ContextOf(vars, ev));
    assert conds[1..] == [];
    if Number(v).Some? {
      ExactUnlessRangeOrFloat(fl, param, v);
    }
  }

  predicate FirstEqual(literals: seq<Value>, e: int, k: nat) {
    && k < |literals| && Number(literals[k]) == Some(e)
    && forall j | 0 <= j < k :: Number(literals[j]) != Some(e)
  }

  /** Dispatch over a table of literals, whatever their widths, takes the first that equals the
      event's number, and matches nothing exactly when none does. */
  lemma {:induction false} LiteralTableDispatch(fl: Floats, param: EventParam, declared: seq<Chain>, literals: seq<Value>,
                                                vars: map<string, Value>, ev: Event)
    requires param.isInt && param.maxIndex > 0 && Fits(param, ev) && LiteralTable(param, declared, literals)
    requires forall i | 0 <= i < |literals| :: Number(literals[i]).Some?
    ensures AllChains(declared)
    ensures var e, result := ev.params[param.name].i, Dispatched(fl, Some(param), declared, vars, ev);
      && (result.Unmatched? <==> forall i | 0 <= i < |literals| :: Number(literals[i]) != Some(e))
      && (forall k: nat | FirstEqual(literals, e, k) :: result == Matched(declared[k][0].echo, declared[k]))
  {
    var e, ctx := ev.params[param.name].i, ContextOf(vars, ev);
    forall i | 0 <= i < |declared|
      ensures !VerdictOf(fl, declared[i][0].conds, ctx).Aborts? && ExactConditions(fl, param, declared[i][0].conds)
      ensures VerdictOf(fl, declared[i][0].conds, ctx).Holds? <==> Number(literals[i]) == Some(e)
    {
      LiteralVerdict(fl, param, literals[i], vars, ev);
    }
    DispatchMissesNothing(fl, param, declared, vars, ev);
    DispatchedCases(fl, param, declared, vars, ev);
    forall k: nat | FirstEqual(literals, e, k)
      ensures Dispatched(fl, Some(param), declared, vars, ev) == Matched(declared[k][0].echo, declared[k])
    {
      FirstEqualMatches(fl, param, declared, literals, vars, ev, k);
    }
  }

  lemma {:induction false} FirstEqualMatches(fl: Floats, param: EventParam, declared: seq<Chain>, literals: seq<Value>,
                                             vars: map<string, Value>, ev: Event, k: nat)
    requires param.isInt && param.maxIndex > 0 && Fits(param, ev) && LiteralTable(param, declared, literals)
    requires AllChains(declared) && NothingAborts(fl, declared, ContextOf(vars, ev))
    requires Dispatched(fl, Some(param), declared, vars, ev).Matched?
    requires FirstEqual(literals, ev.params[param.name].i, k)
    requires forall i | 0 <= i < |declared| ::
      VerdictOf(fl, declared[i][0].conds, ContextOf(vars, ev)).Holds? <==> Number(literals[i]) == Some(ev.params[param.name].i)
    ensures Dispatched(fl, Some(param), declared, vars, ev) == Matched(declared[k][0].echo, declared[k])
  {
    var b, i := DispatchIsEarliest(fl, param, declared, vars, ev);
    LiteralBucket(fl, param, literals[k], ev);
    LiteralBucket(fl, param, literals[i], ev);
    EarliestIsFirst(fl, param, declared, b, ContextOf(vars, ev), i, k);
  }

  /** Two declarations of one bucket that hold, neither after the other's first. */
  lemma {:induction false} EarliestIsFirst(fl: Floats, param: EventParam, declared: seq<Chain>, b: nat, ctx: Context, i: nat, k: nat)
    requires param.maxIndex > 0 && AllChains(declared) && EarliestAt(fl, Some(param), declared, b, ctx, i)
    requires k < |declared| && BucketFor(fl, Some(param), declared[k][0].conds) == b
    requires VerdictOf(fl, declared[k][0].conds, ctx).Holds?
    ensures i <= k
  {
    if k < i {
      FailsAt(fl, param, declared[..i], b, ctx, k);
    }
  }

  lemma {:induction false} FailsAt(fl: Floats, param: EventParam, declared: seq<Chain>, b: nat, ctx: Context, k: nat)
    requires param.maxIndex > 0 && AllChains(declared) && BucketFails(fl, Some(param), declared, b, ctx)
    requires k < |declared| && BucketFor(fl, Some(param), declared[k][0].conds) == b
    ensures VerdictOf(fl, declared[k][0].conds, ctx).Fails?
  {
  }

  /** A literal that equals the event's number is in the event's own bucket. */
  lemma LiteralBucket(fl: Floats, param: EventParam, v: Value, ev: Event)
    requires param.isInt && param.maxIndex > 0 && Fits(param, ev) && Number(v) == Some(ev.params[param.name].i)
    ensures BucketFor(fl, Some(param), [Condition(Parameter(param.name), Expression(Static(v), []))])
         == BucketIndex(param, EventIndex(fl, param, ev))
  {
  }

  /** One literal binding matches exactly the events that carry its number. */
  lemma LiteralDispatchIff(fl: Floats, param: EventParam, v: Value, output: nat, vars: map<string, Value>, ev: Event)
    requires param.isInt && param.maxIndex > 0 && Fits(param, ev) && Number(v).Some?
    ensures AllChains([SingleChain(param, v, output)])
    ensures Dispatched(fl, Some(param), [SingleChain(param, v, output)], vars, ev).Matched?
        <==> Number(v) == Some(ev.params[param.name].i)
  {
    LiteralTableDispatch(fl, param, [SingleChain(param, v, output)], [v], vars, ev);
    assert Number(v) == Some(ev.params[param.name].i) ==> FirstEqual([v], ev.params[param.name].i, 0);
  }

  /** One range binding matches exactly the events in the range whose number the bucket of zero
      serves. */
  lemma RangeDispatchIff(fl: Floats, param: EventParam, lo: I32, hi: I32, output: nat, vars: map<string, Value>, ev: Event)
    requires param.isInt && param.maxIndex > 0 && Fits(param, ev)
    ensures AllChains([SingleChain(param, Range(lo, hi), output)])
    ensures var e := ev.params[param.name].i;
      Dispatched(fl, Some(param), [SingleChain(param, Range(lo, hi), output)], vars, ev).Matched?
      <==> lo <= e <= hi && e >= 0 && e % param.maxIndex == 0
  {
    var declared: seq<Chain> := [SingleChain(param, Range(lo, hi), output)];
    var ctx, exact := ContextOf(vars, ev), BucketIndex(param, EventIndex(fl, param, ev));
    LiteralVerdict(fl, param, Range(lo, hi), vars, ev);
    assert declared[0][0].conds[..0] == [];
    DivModUnique(0, 0, 0, param.maxIndex);
    DispatchedCases(fl, param, declared, vars, ev);
    BucketFailsIff(fl, Some(param), declared, exact, ctx);
    BucketFailsIff(fl, Some(param), declared, param.maxIndex, ctx);
  }

  /** A literal range of letter keys: no key in it finds its binding. */
  lemma LetterKeysAreMissed(fl: Floats, output: nat, vars: map<string, Value>, e: I32)
    requires 97 <= e <= 122
    ensures var key, ev := EventParam("key", true, 512), Event(OtherKind, map["key" := Int(e)]);
      && Fits(key, ev) && Accepts(fl, key, Range(97, 122), ev)
      && AllChains([SingleChain(key, Range(97, 122), output)])
      && Dispatched(fl, Some(key), [SingleChain(key, Range(97, 122), output)], vars, ev).Unmatched?
  {
    var key, ev := EventParam("key", true, 512), Event(OtherKind, map["key" := Int(e)]);
    SingleDispatch(fl, key, Range(97, 122), output, vars, ev);
    var declared: seq<Chain> := [SingleChain(key, Range(97, 122), output)];
    assert declared[0][0].conds[..0] == [];
    assert !VerdictOf(fl, declared[0][0].conds, ContextOf(vars, ev)).Aborts?;
    DispatchedCases(fl, key, declared, vars, ev);
  }

  /** A table without an index dispatches by the plain scan. */
  lemma {:induction false} NoIndexIsPlainScan(fl: Floats, declared: seq<Chain>)
    requires AllChains(declared)
    ensures InBucket(fl, None, declared, 0) == declared
  {
    if declared != [] {
      NoIndexIsPlainScan(fl, declared[..|declared| - 1]);
    }
  }
}
