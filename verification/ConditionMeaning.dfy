/** What a condition evaluates to, as a relation: no order of evaluation, no error values. */
module ConditionMeaning {
  import opened Wrappers
  import opened Conditions
  import opened Values

  /** Every value is true but these. */
  predicate IsTrue(v: Value) {
    v !in {Null, Bool(false), Num(0.0), Value.Text(""), List([]), Dict(map[])}
  }

  /** What a name stands for: one of the five words, a fact, or nothing. */
  ghost predicate NameIs(id: string, ctx: Context, v: Value) {
    if id in {"true", "True"} then v == Bool(true)
    else if id in {"false", "False"} then v == Bool(false)
    else if id == "None" then v == Null
    else if id in ctx then v == ctx[id] else v == Null
  }

  /** What a comparison comes to: with None only `==` and `!=` can hold; otherwise the host compares, unless it fails. */
  ghost predicate Compares(lib: Library, op: Comparison, l: Value, r: Value, holds: bool) {
    op != OtherComparison &&
    if l == Null && r == Null then holds <==> op == Eq
    else if l == Null || r == Null then holds <==> op == NotEq
    else !lib.fails(op, l, r) && (holds <==> HoldsBetween(op, l, r))
  }

  // ---- the relation ---------------------------------------------------------------

  ghost predicate AllEvaluate(lib: Library, parts: seq<Expr>, ctx: Context, values: seq<Value>)
    decreases parts
  {
    |values| == |parts| && forall i :: 0 <= i < |parts| ==> Evaluates(lib, parts[i], ctx, values[i])
  }

  /** The first operands of a comparison have these values, and each comparison between them holds. */
  ghost predicate HoldsSoFar(lib: Library, e: Expr, ctx: Context, values: seq<Value>)
    requires e.Compare?
    decreases e, 0
  {
    && 1 <= |values| <= |e.rest| + 1 && Evaluates(lib, e.first, ctx, values[0])
    && forall i :: 0 <= i < |values| - 1 ==>
         Evaluates(lib, e.rest[i].operand, ctx, values[i + 1]) && Compares(lib, e.rest[i].op, values[i], values[i + 1], true)
  }

  /** The next operand has this value, and the comparison with it does not hold. */
  ghost predicate FailsNext(lib: Library, e: Expr, ctx: Context, values: seq<Value>, next: Value)
    requires e.Compare?
    decreases e, 0
  {
    && 1 <= |values| <= |e.rest| && Evaluates(lib, e.rest[|values| - 1].operand, ctx, next)
    && Compares(lib, e.rest[|values| - 1].op, values[|values| - 1], next, false)
  }

  /** All comparisons of the chain hold. */
  ghost predicate AllHold(lib: Library, e: Expr, ctx: Context)
    requires e.Compare?
    decreases e, 1
  {
    exists values :: |values| == |e.rest| + 1 && HoldsSoFar(lib, e, ctx, values)
  }

  /** One comparison does not hold, and all before it do; what comes after it is not looked at. */
  ghost predicate OneFails(lib: Library, e: Expr, ctx: Context)
    requires e.Compare?
    decreases e, 1
  {
    exists values, next :: HoldsSoFar(lib, e, ctx, values) && FailsNext(lib, e, ctx, values, next)
  }

  ghost predicate Evaluates(lib: Library, e: Expr, ctx: Context, v: Value)
    decreases e, 2
  {
    match e
    case Constant(c) => v == c
    case Name(id) => NameIs(id, ctx, v)
    case And(parts) => exists values :: AllEvaluate(lib, parts, ctx, values) && v == Bool(forall x <- values :: IsTrue(x))
    case Or(parts) => exists values :: AllEvaluate(lib, parts, ctx, values) && v == Bool(exists x <- values :: IsTrue(x))
    case Not(inner) => exists x :: Evaluates(lib, inner, ctx, x) && v == Bool(!IsTrue(x))
    case Negate(inner) => exists x :: Evaluates(lib, inner, ctx, x) && lib.negate(x) == Some(v)
    case OtherUnary(_) => false
    case Binary(op, l, r) =>
      op != OtherArithmetic && exists x, y :: Evaluates(lib, l, ctx, x) && Evaluates(lib, r, ctx, y) && lib.arithmetic(op, x, y) == Some(v)
    case Compare(_, _) => (v == Bool(true) && AllHold(lib, e, ctx)) || (v == Bool(false) && OneFails(lib, e, ctx))
    case Subscript(target, key) => exists x, y :: Evaluates(lib, target, ctx, x) && Evaluates(lib, key, ctx, y) && lib.index(x, y) == Some(v)
    case Call(f, args, _) => f in {"len", "abs", "min", "max", "sum", "any", "all", "str", "int", "float", "round", "lower", "upper", "contains",
                                   "startswith", "endswith"}
                             && exists values :: AllEvaluate(lib, args, ctx, values) && lib.call(f, values) == Some(v)
    case ListOf(items) => exists values :: AllEvaluate(lib, items, ctx, values) && v == List(values)
    case Unsupported => false
  }

  // ---- the evaluator computes the relation -------------------------------------------

  lemma IsTrueIff(v: Value)
    ensures IsTrue(v) <==> Truthy(v)
  {
  }

  lemma ComparesIff(lib: Library, op: Comparison, l: Value, r: Value, holds: bool)
    ensures Compares(lib, op, l, r, holds) <==> Compared(lib, op, l, r) == Some(holds)
  {
  }

  /** The values of the parts, or nothing. */
  function Evaluated(lib: Library, parts: seq<Expr>, ctx: Context): (values: seq<Option<Value>>)
    ensures |values| == |parts|
  {
    seq(|parts|, i requires 0 <= i < |parts| => Eval(lib, parts[i], ctx))
  }

  /** The evaluator gives a value exactly when it is the one the expression has. */
  ghost predicate Agrees(lib: Library, e: Expr, ctx: Context) {
    forall v :: Eval(lib, e, ctx) == Some(v) <==> Evaluates(lib, e, ctx, v)
  }

  ghost predicate PartsAgree(lib: Library, parts: seq<Expr>, ctx: Context) {
    forall i :: 0 <= i < |parts| ==> Agrees(lib, parts[i], ctx)
  }

  lemma {:induction false} CollectedIff(lib: Library, parts: seq<Expr>, ctx: Context, values: seq<Value>)
    requires PartsAgree(lib, parts, ctx)
    ensures AllEvaluate(lib, parts, ctx, values) <==> Collected(Evaluated(lib, parts, ctx)) == Some(values)
  {
    var all := Collected(Evaluated(lib, parts, ctx));
    if AllEvaluate(lib, parts, ctx, values) {
      forall i | 0 <= i < |parts| ensures Evaluated(lib, parts, ctx)[i] == Some(values[i]) { assert Agrees(lib, parts[i], ctx); }
      assert all.value == values;
    }
    if all == Some(values) {
      forall i | 0 <= i < |parts| ensures Evaluates(lib, parts[i], ctx, values[i]) {
        assert Evaluated(lib, parts, ctx)[i].Some? && Agrees(lib, parts[i], ctx);
      }
    }
  }

  // ---- chains -------------------------------------------------------------------

  /** What stands to the left of the comparison at `i`. */
  function LeftOf(left: Value, operands: seq<Option<Value>>, i: nat): Option<Value>
    requires i <= |operands|
  {
    if i == 0 then Some(left) else operands[i - 1]
  }

  ghost predicate LinkIs(lib: Library, left: Value, rest: seq<Link>, operands: seq<Option<Value>>, i: nat, holds: bool)
    requires i < |rest| == |operands|
  {
    var l := LeftOf(left, operands, i);
    l.Some? && operands[i].Some? && Compared(lib, rest[i].op, l.value, operands[i].value) == Some(holds)
  }

  ghost predicate LinksHold(lib: Library, left: Value, rest: seq<Link>, operands: seq<Option<Value>>, k: nat)
    requires k <= |rest| == |operands|
  {
    forall i :: 0 <= i < k ==> LinkIs(lib, left, rest, operands, i, true)
  }

  lemma LaterLink(lib: Library, left: Value, rest: seq<Link>, operands: seq<Option<Value>>, i: nat, holds: bool)
    requires 0 < |rest| == |operands| && i < |rest| - 1 && operands[0].Some?
    ensures LinkIs(lib, operands[0].value, rest[1..], operands[1..], i, holds) <==> LinkIs(lib, left, rest, operands, i + 1, holds)
  {
  }

  lemma LaterLinks(lib: Library, left: Value, rest: seq<Link>, operands: seq<Option<Value>>, k: nat)
    requires 0 < |rest| == |operands| && k <= |rest| - 1 && operands[0].Some?
    ensures LinkIs(lib, left, rest, operands, 0, true) && LinksHold(lib, operands[0].value, rest[1..], operands[1..], k) <==>
      LinksHold(lib, left, rest, operands, k + 1)
  {
    if LinksHold(lib, operands[0].value, rest[1..], operands[1..], k) && LinkIs(lib, left, rest, operands, 0, true) {
      forall i | 0 <= i < k + 1 ensures LinkIs(lib, left, rest, operands, i, true) {
        if i > 0 { LaterLink(lib, left, rest, operands, i - 1, true); }
      }
    }
    if LinksHold(lib, left, rest, operands, k + 1) {
      forall i | 0 <= i < k ensures LinkIs(lib, operands[0].value, rest[1..], operands[1..], i, true) {
        LaterLink(lib, left, rest, operands, i, true);
      }
    }
  }

  /** A chain is true exactly when all its links hold. */
  lemma {:induction false} ChainTrueIff(lib: Library, left: Value, rest: seq<Link>, operands: seq<Option<Value>>)
    requires |rest| == |operands|
    ensures Chain(lib, left, rest, operands) == Some(Bool(true)) <==> LinksHold(lib, left, rest, operands, |rest|)
    decreases |rest|
  {
    if rest != [] {
      if operands[0].Some? {
        ChainTrueIff(lib, operands[0].value, rest[1..], operands[1..]);
        LaterLinks(lib, left, rest, operands, |rest| - 1);
      }
      assert LinksHold(lib, left, rest, operands, |rest|) ==> LinkIs(lib, left, rest, operands, 0, true);
    }
  }

  ghost predicate FirstToFail(lib: Library, left: Value, rest: seq<Link>, operands: seq<Option<Value>>, k: nat)
    requires |rest| == |operands|
  {
    k < |rest| && LinksHold(lib, left, rest, operands, k) && LinkIs(lib, left, rest, operands, k, false)
  }

  /** It is false exactly when one link does not hold and all before it do. */
  lemma {:induction false} ChainFalseIff(lib: Library, left: Value, rest: seq<Link>, operands: seq<Option<Value>>)
    requires |rest| == |operands|
    ensures Chain(lib, left, rest, operands) == Some(Bool(false)) <==> exists k: nat :: FirstToFail(lib, left, rest, operands, k)
    decreases |rest|
  {
    if rest != [] {
      if Chain(lib, left, rest, operands) == Some(Bool(false)) { var k := FalseFails(lib, left, rest, operands); }
      if k: nat :| FirstToFail(lib, left, rest, operands, k) { FailingIsFalse(lib, left, rest, operands, k); }
    }
  }

  lemma {:induction false} FalseFails(lib: Library, left: Value, rest: seq<Link>, operands: seq<Option<Value>>) returns (k: nat)
    requires |rest| == |operands| && Chain(lib, left, rest, operands) == Some(Bool(false))
    ensures FirstToFail(lib, left, rest, operands, k)
    decreases |rest|
  {
    if Compared(lib, rest[0].op, left, operands[0].value) == Some(false) {
      assert LinkIs(lib, left, rest, operands, 0, false);
      return 0;
    }
    k := FalseFails(lib, operands[0].value, rest[1..], operands[1..]);
    assert LinkIs(lib, left, rest, operands, 0, true);
    LaterLinks(lib, left, rest, operands, k);
    LaterLink(lib, left, rest, operands, k, false);
    k := k + 1;
  }

  lemma {:induction false} FailingIsFalse(lib: Library, left: Value, rest: seq<Link>, operands: seq<Option<Value>>, k: nat)
    requires |rest| == |operands| && FirstToFail(lib, left, rest, operands, k)
    ensures Chain(lib, left, rest, operands) == Some(Bool(false))
    decreases |rest|
  {
    if k > 0 {
      assert LinkIs(lib, left, rest, operands, 0, true);
      LaterLinks(lib, left, rest, operands, k - 1);
      LaterLink(lib, left, rest, operands, k - 1, false);
      FailingIsFalse(lib, operands[0].value, rest[1..], operands[1..], k - 1);
    }
  }

  // ---- comparisons ----------------------------------------------------------------

  function OperandsOf(lib: Library, e: Expr, ctx: Context): (operands: seq<Option<Value>>)
    requires e.Compare?
    ensures |operands| == |e.rest|
  {
    seq(|e.rest|, i requires 0 <= i < |e.rest| => Eval(lib, e.rest[i].operand, ctx))
  }

  ghost predicate OperandsAgree(lib: Library, e: Expr, ctx: Context)
    requires e.Compare?
  {
    Agrees(lib, e.first, ctx) && forall i :: 0 <= i < |e.rest| ==> Agrees(lib, e.rest[i].operand, ctx)
  }

  lemma HeldValues(lib: Library, e: Expr, ctx: Context, values: seq<Value>)
    requires e.Compare? && OperandsAgree(lib, e, ctx) && HoldsSoFar(lib, e, ctx, values)
    ensures Eval(lib, e.first, ctx) == Some(values[0])
    ensures LinksHold(lib, values[0], e.rest, OperandsOf(lib, e, ctx), |values| - 1)
  {
    var operands := OperandsOf(lib, e, ctx);
    forall i | 0 <= i < |values| - 1 ensures LinkIs(lib, values[0], e.rest, operands, i, true) {
      assert Agrees(lib, e.rest[i].operand, ctx) && (i > 0 ==> Agrees(lib, e.rest[i - 1].operand, ctx));
      assert operands[i] == Some(values[i + 1]) && (i > 0 ==> operands[i - 1] == Some(values[i]));
      ComparesIff(lib, e.rest[i].op, values[i], values[i + 1], true);
    }
  }

  /** The values to the left of the first links. */
  function LeftValues(left: Value, operands: seq<Option<Value>>, k: nat): (values: seq<Value>)
    requires k <= |operands|
    ensures |values| == k + 1
  {
    seq(k + 1, i requires 0 <= i < k + 1 => if LeftOf(left, operands, i).Some? then LeftOf(left, operands, i).value else left)
  }

  lemma ValueHeld(lib: Library, e: Expr, ctx: Context, left: Value, k: nat, i: nat)
    requires e.Compare? && i < k <= |e.rest| && Agrees(lib, e.rest[i].operand, ctx)
    requires LinkIs(lib, left, e.rest, OperandsOf(lib, e, ctx), i, true)
    ensures var values := LeftValues(left, OperandsOf(lib, e, ctx), k);
      Evaluates(lib, e.rest[i].operand, ctx, values[i + 1]) && Compares(lib, e.rest[i].op, values[i], values[i + 1], true)
  {
    var values := LeftValues(left, OperandsOf(lib, e, ctx), k);
    ComparesIff(lib, e.rest[i].op, values[i], values[i + 1], true);
  }

  /** The values of the operands whose links hold. */
  lemma ValuesHeld(lib: Library, e: Expr, ctx: Context, k: nat) returns (values: seq<Value>)
    requires e.Compare? && OperandsAgree(lib, e, ctx) && Eval(lib, e.first, ctx).Some? && k <= |e.rest|
    requires LinksHold(lib, Eval(lib, e.first, ctx).value, e.rest, OperandsOf(lib, e, ctx), k)
    ensures |values| == k + 1 && HoldsSoFar(lib, e, ctx, values)
    ensures LeftOf(Eval(lib, e.first, ctx).value, OperandsOf(lib, e, ctx), k) == Some(values[k])
  {
    var left, operands := Eval(lib, e.first, ctx).value, OperandsOf(lib, e, ctx);
    values := LeftValues(left, operands, k);
    assert Evaluates(lib, e.first, ctx, values[0]) by { assert Agrees(lib, e.first, ctx); }
    forall i | 0 <= i < k
      ensures Evaluates(lib, e.rest[i].operand, ctx, values[i + 1]) && Compares(lib, e.rest[i].op, values[i], values[i + 1], true)
    {
      ValueHeld(lib, e, ctx, left, k, i);
    }
    if k > 0 { assert LinkIs(lib, left, e.rest, operands, k - 1, true); }
  }

  lemma ComparisonValue(lib: Library, e: Expr, ctx: Context)
    requires e.Compare?
    ensures Eval(lib, e, ctx) == if Eval(lib, e.first, ctx).Some? then Chain(lib, Eval(lib, e.first, ctx).value, e.rest, OperandsOf(lib, e, ctx)) else None
  {
    var rest := e.rest;
    assert seq(|rest|, i requires 0 <= i < |rest| => Eval(lib, rest[i].operand, ctx)) == OperandsOf(lib, e, ctx);
  }

  lemma TrueMeansAllHold(lib: Library, e: Expr, ctx: Context)
    requires e.Compare? && OperandsAgree(lib, e, ctx) && Eval(lib, e, ctx) == Some(Bool(true))
    ensures AllHold(lib, e, ctx)
  {
    ComparisonValue(lib, e, ctx);
    ChainTrueIff(lib, Eval(lib, e.first, ctx).value, e.rest, OperandsOf(lib, e, ctx));
    var values := ValuesHeld(lib, e, ctx, |e.rest|);
  }

  lemma AllHoldMeansTrue(lib: Library, e: Expr, ctx: Context)
    requires e.Compare? && OperandsAgree(lib, e, ctx) && AllHold(lib, e, ctx)
    ensures Eval(lib, e, ctx) == Some(Bool(true))
  {
    var values :| |values| == |e.rest| + 1 && HoldsSoFar(lib, e, ctx, values);
    HeldValues(lib, e, ctx, values);
    ComparisonValue(lib, e, ctx);
    ChainTrueIff(lib, values[0], e.rest, OperandsOf(lib, e, ctx));
  }

  lemma FailedNext(lib: Library, e: Expr, ctx: Context, values: seq<Value>, next: Value)
    requires e.Compare? && OperandsAgree(lib, e, ctx) && HoldsSoFar(lib, e, ctx, values) && FailsNext(lib, e, ctx, values, next)
    ensures FirstToFail(lib, values[0], e.rest, OperandsOf(lib, e, ctx), |values| - 1) && Eval(lib, e.first, ctx) == Some(values[0])
  {
    HeldValues(lib, e, ctx, values);
    var k := |values| - 1;
    assert Agrees(lib, e.rest[k].operand, ctx);
    if k > 0 { assert Agrees(lib, e.rest[k - 1].operand, ctx); }
    ComparesIff(lib, e.rest[k].op, values[k], next, false);
  }

  lemma FalseMeansOneFails(lib: Library, e: Expr, ctx: Context)
    requires e.Compare? && OperandsAgree(lib, e, ctx) && Eval(lib, e, ctx) == Some(Bool(false))
    ensures OneFails(lib, e, ctx)
  {
    ComparisonValue(lib, e, ctx);
    var left, operands := Eval(lib, e.first, ctx).value, OperandsOf(lib, e, ctx);
    var k := FalseFails(lib, left, e.rest, operands);
    var values := ValuesHeld(lib, e, ctx, k);
    assert LinkIs(lib, left, e.rest, operands, k, false) && Agrees(lib, e.rest[k].operand, ctx);
    ComparesIff(lib, e.rest[k].op, values[k], operands[k].value, false);
    assert FailsNext(lib, e, ctx, values, operands[k].value);
  }

  lemma OneFailsMeansFalse(lib: Library, e: Expr, ctx: Context)
    requires e.Compare? && OperandsAgree(lib, e, ctx) && OneFails(lib, e, ctx)
    ensures Eval(lib, e, ctx) == Some(Bool(false))
  {
    var values, next :| HoldsSoFar(lib, e, ctx, values) && FailsNext(lib, e, ctx, values, next);
    FailedNext(lib, e, ctx, values, next);
    ComparisonValue(lib, e, ctx);
    FailingIsFalse(lib, values[0], e.rest, OperandsOf(lib, e, ctx), |values| - 1);
  }

  lemma {:induction false} ChainIsTruth(lib: Library, left: Value, rest: seq<Link>, operands: seq<Option<Value>>)
    requires |rest| == |operands|
    ensures Chain(lib, left, rest, operands) in {None, Some(Bool(true)), Some(Bool(false))}
    decreases |rest|
  {
    if rest != [] && operands[0].Some? { ChainIsTruth(lib, operands[0].value, rest[1..], operands[1..]); }
  }

  lemma ComparisonIsTruth(lib: Library, e: Expr, ctx: Context)
    requires e.Compare?
    ensures Eval(lib, e, ctx) in {None, Some(Bool(true)), Some(Bool(false))}
  {
    ComparisonValue(lib, e, ctx);
    if Eval(lib, e.first, ctx).Some? { ChainIsTruth(lib, Eval(lib, e.first, ctx).value, e.rest, OperandsOf(lib, e, ctx)); }
  }

  lemma ComparisonAgrees(lib: Library, e: Expr, ctx: Context)
    requires e.Compare? && OperandsAgree(lib, e, ctx)
    ensures Agrees(lib, e, ctx)
  {
    ComparisonIsTruth(lib, e, ctx);
    if Eval(lib, e, ctx) == Some(Bool(true)) { TrueMeansAllHold(lib, e, ctx); }
    if Eval(lib, e, ctx) == Some(Bool(false)) { FalseMeansOneFails(lib, e, ctx); }
    if AllHold(lib, e, ctx) { AllHoldMeansTrue(lib, e, ctx); }
    if OneFails(lib, e, ctx) { OneFailsMeansFalse(lib, e, ctx); }
  }

  // ---- the whole language -----------------------------------------------------------

  lemma CollectedAgrees(lib: Library, parts: seq<Expr>, ctx: Context)
    requires PartsAgree(lib, parts, ctx)
    ensures forall values :: AllEvaluate(lib, parts, ctx, values) <==> Collected(Evaluated(lib, parts, ctx)) == Some(values)
  {
    forall values ensures AllEvaluate(lib, parts, ctx, values) <==> Collected(Evaluated(lib, parts, ctx)) == Some(values) {
      CollectedIff(lib, parts, ctx, values);
    }
  }

  lemma TruthOfAll(values: seq<Value>)
    ensures AllTruthy(values) <==> forall x <- values :: IsTrue(x)
    ensures AnyTruthy(values) <==> exists x <- values :: IsTrue(x)
  {
    forall i | 0 <= i < |values| ensures Truthy(values[i]) <==> IsTrue(values[i]) { IsTrueIff(values[i]); }
    if AllTruthy(values) {
      forall x | x in values ensures IsTrue(x) {
        var i :| 0 <= i < |values| && values[i] == x;
        assert Truthy(values[i]);
      }
    }
    if i :| 0 <= i < |values| && Truthy(values[i]) { assert values[i] in values && IsTrue(values[i]); }
    if x :| x in values && IsTrue(x) {
      var i :| 0 <= i < |values| && values[i] == x;
      assert Truthy(values[i]);
    }
    if forall x <- values :: IsTrue(x) {
      forall i | 0 <= i < |values| ensures Truthy(values[i]) { assert values[i] in values; }
    }
  }

  lemma AndAgrees(lib: Library, parts: seq<Expr>, ctx: Context)
    requires PartsAgree(lib, parts, ctx)
    ensures Agrees(lib, And(parts), ctx)
  {
    CollectedAgrees(lib, parts, ctx);
    var all := Collected(Evaluated(lib, parts, ctx));
    assert Eval(lib, And(parts), ctx) == if all.Some? then Some(Bool(AllTruthy(all.value))) else None;
    if all.Some? { TruthOfAll(all.value); }
  }

  lemma OrAgrees(lib: Library, parts: seq<Expr>, ctx: Context)
    requires PartsAgree(lib, parts, ctx)
    ensures Agrees(lib, Or(parts), ctx)
  {
    CollectedAgrees(lib, parts, ctx);
    var all := Collected(Evaluated(lib, parts, ctx));
    assert Eval(lib, Or(parts), ctx) == if all.Some? then Some(Bool(AnyTruthy(all.value))) else None;
    if all.Some? { TruthOfAll(all.value); }
  }

  lemma CallAgrees(lib: Library, f: string, args: seq<Expr>, keywords: seq<Expr>, ctx: Context)
    requires PartsAgree(lib, args, ctx)
    ensures Agrees(lib, Call(f, args, keywords), ctx)
  {
    CollectedAgrees(lib, args, ctx);
  }

  lemma ListAgrees(lib: Library, items: seq<Expr>, ctx: Context)
    requires PartsAgree(lib, items, ctx)
    ensures Agrees(lib, ListOf(items), ctx)
  {
    CollectedAgrees(lib, items, ctx);
  }

  lemma UnaryAgrees(lib: Library, inner: Expr, ctx: Context)
    requires Agrees(lib, inner, ctx)
    ensures Agrees(lib, Not(inner), ctx) && Agrees(lib, Negate(inner), ctx)
  {
  }

  lemma BinaryAgrees(lib: Library, op: Arithmetic, l: Expr, r: Expr, ctx: Context)
    requires Agrees(lib, l, ctx) && Agrees(lib, r, ctx)
    ensures Agrees(lib, Binary(op, l, r), ctx) && Agrees(lib, Subscript(l, r), ctx)
  {
  }

  /** The evaluator gives a value exactly when it is the one the expression has: of a comparison it looks at operands as far as
      comparisons hold, of everything else at all parts. */
  lemma {:induction false} EvaluatorAgrees(lib: Library, e: Expr, ctx: Context)
    ensures Agrees(lib, e, ctx)
    decreases e
  {
    match e
    case And(parts) =>
      forall i | 0 <= i < |parts| ensures Agrees(lib, parts[i], ctx) { EvaluatorAgrees(lib, parts[i], ctx); }
      AndAgrees(lib, parts, ctx);
    case Or(parts) =>
      forall i | 0 <= i < |parts| ensures Agrees(lib, parts[i], ctx) { EvaluatorAgrees(lib, parts[i], ctx); }
      OrAgrees(lib, parts, ctx);
    case ListOf(items) =>
      forall i | 0 <= i < |items| ensures Agrees(lib, items[i], ctx) { EvaluatorAgrees(lib, items[i], ctx); }
      ListAgrees(lib, items, ctx);
    case Call(f, args, keywords) =>
      forall i | 0 <= i < |args| ensures Agrees(lib, args[i], ctx) { EvaluatorAgrees(lib, args[i], ctx); }
      CallAgrees(lib, f, args, keywords, ctx);
    case Not(inner) =>
      EvaluatorAgrees(lib, inner, ctx);
      UnaryAgrees(lib, inner, ctx);
    case Negate(inner) =>
      EvaluatorAgrees(lib, inner, ctx);
      UnaryAgrees(lib, inner, ctx);
    case Binary(op, l, r) =>
      EvaluatorAgrees(lib, l, ctx);
      EvaluatorAgrees(lib, r, ctx);
      BinaryAgrees(lib, op, l, r, ctx);
    case Subscript(target, key) =>
      EvaluatorAgrees(lib, target, ctx);
      EvaluatorAgrees(lib, key, ctx);
      BinaryAgrees(lib, Add, target, key, ctx);
    case Compare(first, rest) =>
      EvaluatorAgrees(lib, first, ctx);
      forall i | 0 <= i < |rest| ensures Agrees(lib, rest[i].operand, ctx) { EvaluatorAgrees(lib, rest[i].operand, ctx); }
      ComparisonAgrees(lib, e, ctx);
    case _ =>
  }
}
