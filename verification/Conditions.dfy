/** Policy conditions: an evaluator that knows literals, names, and/or/not, arithmetic, comparisons, subscripts and a
    few functions, that evaluates every operand, and that raises on anything else. */
module Conditions {
  import opened Wrappers
  import opened Values

  datatype Arithmetic = Add | Sub | Mult | Div | Mod | OtherArithmetic

  datatype Link = Link(op: Comparison, operand: Expr)

  datatype Expr =
    | Constant(v: Value)
    | Name(id: string)
    | And(parts: seq<Expr>)
    | Or(parts: seq<Expr>)
    | Not(e: Expr)
    | Negate(e: Expr)
    | OtherUnary(e: Expr)
    | Binary(operator: Arithmetic, left: Expr, right: Expr)
    | Compare(first: Expr, rest: seq<Link>)
    | Subscript(target: Expr, key: Expr)
    | Call(name: string, args: seq<Expr>, keywords: seq<Expr>)
    | ListOf(items: seq<Expr>)
    | Unsupported

  type Context = map<string, Value>

  /** The host language's other operations, `None` when they raise; and for which comparisons it fails in another way than
      by refusing the types. */
  datatype Library = Library(
    arithmetic: (Arithmetic, Value, Value) -> Option<Value>,
    negate: Value -> Option<Value>,
    index: (Value, Value) -> Option<Value>,
    call: (string, seq<Value>) -> Option<Value>,
    fails: (Comparison, Value, Value) -> bool)

  const FUNCTIONS: set<string> := {"len", "abs", "min", "max", "sum", "any", "all", "str", "int", "float", "round", "lower", "upper", "contains",
                                   "startswith", "endswith"}

  // ---- pieces -------------------------------------------------------------------

  function Lookup(ctx: Context, id: string): Value {
    if id == "true" || id == "True" then Bool(true)
    else if id == "false" || id == "False" then Bool(false)
    else if id == "None" then Null
    else if id in ctx then ctx[id] else Null
  }

  /** An unknown fact equals only another unknown, and satisfies no other comparison. */
  function Compared(lib: Library, op: Comparison, l: Value, r: Value): Option<bool> {
    if op == OtherComparison then None
    else if l == Null || r == Null then Some(if op == Eq then l == r else if op == NotEq then l != r else false)
    else if lib.fails(op, l, r) then None
    else Some(HoldsBetween(op, l, r))
  }

  /** Each operand is reached only if every comparison before it held. */
  function Chain(lib: Library, left: Value, rest: seq<Link>, values: seq<Option<Value>>): Option<Value>
    requires |values| == |rest|
    decreases |rest|
  {
    if rest == [] then Some(Bool(true))
    else if values[0] == None then None
    else
      match Compared(lib, rest[0].op, left, values[0].value)
      case None => None
      case Some(holds) => if holds then Chain(lib, values[0].value, rest[1..], values[1..]) else Some(Bool(false))
  }

  /** The values, unless one of them raised. */
  function Collected(values: seq<Option<Value>>): (all: Option<seq<Value>>)
    ensures all.Some? <==> forall i :: 0 <= i < |values| ==> values[i].Some?
    ensures all.Some? ==> |all.value| == |values| && forall i :: 0 <= i < |values| ==> all.value[i] == values[i].value
  {
    if values == [] then Some([])
    else if values[0] == None then None
    else
      var rest := Collected(values[1..]);
      if rest.Some? then Some([values[0].value] + rest.value) else None
  }

  predicate AllTruthy(values: seq<Value>) {
    forall i :: 0 <= i < |values| ==> Truthy(values[i])
  }

  predicate AnyTruthy(values: seq<Value>) {
    exists i :: 0 <= i < |values| && Truthy(values[i])
  }

  // ---- the evaluator --------------------------------------------------------------

  /** Every operand of and/or is evaluated; the result is a boolean. A call's keyword arguments are not looked at.
      `None` stands for a condition error. */
  function Eval(lib: Library, e: Expr, ctx: Context): Option<Value> {
    match e
    case Constant(v) => Some(v)
    case Name(id) => Some(Lookup(ctx, id))
    case And(parts) =>
      var all := Collected(seq(|parts|, i requires 0 <= i < |parts| => Eval(lib, parts[i], ctx)));
      if all.Some? then Some(Bool(AllTruthy(all.value))) else None
    case Or(parts) =>
      var all := Collected(seq(|parts|, i requires 0 <= i < |parts| => Eval(lib, parts[i], ctx)));
      if all.Some? then Some(Bool(AnyTruthy(all.value))) else None
    case Not(inner) =>
      var v := Eval(lib, inner, ctx);
      if v.Some? then Some(Bool(!Truthy(v.value))) else None
    case Negate(inner) =>
      var v := Eval(lib, inner, ctx);
      if v.Some? then lib.negate(v.value) else None
    case OtherUnary(_) => None
    case Binary(op, l, r) =>
      var x, y := Eval(lib, l, ctx), Eval(lib, r, ctx);
      if op != OtherArithmetic && x.Some? && y.Some? then lib.arithmetic(op, x.value, y.value) else None
    case Compare(first, rest) =>
      var left := Eval(lib, first, ctx);
      var values := seq(|rest|, i requires 0 <= i < |rest| => Eval(lib, rest[i].operand, ctx));
      if left.Some? then Chain(lib, left.value, rest, values) else None
    case Subscript(target, key) =>
      var t, k := Eval(lib, target, ctx), Eval(lib, key, ctx);
      if t.Some? && k.Some? then lib.index(t.value, k.value) else None
    case Call(f, args, _) =>
      var all := Collected(seq(|args|, i requires 0 <= i < |args| => Eval(lib, args[i], ctx)));
      if f in FUNCTIONS && all.Some? then lib.call(f, all.value) else None
    case ListOf(items) =>
      var all := Collected(seq(|items|, i requires 0 <= i < |items| => Eval(lib, items[i], ctx)));
      if all.Some? then Some(List(all.value)) else None
    case Unsupported => None
  }

  /** What the engine asks for: the truth of the value, or an error. */
  function Evaluate(lib: Library, e: Expr, ctx: Context): Option<bool> {
    var v := Eval(lib, e, ctx);
    if v.Some? then Some(Truthy(v.value)) else None
  }

  // ---- short circuit --------------------------------------------------------------

  function FirstFalsy(values: seq<Option<Value>>): Option<Value> {
    if values == [] then Some(Bool(true))
    else if values[0] == None then None
    else if !Truthy(values[0].value) then Some(Bool(false))
    else FirstFalsy(values[1..])
  }

  function FirstTruthy(values: seq<Option<Value>>): Option<Value> {
    if values == [] then Some(Bool(false))
    else if values[0] == None then None
    else if Truthy(values[0].value) then Some(Bool(true))
    else FirstTruthy(values[1..])
  }

  /** The same language with the usual meaning of and/or: operands after the deciding one are not looked at. */
  function Lazy(lib: Library, e: Expr, ctx: Context): Option<Value> {
    match e
    case Constant(v) => Some(v)
    case Name(id) => Some(Lookup(ctx, id))
    case And(parts) => FirstFalsy(seq(|parts|, i requires 0 <= i < |parts| => Lazy(lib, parts[i], ctx)))
    case Or(parts) => FirstTruthy(seq(|parts|, i requires 0 <= i < |parts| => Lazy(lib, parts[i], ctx)))
    case Not(inner) =>
      var v := Lazy(lib, inner, ctx);
      if v.Some? then Some(Bool(!Truthy(v.value))) else None
    case Negate(inner) =>
      var v := Lazy(lib, inner, ctx);
      if v.Some? then lib.negate(v.value) else None
    case OtherUnary(_) => None
    case Binary(op, l, r) =>
      var x, y := Lazy(lib, l, ctx), Lazy(lib, r, ctx);
      if op != OtherArithmetic && x.Some? && y.Some? then lib.arithmetic(op, x.value, y.value) else None
    case Compare(first, rest) =>
      var left := Lazy(lib, first, ctx);
      var values := seq(|rest|, i requires 0 <= i < |rest| => Lazy(lib, rest[i].operand, ctx));
      if left.Some? then Chain(lib, left.value, rest, values) else None
    case Subscript(target, key) =>
      var t, k := Lazy(lib, target, ctx), Lazy(lib, key, ctx);
      if t.Some? && k.Some? then lib.index(t.value, k.value) else None
    case Call(f, args, _) =>
      var all := Collected(seq(|args|, i requires 0 <= i < |args| => Lazy(lib, args[i], ctx)));
      if f in FUNCTIONS && all.Some? then lib.call(f, all.value) else None
    case ListOf(items) =>
      var all := Collected(seq(|items|, i requires 0 <= i < |items| => Lazy(lib, items[i], ctx)));
      if all.Some? then Some(List(all.value)) else None
    case Unsupported => None
  }

  /** Where one list has a value, the other has the same. */
  ghost predicate Refines(eager: seq<Option<Value>>, lazy: seq<Option<Value>>) {
    |eager| == |lazy| && forall i :: 0 <= i < |eager| && eager[i].Some? ==> lazy[i] == eager[i]
  }

  lemma {:induction false} FirstFalsyIsAll(values: seq<Option<Value>>)
    requires forall i :: 0 <= i < |values| ==> values[i].Some?
    ensures FirstFalsy(values) == Some(Bool(AllTruthy(Collected(values).value)))
  {
    if values != [] {
      FirstFalsyIsAll(values[1..]);
      var all, rest := Collected(values).value, Collected(values[1..]).value;
      assert all == [values[0].value] + rest;
      if Truthy(values[0].value) { assert AllTruthy(all) == AllTruthy(rest); }
    }
  }

  lemma {:induction false} FirstTruthyIsAny(values: seq<Option<Value>>)
    requires forall i :: 0 <= i < |values| ==> values[i].Some?
    ensures FirstTruthy(values) == Some(Bool(AnyTruthy(Collected(values).value)))
  {
    if values != [] {
      FirstTruthyIsAny(values[1..]);
      var all, rest := Collected(values).value, Collected(values[1..]).value;
      assert all == [values[0].value] + rest;
      if AnyTruthy(rest) {
        var i :| 0 <= i < |rest| && Truthy(rest[i]);
        assert all[i + 1] == rest[i];
      }
    }
  }

  lemma {:induction false} ChainRefines(lib: Library, left: Value, rest: seq<Link>, eager: seq<Option<Value>>, lazy: seq<Option<Value>>)
    requires |rest| == |eager| && Refines(eager, lazy) && Chain(lib, left, rest, eager).Some?
    ensures Chain(lib, left, rest, lazy) == Chain(lib, left, rest, eager)
    decreases |rest|
  {
    if rest != [] && Compared(lib, rest[0].op, left, eager[0].value) == Some(true) {
      ChainRefines(lib, eager[0].value, rest[1..], eager[1..], lazy[1..]);
    }
  }

  lemma SameCollected(eager: seq<Option<Value>>, lazy: seq<Option<Value>>)
    requires Refines(eager, lazy) && Collected(eager).Some?
    ensures lazy == eager
  {
  }

  /** If the eager evaluator gives a value, short-circuit evaluation gives the same one. */
  lemma {:induction false} EagerAgreesWithShortCircuit(lib: Library, e: Expr, ctx: Context)
    requires Eval(lib, e, ctx).Some?
    ensures Lazy(lib, e, ctx) == Eval(lib, e, ctx)
  {
    match e
    case And(parts) =>
      var eager := seq(|parts|, i requires 0 <= i < |parts| => Eval(lib, parts[i], ctx));
      var lazy := seq(|parts|, i requires 0 <= i < |parts| => Lazy(lib, parts[i], ctx));
      forall i | 0 <= i < |parts| && eager[i].Some? ensures lazy[i] == eager[i] { EagerAgreesWithShortCircuit(lib, parts[i], ctx); }
      SameCollected(eager, lazy);
      FirstFalsyIsAll(eager);
    case Or(parts) =>
      var eager := seq(|parts|, i requires 0 <= i < |parts| => Eval(lib, parts[i], ctx));
      var lazy := seq(|parts|, i requires 0 <= i < |parts| => Lazy(lib, parts[i], ctx));
      forall i | 0 <= i < |parts| && eager[i].Some? ensures lazy[i] == eager[i] { EagerAgreesWithShortCircuit(lib, parts[i], ctx); }
      SameCollected(eager, lazy);
      FirstTruthyIsAny(eager);
    case Not(inner) => EagerAgreesWithShortCircuit(lib, inner, ctx);
    case Negate(inner) => EagerAgreesWithShortCircuit(lib, inner, ctx);
    case Binary(_, l, r) =>
      EagerAgreesWithShortCircuit(lib, l, ctx);
      EagerAgreesWithShortCircuit(lib, r, ctx);
    case Compare(first, rest) =>
      EagerAgreesWithShortCircuit(lib, first, ctx);
      var eager := seq(|rest|, i requires 0 <= i < |rest| => Eval(lib, rest[i].operand, ctx));
      var lazy := seq(|rest|, i requires 0 <= i < |rest| => Lazy(lib, rest[i].operand, ctx));
      forall i | 0 <= i < |rest| && eager[i].Some? ensures lazy[i] == eager[i] {
        EagerAgreesWithShortCircuit(lib, rest[i].operand, ctx);
      }
      ChainRefines(lib, Eval(lib, first, ctx).value, rest, eager, lazy);
    case Subscript(target, key) =>
      EagerAgreesWithShortCircuit(lib, target, ctx);
      EagerAgreesWithShortCircuit(lib, key, ctx);
    case Call(_, args, _) =>
      var eager := seq(|args|, i requires 0 <= i < |args| => Eval(lib, args[i], ctx));
      var lazy := seq(|args|, i requires 0 <= i < |args| => Lazy(lib, args[i], ctx));
      forall i | 0 <= i < |args| && eager[i].Some? ensures lazy[i] == eager[i] { EagerAgreesWithShortCircuit(lib, args[i], ctx); }
      SameCollected(eager, lazy);
    case ListOf(items) =>
      var eager := seq(|items|, i requires 0 <= i < |items| => Eval(lib, items[i], ctx));
      var lazy := seq(|items|, i requires 0 <= i < |items| => Lazy(lib, items[i], ctx));
      forall i | 0 <= i < |items| && eager[i].Some? ensures lazy[i] == eager[i] { EagerAgreesWithShortCircuit(lib, items[i], ctx); }
      SameCollected(eager, lazy);
    case _ =>
  }
}
