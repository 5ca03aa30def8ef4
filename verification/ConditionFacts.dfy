/** What a condition can never do: evaluate past something unsupported, or turn true because a fact went missing. */
module ConditionFacts {
  import opened Wrappers
  import opened Conditions
  import opened Values

  // ---- nothing unsupported is stepped over ----------------------------------------

  /** Something the evaluator does not support stands where it is always reached: anywhere but after the first
      comparison of a chain or in a keyword argument of a call. */
  predicate Tainted(e: Expr) {
    match e
    case And(parts) => exists i :: 0 <= i < |parts| && Tainted(parts[i])
    case Or(parts) => exists i :: 0 <= i < |parts| && Tainted(parts[i])
    case Not(inner) => Tainted(inner)
    case Negate(inner) => Tainted(inner)
    case OtherUnary(_) => true
    case Binary(op, l, r) => op == OtherArithmetic || Tainted(l) || Tainted(r)
    case Compare(first, rest) => Tainted(first) || (rest != [] && (rest[0].op == OtherComparison || Tainted(rest[0].operand)))
    case Subscript(target, key) => Tainted(target) || Tainted(key)
    case Call(f, args, _) => f !in FUNCTIONS || exists i :: 0 <= i < |args| && Tainted(args[i])
    case ListOf(items) => exists i :: 0 <= i < |items| && Tainted(items[i])
    case Unsupported => true
    case _ => false
  }

  /** Whatever else the condition says, it then gives no value: and/or cannot hide it. */
  lemma {:induction false} TaintedNeverEvaluates(lib: Library, e: Expr, ctx: Context)
    requires Tainted(e)
    ensures Eval(lib, e, ctx) == None
  {
    match e
    case And(parts) =>
      var i :| 0 <= i < |parts| && Tainted(parts[i]);
      TaintedNeverEvaluates(lib, parts[i], ctx);
      assert seq(|parts|, i requires 0 <= i < |parts| => Eval(lib, parts[i], ctx))[i] == None;
    case Or(parts) =>
      var i :| 0 <= i < |parts| && Tainted(parts[i]);
      TaintedNeverEvaluates(lib, parts[i], ctx);
      assert seq(|parts|, i requires 0 <= i < |parts| => Eval(lib, parts[i], ctx))[i] == None;
    case Not(inner) => TaintedNeverEvaluates(lib, inner, ctx);
    case Negate(inner) => TaintedNeverEvaluates(lib, inner, ctx);
    case Binary(op, l, r) =>
      if Tainted(l) { TaintedNeverEvaluates(lib, l, ctx); } else if Tainted(r) { TaintedNeverEvaluates(lib, r, ctx); }
    case Compare(first, rest) =>
      if Tainted(first) { TaintedNeverEvaluates(lib, first, ctx); }
      else if Tainted(rest[0].operand) { TaintedNeverEvaluates(lib, rest[0].operand, ctx); }
    case Subscript(target, key) =>
      if Tainted(target) { TaintedNeverEvaluates(lib, target, ctx); } else { TaintedNeverEvaluates(lib, key, ctx); }
    case Call(f, args, _) =>
      if f in FUNCTIONS {
        var i :| 0 <= i < |args| && Tainted(args[i]);
        TaintedNeverEvaluates(lib, args[i], ctx);
        assert seq(|args|, i requires 0 <= i < |args| => Eval(lib, args[i], ctx))[i] == None;
      }
    case ListOf(items) =>
      var i :| 0 <= i < |items| && Tainted(items[i]);
      TaintedNeverEvaluates(lib, items[i], ctx);
      assert seq(|items|, i requires 0 <= i < |items| => Eval(lib, items[i], ctx))[i] == None;
    case _ =>
  }

  /** Short-circuit evaluation would step over an unsupported part that the evaluator refuses. */
  lemma ShortCircuitWouldHideIt(lib: Library, ctx: Context)
    ensures var e := Or([Name("true"), Unsupported]); Lazy(lib, e, ctx) == Some(Bool(true)) && Eval(lib, e, ctx) == None
  {
    var e := Or([Name("true"), Unsupported]);
    assert Tainted(e.parts[1]);
    TaintedNeverEvaluates(lib, e, ctx);
  }

  /** Keyword arguments are stepped over: whatever stands in one, the call evaluates as without it. */
  lemma KeywordsAreSteppedOver(lib: Library, f: string, args: seq<Expr>, keywords: seq<Expr>, ctx: Context)
    ensures Eval(lib, Call(f, args, keywords), ctx) == Eval(lib, Call(f, args, []), ctx)
  {
    assert seq(|args|, i requires 0 <= i < |args| => Eval(lib, args[i], ctx)) == seq(|args|, i requires 0 <= i < |args| => Eval(lib, args[i], ctx));
  }

  // ---- missing facts ----------------------------------------------------------------

  /** Facts were removed, none added and none changed. */
  predicate Fewer(less: Context, full: Context) {
    forall k <- less :: k in full && less[k] == full[k]
  }

  /** No library and no facts make the condition false, and fewer facts make it true. */
  ghost predicate NeverGained(e: Expr) {
    forall lib: Library, full: Context, less: Context ::
      Fewer(less, full) && Evaluate(lib, e, full) == Some(false) ==> Evaluate(lib, e, less) != Some(true)
  }

  predicate FreeName(e: Expr) {
    e.Name? && e.id !in {"true", "True", "false", "False", "None"}
  }

  predicate IsConstant(e: Expr) {
    match e
    case Constant(_) => true
    case Name(_) => !FreeName(e)
    case ListOf(items) => forall i :: 0 <= i < |items| ==> IsConstant(items[i])
    case _ => false
  }

  predicate IsNone(e: Expr) {
    e == Constant(Null) || e == Name("None")
  }

  predicate Operand(e: Expr) {
    IsConstant(e) || FreeName(e)
  }

  /** `==` needs a constant that is not None or the same name twice, `!=` needs None or the same name twice, other
      comparisons need nothing. */
  predicate SafeComparison(op: Comparison, a: Expr, b: Expr) {
    || (IsConstant(a) && IsConstant(b))
    || match op
       case Eq => a == b || (IsConstant(a) && !IsNone(a)) || (IsConstant(b) && !IsNone(b))
       case NotEq => a == b || IsNone(a) || IsNone(b)
       case _ => true
  }

  /** The value of a constant. */
  function ConstantOf(e: Expr): Value
    requires IsConstant(e)
  {
    match e
    case Constant(v) => v
    case Name(id) => Lookup(map[], id)
    case ListOf(items) => List(seq(|items|, i requires 0 <= i < |items| => ConstantOf(items[i])))
  }

  /** A constant has its value whatever the facts are. */
  lemma {:induction false} ConstantValue(lib: Library, e: Expr, ctx: Context)
    requires IsConstant(e)
    ensures Eval(lib, e, ctx) == Some(ConstantOf(e)) && (ConstantOf(e) == Null <==> IsNone(e))
  {
    match e
    case ListOf(items) =>
      var x := seq(|items|, i requires 0 <= i < |items| => Eval(lib, items[i], ctx));
      forall i | 0 <= i < |items| ensures x[i] == Some(ConstantOf(items[i])) { ConstantValue(lib, items[i], ctx); }
      assert Collected(x).value == seq(|items|, i requires 0 <= i < |items| => ConstantOf(items[i]));
    case _ =>
  }

  /** With fewer facts an operand keeps its value or becomes None, and only a free name can. */
  lemma OperandValue(lib: Library, e: Expr, full: Context, less: Context)
    requires Operand(e) && Fewer(less, full)
    ensures Eval(lib, e, full).Some?
    ensures Eval(lib, e, less) == Eval(lib, e, full) || (FreeName(e) && Eval(lib, e, less) == Some(Null))
    ensures IsConstant(e) ==> (Eval(lib, e, full) == Some(Null) <==> IsNone(e))
  {
    if IsConstant(e) {
      ConstantValue(lib, e, full);
      ConstantValue(lib, e, less);
    }
  }

  lemma SafeLink(lib: Library, op: Comparison, a: Expr, b: Expr, full: Context, less: Context)
    requires Operand(a) && Operand(b) && SafeComparison(op, a, b) && Fewer(less, full)
    requires Eval(lib, a, less).Some? && Eval(lib, b, less).Some? && Eval(lib, a, full).Some? && Eval(lib, b, full).Some?
    requires Compared(lib, op, Eval(lib, a, less).value, Eval(lib, b, less).value) == Some(true)
    ensures Compared(lib, op, Eval(lib, a, full).value, Eval(lib, b, full).value) != Some(false)
  {
    OperandValue(lib, a, full, less);
    OperandValue(lib, b, full, less);
    EqualIsReflexive(Eval(lib, a, full).value);
  }

  /** And/or over names, constants and comparisons that are safe link by link. */
  predicate Fragment(e: Expr) {
    match e
    case And(parts) => forall i :: 0 <= i < |parts| ==> Fragment(parts[i])
    case Or(parts) => forall i :: 0 <= i < |parts| ==> Fragment(parts[i])
    case Compare(first, rest) => Operand(first) && SafeChain(first, rest)
    case _ => Operand(e)
  }

  predicate SafeChain(first: Expr, rest: seq<Link>)
    decreases |rest|
  {
    rest == [] || (Operand(rest[0].operand) && SafeComparison(rest[0].op, first, rest[0].operand) && SafeChain(rest[0].operand, rest[1..]))
  }

  function Operands(lib: Library, rest: seq<Link>, ctx: Context): (values: seq<Option<Value>>)
    ensures |values| == |rest|
  {
    seq(|rest|, i requires 0 <= i < |rest| => Eval(lib, rest[i].operand, ctx))
  }

  lemma {:induction false} SafeChainHolds(lib: Library, first: Expr, rest: seq<Link>, full: Context, less: Context)
    requires Operand(first) && SafeChain(first, rest) && Fewer(less, full)
    requires Eval(lib, first, full).Some? && Eval(lib, first, less).Some?
    requires Chain(lib, Eval(lib, first, less).value, rest, Operands(lib, rest, less)) == Some(Bool(true))
    ensures Chain(lib, Eval(lib, first, full).value, rest, Operands(lib, rest, full)) in {None, Some(Bool(true))}
    decreases |rest|
  {
    if rest != [] {
      var next := rest[0].operand;
      OperandValue(lib, next, full, less);
      SafeLink(lib, rest[0].op, first, next, full, less);
      assert Operands(lib, rest, full)[1..] == Operands(lib, rest[1..], full);
      assert Operands(lib, rest, less)[1..] == Operands(lib, rest[1..], less);
      SafeChainHolds(lib, next, rest[1..], full, less);
    }
  }

  ghost predicate Holds(v: Option<Value>) {
    v.Some? && Truthy(v.value)
  }

  lemma {:induction false} ChainIsBoolean(lib: Library, left: Value, rest: seq<Link>, values: seq<Option<Value>>)
    requires |rest| == |values|
    ensures Chain(lib, left, rest, values) in {None, Some(Bool(true)), Some(Bool(false))}
    decreases |rest|
  {
    if rest != [] && values[0].Some? { ChainIsBoolean(lib, values[0].value, rest[1..], values[1..]); }
  }

  /** In the fragment, what holds with fewer facts holds with all of them, or cannot be evaluated with all of them. */
  lemma {:induction false} FragmentKeeps(lib: Library, e: Expr, full: Context, less: Context)
    requires Fragment(e) && Fewer(less, full) && Eval(lib, e, full).Some? && Holds(Eval(lib, e, less))
    ensures Holds(Eval(lib, e, full))
  {
    match e
    case And(parts) =>
      var x := seq(|parts|, i requires 0 <= i < |parts| => Eval(lib, parts[i], full));
      var y := seq(|parts|, i requires 0 <= i < |parts| => Eval(lib, parts[i], less));
      forall i | 0 <= i < |parts| ensures Holds(x[i]) {
        assert Truthy(Collected(y).value[i]) && Eval(lib, parts[i], full) == x[i] && Eval(lib, parts[i], less) == y[i];
        FragmentKeeps(lib, parts[i], full, less);
      }
    case Or(parts) =>
      var x := seq(|parts|, i requires 0 <= i < |parts| => Eval(lib, parts[i], full));
      var y := seq(|parts|, i requires 0 <= i < |parts| => Eval(lib, parts[i], less));
      var i :| 0 <= i < |parts| && Truthy(Collected(y).value[i]);
      assert Collected(x).Some? && Eval(lib, parts[i], full) == x[i] && Eval(lib, parts[i], less) == y[i];
      FragmentKeeps(lib, parts[i], full, less);
      assert Truthy(Collected(x).value[i]);
    case Compare(first, rest) =>
      OperandValue(lib, first, full, less);
      ChainIsBoolean(lib, Eval(lib, first, less).value, rest, Operands(lib, rest, less));
      SafeChainHolds(lib, first, rest, full, less);
    case _ => OperandValue(lib, e, full, less);
  }

  /** In the fragment, removing facts never turns false into true. */
  lemma FragmentNeverGained(e: Expr)
    requires Fragment(e)
    ensures NeverGained(e)
  {
    forall lib: Library, full: Context, less: Context | Fewer(less, full) && Evaluate(lib, e, full) == Some(false)
      ensures Evaluate(lib, e, less) != Some(true)
    {
      if Holds(Eval(lib, e, less)) { FragmentKeeps(lib, e, full, less); }
    }
  }

  // ---- exactly the safe comparisons -------------------------------------------------

  /** A library in which nothing fails. */
  function PlainLibrary(): Library {
    Library((op, x, y) => Some(Null), x => Some(Null), (x, y) => Some(Null), (f, args) => Some(Null), (op, x, y) => false)
  }

  ghost predicate Gained(e: Expr, lib: Library, full: Context, less: Context) {
    Fewer(less, full) && Evaluate(lib, e, full) == Some(false) && Evaluate(lib, e, less) == Some(true)
  }

  function Single(op: Comparison, a: Expr, b: Expr): Expr {
    Compare(a, [Link(op, b)])
  }

  lemma ChainOfOne(lib: Library, left: Value, link: Link, values: seq<Option<Value>>)
    requires |values| == 1 && values[0].Some?
    ensures var holds := Compared(lib, link.op, left, values[0].value);
      Chain(lib, left, [link], values) == if holds.Some? then Some(Bool(holds.value)) else None
  {
    assert Chain(lib, values[0].value, [link][1..], values[1..]) == Some(Bool(true));
  }

  lemma SingleValue(lib: Library, op: Comparison, a: Expr, b: Expr, ctx: Context)
    requires Eval(lib, a, ctx).Some? && Eval(lib, b, ctx).Some?
    ensures Evaluate(lib, Single(op, a, b), ctx) == Compared(lib, op, Eval(lib, a, ctx).value, Eval(lib, b, ctx).value)
  {
    var rest := [Link(op, b)];
    assert Operands(lib, rest, ctx) == [Eval(lib, b, ctx)];
    ChainOfOne(lib, Eval(lib, a, ctx).value, rest[0], Operands(lib, rest, ctx));
    assert seq(|rest|, i requires 0 <= i < |rest| => Eval(lib, rest[i].operand, ctx)) == Operands(lib, rest, ctx);
  }

  lemma NameValue(lib: Library, e: Expr, ctx: Context)
    requires FreeName(e)
    ensures Eval(lib, e, ctx) == Some(if e.id in ctx then ctx[e.id] else Null)
  {
  }

  /** Facts that give the names of a comparison these values. */
  function FactsOf(a: Expr, v: Value, b: Expr, w: Value): Context {
    (if FreeName(a) then map[a.id := v] else map[]) + (if FreeName(b) then map[b.id := w] else map[])
  }

  /** The value an operand has when its name, if it is one, has the value. */
  function Given(e: Expr, v: Value): Value
    requires Operand(e)
  {
    if FreeName(e) then v else ConstantOf(e)
  }

  lemma OperandGiven(lib: Library, e: Expr, v: Value, ctx: Context)
    requires Operand(e) && (FreeName(e) ==> (if e.id in ctx then ctx[e.id] else Null) == v)
    ensures Eval(lib, e, ctx) == Some(Given(e, v))
  {
    if FreeName(e) { NameValue(lib, e, ctx); } else { ConstantValue(lib, e, ctx); }
  }

  /** The comparison on its operands' values. */
  lemma SingleGiven(op: Comparison, a: Expr, v: Value, b: Expr, w: Value, ctx: Context)
    requires Operand(a) && Operand(b)
    requires FreeName(a) ==> (if a.id in ctx then ctx[a.id] else Null) == v
    requires FreeName(b) ==> (if b.id in ctx then ctx[b.id] else Null) == w
    ensures Evaluate(PlainLibrary(), Single(op, a, b), ctx) == Compared(PlainLibrary(), op, Given(a, v), Given(b, w))
  {
    OperandGiven(PlainLibrary(), a, v, ctx);
    OperandGiven(PlainLibrary(), b, w, ctx);
    SingleValue(PlainLibrary(), op, a, b, ctx);
  }

  lemma UnsafeEqualityIsGained(a: Expr, b: Expr)
    requires Operand(a) && Operand(b) && !SafeComparison(Eq, a, b)
    ensures !NeverGained(Single(Eq, a, b))
  {
    var full := FactsOf(a, Num(1.0), b, Num(2.0));
    SingleGiven(Eq, a, Num(1.0), b, Num(2.0), full);
    SingleGiven(Eq, a, Null, b, Null, map[]);
    assert Gained(Single(Eq, a, b), PlainLibrary(), full, map[]);
  }

  /** A value for the names that makes them equal to the other operand: the constant's own, or any. */
  function EqualTo(a: Expr, b: Expr): Value
    requires Operand(a) && Operand(b)
  {
    if IsConstant(a) then ConstantOf(a) else if IsConstant(b) then ConstantOf(b) else Num(1.0)
  }

  lemma UnsafeInequalityIsGained(a: Expr, b: Expr)
    requires Operand(a) && Operand(b) && !SafeComparison(NotEq, a, b)
    ensures !NeverGained(Single(NotEq, a, b))
  {
    var v := EqualTo(a, b);
    var full := FactsOf(a, v, b, v);
    ConstantsAreNone(a, b);
    EqualIsReflexive(v);
    SingleGiven(NotEq, a, v, b, v, full);
    if FreeName(a) {
      SingleGiven(NotEq, a, Null, b, v, full - {a.id});
      assert Gained(Single(NotEq, a, b), PlainLibrary(), full, full - {a.id});
    } else {
      SingleGiven(NotEq, a, v, b, Null, full - {b.id});
      assert Gained(Single(NotEq, a, b), PlainLibrary(), full, full - {b.id});
    }
  }

  lemma ConstantsAreNone(a: Expr, b: Expr)
    requires Operand(a) && Operand(b)
    ensures IsConstant(a) ==> (ConstantOf(a) == Null <==> IsNone(a))
    ensures IsConstant(b) ==> (ConstantOf(b) == Null <==> IsNone(b))
  {
    if IsConstant(a) { ConstantValue(PlainLibrary(), a, map[]); }
    if IsConstant(b) { ConstantValue(PlainLibrary(), b, map[]); }
  }

  /** A comparison between names and constants can be gained by losing facts exactly when it is not a safe one. */
  lemma ComparisonNeverGainedIff(op: Comparison, a: Expr, b: Expr)
    requires Operand(a) && Operand(b)
    ensures NeverGained(Single(op, a, b)) <==> SafeComparison(op, a, b)
  {
    if SafeComparison(op, a, b) {
      assert SafeChain(a, [Link(op, b)]);
      FragmentNeverGained(Single(op, a, b));
    } else if op == Eq {
      UnsafeEqualityIsGained(a, b);
    } else {
      UnsafeInequalityIsGained(a, b);
    }
  }

  // ---- negation -------------------------------------------------------------------

  /** Some values of the names make an order or a containment hold. */
  predicate CanHold(op: Comparison, a: Expr, b: Expr)
    requires Operand(a) && Operand(b)
  {
    if IsConstant(a) && IsConstant(b) then ConstantOf(a) != Null && ConstantOf(b) != Null && HoldsBetween(op, ConstantOf(a), ConstantOf(b))
    else if IsConstant(b) then CanHoldBefore(op, ConstantOf(b))
    else if IsConstant(a) then CanHoldAfter(op, ConstantOf(a))
    else a == b ==> CanHoldWithItself(op)
  }

  /** Negated, the other way round: `==` needs None or the same name twice, `!=` a constant that is not None or the same
      name twice, and the others are safe only where nothing makes them hold. */
  predicate SafeNegation(op: Comparison, a: Expr, b: Expr)
    requires Operand(a) && Operand(b)
  {
    || (IsConstant(a) && IsConstant(b))
    || match op
       case Eq => a == b || IsNone(a) || IsNone(b)
       case NotEq => a == b || (IsConstant(a) && !IsNone(a)) || (IsConstant(b) && !IsNone(b))
       case OtherComparison => true
       case _ => !CanHold(op, a, b)
  }

  /** Where nothing is said to make the comparison hold, nothing does. */
  lemma NothingHolds(op: Comparison, a: Expr, b: Expr, v: Value, w: Value)
    requires Operand(a) && Operand(b) && Relational(op) && !CanHold(op, a, b) && v != Null && w != Null
    requires (IsConstant(a) ==> v == ConstantOf(a)) && (IsConstant(b) ==> w == ConstantOf(b)) && (a == b ==> v == w)
    ensures !HoldsBetween(op, v, w)
  {
    if IsConstant(b) && !IsConstant(a) {
      NothingBefore(op, w, v);
    } else if IsConstant(a) && !IsConstant(b) {
      NothingAfter(op, v, w);
    } else if !IsConstant(a) {
      NothingWithItself(op, v);
    }
  }

  lemma SafeNegatedLink(lib: Library, op: Comparison, a: Expr, b: Expr, full: Context, less: Context)
    requires Operand(a) && Operand(b) && SafeNegation(op, a, b) && Fewer(less, full)
    requires Eval(lib, a, less).Some? && Eval(lib, b, less).Some? && Eval(lib, a, full).Some? && Eval(lib, b, full).Some?
    requires Compared(lib, op, Eval(lib, a, full).value, Eval(lib, b, full).value) == Some(true)
    ensures Compared(lib, op, Eval(lib, a, less).value, Eval(lib, b, less).value) != Some(false)
  {
    if Relational(op) && !(IsConstant(a) && IsConstant(b)) {
      NothingIsCompared(lib, op, a, b, full);
    } else {
      OperandValue(lib, a, full, less);
      OperandValue(lib, b, full, less);
      EqualIsReflexive(Eval(lib, a, full).value);
    }
  }

  lemma NothingIsCompared(lib: Library, op: Comparison, a: Expr, b: Expr, ctx: Context)
    requires Operand(a) && Operand(b) && Relational(op) && !CanHold(op, a, b)
    requires Eval(lib, a, ctx).Some? && Eval(lib, b, ctx).Some?
    ensures Compared(lib, op, Eval(lib, a, ctx).value, Eval(lib, b, ctx).value) != Some(true)
  {
    var v, w := Eval(lib, a, ctx).value, Eval(lib, b, ctx).value;
    if IsConstant(a) { ConstantValue(lib, a, ctx); }
    if IsConstant(b) { ConstantValue(lib, b, ctx); }
    if v != Null && w != Null { NothingHolds(op, a, b, v, w); }
  }

  lemma NegatedValue(lib: Library, e: Expr, ctx: Context)
    ensures Evaluate(lib, Not(e), ctx) == match Evaluate(lib, e, ctx) case None => None case Some(holds) => Some(!holds)
  {
  }

  lemma SafeNegationNeverGained(op: Comparison, a: Expr, b: Expr)
    requires Operand(a) && Operand(b) && SafeNegation(op, a, b)
    ensures NeverGained(Not(Single(op, a, b)))
  {
    var e := Single(op, a, b);
    forall lib: Library, full: Context, less: Context | Fewer(less, full) && Evaluate(lib, Not(e), full) == Some(false)
      ensures Evaluate(lib, Not(e), less) != Some(true)
    {
      NegatedValue(lib, e, full);
      NegatedValue(lib, e, less);
      OperandValue(lib, a, full, less);
      OperandValue(lib, b, full, less);
      SingleValue(lib, op, a, b, full);
      SingleValue(lib, op, a, b, less);
      SafeNegatedLink(lib, op, a, b, full, less);
    }
  }

  /** Facts that make the comparison hold, without which it does not, make its negation gained. */
  lemma HoldingThenNot(op: Comparison, a: Expr, b: Expr, full: Context, less: Context)
    requires Fewer(less, full) && Evaluate(PlainLibrary(), Single(op, a, b), full) == Some(true)
    requires Evaluate(PlainLibrary(), Single(op, a, b), less) == Some(false)
    ensures !NeverGained(Not(Single(op, a, b)))
  {
    NegatedValue(PlainLibrary(), Single(op, a, b), full);
    NegatedValue(PlainLibrary(), Single(op, a, b), less);
    assert Gained(Not(Single(op, a, b)), PlainLibrary(), full, less);
  }

  /** Values of the names that make an order or a containment hold. */
  lemma ValuesThatHold(op: Comparison, a: Expr, b: Expr) returns (v: Value, w: Value)
    requires Operand(a) && Operand(b) && Relational(op) && CanHold(op, a, b) && (FreeName(a) || FreeName(b))
    ensures Given(a, v) != Null && Given(b, w) != Null && HoldsBetween(op, Given(a, v), Given(b, w)) && (a == b ==> v == w)
  {
    ConstantsAreNone(a, b);
    if IsConstant(b) {
      v := SomethingBefore(op, ConstantOf(b));
      w := ConstantOf(b);
    } else if IsConstant(a) {
      v := ConstantOf(a);
      w := SomethingAfter(op, ConstantOf(a));
    } else if a == b {
      v := SomethingWithItself(op);
      w := v;
    } else {
      v, w := SomePairHolds(op);
    }
  }

  lemma NegatedRelationIsGained(op: Comparison, a: Expr, b: Expr)
    requires Operand(a) && Operand(b) && Relational(op) && !SafeNegation(op, a, b)
    ensures !NeverGained(Not(Single(op, a, b)))
  {
    var v, w := ValuesThatHold(op, a, b);
    var full := FactsOf(a, v, b, w);
    SingleGiven(op, a, v, b, w, full);
    SingleGiven(op, a, Null, b, Null, map[]);
    HoldingThenNot(op, a, b, full, map[]);
  }

  lemma NegatedEqualityIsGained(a: Expr, b: Expr)
    requires Operand(a) && Operand(b) && !SafeNegation(Eq, a, b)
    ensures !NeverGained(Not(Single(Eq, a, b)))
  {
    var v := EqualTo(a, b);
    var full := FactsOf(a, v, b, v);
    ConstantsAreNone(a, b);
    EqualIsReflexive(v);
    SingleGiven(Eq, a, v, b, v, full);
    if FreeName(a) {
      SingleGiven(Eq, a, Null, b, v, full - {a.id});
      HoldingThenNot(Eq, a, b, full, full - {a.id});
    } else {
      SingleGiven(Eq, a, v, b, Null, full - {b.id});
      HoldingThenNot(Eq, a, b, full, full - {b.id});
    }
  }

  lemma NegatedInequalityIsGained(a: Expr, b: Expr)
    requires Operand(a) && Operand(b) && !SafeNegation(NotEq, a, b)
    ensures !NeverGained(Not(Single(NotEq, a, b)))
  {
    var full := FactsOf(a, Num(1.0), b, Num(2.0));
    ConstantsAreNone(a, b);
    SingleGiven(NotEq, a, Num(1.0), b, Num(2.0), full);
    SingleGiven(NotEq, a, Null, b, Null, map[]);
    HoldingThenNot(NotEq, a, b, full, map[]);
  }

  /** A negated comparison between names and constants can be gained by losing facts exactly when it is not a safe one. */
  lemma NegatedComparisonNeverGainedIff(op: Comparison, a: Expr, b: Expr)
    requires Operand(a) && Operand(b)
    ensures NeverGained(Not(Single(op, a, b))) <==> SafeNegation(op, a, b)
  {
    if SafeNegation(op, a, b) { SafeNegationNeverGained(op, a, b); }
    else if op == Eq { NegatedEqualityIsGained(a, b); }
    else if op == NotEq { NegatedInequalityIsGained(a, b); }
    else { NegatedRelationIsGained(op, a, b); }
  }

  /** A negated name or constant can be gained exactly when it is a name: what is not there is not true. */
  lemma NegationNeverGainedIff(e: Expr)
    requires Operand(e)
    ensures NeverGained(Not(e)) <==> IsConstant(e)
  {
    if IsConstant(e) {
      forall lib: Library, full: Context, less: Context | Fewer(less, full) && Evaluate(lib, Not(e), full) == Some(false)
        ensures Evaluate(lib, Not(e), less) != Some(true)
      {
        ConstantValue(lib, e, full);
        ConstantValue(lib, e, less);
      }
    } else {
      NegationIsGained(e.id);
    }
  }

  /** Negation gains: a name that is not there is not true. */
  lemma NegationIsGained(id: string)
    requires FreeName(Name(id))
    ensures !NeverGained(Not(Name(id)))
  {
    var full: Context := map[id := Bool(true)];
    assert Eval(PlainLibrary(), Name(id), full) == Some(Bool(true));
    assert Eval(PlainLibrary(), Name(id), map[]) == Some(Null);
    assert Gained(Not(Name(id)), PlainLibrary(), full, map[]);
  }
}
