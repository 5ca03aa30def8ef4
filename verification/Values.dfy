/** Values of the host language as conditions see them, and how it compares them. */
module Values {
  import opened Wrappers
  import opened Ordering

  /** Numbers are finite; a truth value counts as zero or one. */
  datatype Value = Null | Bool(b: bool) | Num(n: real) | Text(s: string) | List(items: seq<Value>) | Dict(entries: map<string, Value>)

  datatype Comparison = Eq | NotEq | Lt | LtE | Gt | GtE | In | NotIn | OtherComparison

  predicate Truthy(v: Value) {
    match v
    case Null => false
    case Bool(b) => b
    case Num(n) => n != 0.0
    case Text(s) => s != ""
    case List(items) => items != []
    case Dict(entries) => entries != map[]
  }

  // ---- equality -------------------------------------------------------------------

  predicate IsNumber(v: Value) {
    v.Num? || v.Bool?
  }

  function AsNumber(v: Value): real
    requires IsNumber(v)
  {
    if v.Num? then v.n else if v.b then 1.0 else 0.0
  }

  predicate Equal(l: Value, r: Value)
    decreases l
  {
    if IsNumber(l) && IsNumber(r) then AsNumber(l) == AsNumber(r)
    else
      match (l, r)
      case (Null, Null) => true
      case (Text(s), Text(t)) => s == t
      case (List(a), List(b)) => |a| == |b| && forall i :: 0 <= i < |a| && i < |b| ==> Equal(a[i], b[i])
      case (Dict(a), Dict(b)) => a.Keys == b.Keys && forall k <- a :: k in b && Equal(a[k], b[k])
      case _ => false
  }

  lemma {:induction false} EqualIsReflexive(v: Value)
    ensures Equal(v, v)
  {
    match v
    case List(items) => forall i | 0 <= i < |items| ensures Equal(items[i], items[i]) { EqualIsReflexive(items[i]); }
    case Dict(entries) => forall k | k in entries ensures Equal(entries[k], entries[k]) { EqualIsReflexive(entries[k]); }
    case _ =>
  }

  // ---- order ----------------------------------------------------------------------

  datatype Order = Less | Same | Greater | Incomparable

  /** Where two lists first differ; the length of the shorter one when they do not. */
  function FirstDifference(a: seq<Value>, b: seq<Value>): (i: nat)
    ensures i <= |a| && i <= |b|
    ensures i < |a| && i < |b| ==> !Equal(a[i], b[i])
    ensures forall j :: 0 <= j < i ==> Equal(a[j], b[j])
  {
    if a == [] || b == [] || !Equal(a[0], b[0]) then 0 else 1 + FirstDifference(a[1..], b[1..])
  }

  function OrderOfNumbers(m: real, n: real): Order {
    if m < n then Less else if m == n then Same else Greater
  }

  function OrderOfLengths(m: nat, n: nat): Order {
    if m < n then Less else if m == n then Same else Greater
  }

  /** Numbers, texts by code point, lists by their first difference and then by length; nothing else is ordered. */
  function OrderOf(l: Value, r: Value): Order
    decreases l
  {
    if IsNumber(l) && IsNumber(r) then OrderOfNumbers(AsNumber(l), AsNumber(r))
    else
      match (l, r)
      case (Text(s), Text(t)) => if s == t then Same else if TextLe(s, t) then Less else Greater
      case (List(a), List(b)) =>
        var i := FirstDifference(a, b);
        if i < |a| && i < |b| then OrderOf(a[i], b[i]) else OrderOfLengths(|a|, |b|)
      case _ => Incomparable
  }

  lemma SameListsDoNotDiffer(a: seq<Value>)
    ensures FirstDifference(a, a) == |a|
  {
    var i := FirstDifference(a, a);
    if i < |a| { EqualIsReflexive(a[i]); }
  }

  /** A value is never ordered before or after itself. */
  lemma NeverBeforeItself(v: Value)
    ensures OrderOf(v, v) in {Same, Incomparable}
  {
    if v.List? { SameListsDoNotDiffer(v.items); }
  }

  // ---- containment ------------------------------------------------------------------

  predicate StandsAt(s: string, t: string, i: nat) {
    i + |s| <= |t| && t[i..i + |s|] == s
  }

  predicate Within(s: string, t: string) {
    exists i :: 0 <= i <= |t| && StandsAt(s, t, i)
  }

  /** `None` when the host refuses: a text holds only texts, a list or a dictionary is not looked up in a dictionary, and
      nothing else holds anything. */
  function Contains(container: Value, item: Value): Option<bool> {
    match container
    case Text(t) => if item.Text? then Some(Within(item.s, t)) else None
    case List(items) => Some(exists i :: 0 <= i < |items| && Equal(item, items[i]))
    case Dict(entries) => if item.List? || item.Dict? then None else Some(item.Text? && item.s in entries)
    case _ => None
  }

  // ---- comparisons ------------------------------------------------------------------

  /** Whether the comparison of two present values holds; refusing to compare counts as not holding. */
  predicate HoldsBetween(op: Comparison, l: Value, r: Value) {
    match op
    case Eq => Equal(l, r)
    case NotEq => !Equal(l, r)
    case Lt => OrderOf(l, r) == Less
    case LtE => OrderOf(l, r) in {Less, Same}
    case Gt => OrderOf(l, r) == Greater
    case GtE => OrderOf(l, r) in {Greater, Same}
    case In => Contains(r, l) == Some(true)
    case NotIn => Contains(r, l) == Some(false)
    case OtherComparison => false
  }

  // ---- what can hold against a given value --------------------------------------------

  /** Lists, texts and numbers are ordered. */
  predicate IsOrdered(v: Value) {
    IsNumber(v) || v.Text? || v.List?
  }

  /** Something comes before the value: not before the empty text or the empty list. */
  predicate HasSmaller(v: Value) {
    IsNumber(v) || (v.Text? && v.s != "") || (v.List? && v.items != [])
  }

  /** Some present value stands to the left of the comparison with `c` on the right. */
  predicate CanHoldBefore(op: Comparison, c: Value) {
    match op
    case Lt => HasSmaller(c)
    case Gt => IsOrdered(c)
    case LtE => IsOrdered(c)
    case GtE => IsOrdered(c)
    case In => c.Text? || (c.List? && exists i :: 0 <= i < |c.items| && c.items[i] != Null) || (c.Dict? && c.entries != map[])
    case NotIn => c.Text? || c.List? || c.Dict?
    case _ => false
  }

  /** Some present value stands to the right of the comparison with `c` on the left. */
  predicate CanHoldAfter(op: Comparison, c: Value) {
    match op
    case Lt => IsOrdered(c)
    case Gt => HasSmaller(c)
    case LtE => IsOrdered(c)
    case GtE => IsOrdered(c)
    case In => c != Null
    case NotIn => c != Null
    case _ => false
  }

  /** Some present value compares so with itself. */
  predicate CanHoldWithItself(op: Comparison) {
    op == LtE || op == GtE || op == In || op == NotIn
  }

  predicate Relational(op: Comparison) {
    op != Eq && op != NotEq && op != OtherComparison
  }

  lemma {:induction false} LongerComesAfter(s: string)
    ensures TextLe(s, s + "a") && s != s + "a" && (s == s + "a" || !TextLe(s + "a", s))
  {
    if s != "" {
      LongerComesAfter(s[1..]);
      assert (s + "a")[1..] == s[1..] + "a";
    }
  }

  /** A value before `v`. */
  function Smaller(v: Value): (w: Value)
    requires HasSmaller(v)
  {
    if IsNumber(v) then Num(AsNumber(v) - 1.0) else if v.Text? then Text("") else List([])
  }

  /** A value after `v`. */
  function Larger(v: Value): (w: Value)
    requires IsOrdered(v)
  {
    if IsNumber(v) then Num(AsNumber(v) + 1.0) else if v.Text? then Text(v.s + "a") else List(v.items + [Null])
  }

  lemma SmallerIsLess(v: Value)
    requires HasSmaller(v)
    ensures OrderOf(Smaller(v), v) == Less && OrderOf(v, Smaller(v)) == Greater && Smaller(v) != Null
  {
  }

  lemma LargerIsGreater(v: Value)
    requires IsOrdered(v)
    ensures OrderOf(Larger(v), v) == Greater && OrderOf(v, Larger(v)) == Less && Larger(v) != Null
  {
    if v.Text? {
      LongerComesAfter(v.s);
    } else if v.List? {
      PrefixDoesNotDiffer(v.items, [Null]);
    }
  }

  lemma {:induction false} PrefixDoesNotDiffer(a: seq<Value>, more: seq<Value>)
    ensures FirstDifference(a, a + more) == |a| == FirstDifference(a + more, a)
  {
    var i, j := FirstDifference(a, a + more), FirstDifference(a + more, a);
    if i < |a| { EqualIsReflexive(a[i]); }
    if j < |a| { EqualIsReflexive(a[j]); }
  }

  lemma SameOrder(v: Value)
    requires IsOrdered(v)
    ensures OrderOf(v, v) == Same
  {
    if v.List? { SameListsDoNotDiffer(v.items); }
  }

  /** A text longer than every text in the list. */
  function Longest(items: seq<Value>): (n: nat)
    ensures forall i :: 0 <= i < |items| && items[i].Text? ==> |items[i].s| <= n
  {
    if items == [] then 0
    else
      var rest, last := Longest(items[..|items| - 1]), items[|items| - 1];
      if last.Text? && |last.s| > rest then |last.s| else rest
  }

  function Letters(n: nat): (s: string)
    ensures |s| == n
  {
    if n == 0 then "" else Letters(n - 1) + "a"
  }

  /** A present value for which the comparison with `c` on the right holds. */
  lemma SomethingBefore(op: Comparison, c: Value) returns (v: Value)
    requires CanHoldBefore(op, c)
    ensures v != Null && HoldsBetween(op, v, c)
  {
    match op
    case Lt =>
      v := Smaller(c);
      SmallerIsLess(c);
    case Gt =>
      v := Larger(c);
      LargerIsGreater(c);
    case In => v := SomethingIn(c);
    case NotIn => v := SomethingNotIn(c);
    case _ =>
      v := c;
      SameOrder(c);
  }

  lemma SomethingIn(c: Value) returns (v: Value)
    requires CanHoldBefore(In, c)
    ensures v != Null && Contains(c, v) == Some(true)
  {
    if c.Text? {
      v := Text("");
      assert StandsAt("", c.s, 0);
    } else if c.List? {
      var i :| 0 <= i < |c.items| && c.items[i] != Null;
      v := c.items[i];
      EqualIsReflexive(v);
    } else {
      var k :| k in c.entries;
      v := Text(k);
    }
  }

  lemma SomethingNotIn(c: Value) returns (v: Value)
    requires CanHoldBefore(NotIn, c)
    ensures v != Null && Contains(c, v) == Some(false)
  {
    if c.Text? { v := Text(c.s + "a"); }
    else if c.List? { v := Text(Letters(Longest(c.items) + 1)); }
    else { v := Num(0.0); }
  }

  /** Where no present value is said to, none does. */
  lemma NothingBefore(op: Comparison, c: Value, v: Value)
    requires Relational(op) && !CanHoldBefore(op, c) && v != Null && c != Null
    ensures !HoldsBetween(op, v, c)
  {
    if op == Lt && v.List? && c.List? { assert c.items == []; }
  }

  lemma SomethingAfter(op: Comparison, c: Value) returns (v: Value)
    requires CanHoldAfter(op, c)
    ensures v != Null && HoldsBetween(op, c, v)
  {
    match op
    case Lt =>
      v := Larger(c);
      LargerIsGreater(c);
    case Gt =>
      v := Smaller(c);
      SmallerIsLess(c);
    case In =>
      v := List([c]);
      EqualIsReflexive(c);
      assert Equal(c, v.items[0]);
    case NotIn => v := List([]);
    case _ =>
      v := c;
      SameOrder(c);
  }

  lemma NothingAfter(op: Comparison, c: Value, v: Value)
    requires Relational(op) && !CanHoldAfter(op, c) && v != Null && c != Null
    ensures !HoldsBetween(op, c, v)
  {
  }

  lemma SomethingWithItself(op: Comparison) returns (v: Value)
    requires CanHoldWithItself(op)
    ensures v != Null && HoldsBetween(op, v, v)
  {
    v := if op == In then Text("") else if op == NotIn then List([]) else Num(1.0);
    assert StandsAt("", "", 0);
  }

  lemma NothingWithItself(op: Comparison, v: Value)
    requires Relational(op) && !CanHoldWithItself(op)
    ensures !HoldsBetween(op, v, v)
  {
    NeverBeforeItself(v);
  }

  /** Two present values between which the comparison holds. */
  lemma SomePairHolds(op: Comparison) returns (v: Value, w: Value)
    requires Relational(op)
    ensures v != Null && w != Null && HoldsBetween(op, v, w)
  {
    match op
    case In =>
      v, w := Text(""), Text("");
      assert StandsAt("", "", 0);
    case NotIn => v, w := Num(1.0), List([]);
    case Gt => v, w := Num(2.0), Num(1.0);
    case GtE => v, w := Num(2.0), Num(1.0);
    case _ => v, w := Num(1.0), Num(2.0);
  }
}
