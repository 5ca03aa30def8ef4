/** Laws of the host language's comparisons. */
module ValueMeaning {
  import opened Wrappers
  import opened Ordering
  import opened Values

  // ---- equality -------------------------------------------------------------------

  lemma {:induction false} EqualIsSymmetric(l: Value, r: Value)
    ensures Equal(l, r) <==> Equal(r, l)
    decreases l
  {
    match (l, r)
    case (List(a), List(b)) =>
      if |a| == |b| {
        forall i | 0 <= i < |a| ensures Equal(a[i], b[i]) <==> Equal(b[i], a[i]) { EqualIsSymmetric(a[i], b[i]); }
      }
    case (Dict(a), Dict(b)) =>
      if a.Keys == b.Keys {
        forall k | k in a && k in b ensures Equal(a[k], b[k]) <==> Equal(b[k], a[k]) { EqualIsSymmetric(a[k], b[k]); }
      }
    case _ =>
  }

  lemma {:induction false} EqualIsTransitive(x: Value, y: Value, z: Value)
    requires Equal(x, y) && Equal(y, z)
    ensures Equal(x, z)
    decreases x
  {
    match (x, y, z)
    case (List(a), List(b), List(c)) =>
      forall i | 0 <= i < |a| ensures Equal(a[i], c[i]) { EqualIsTransitive(a[i], b[i], c[i]); }
    case (Dict(a), Dict(b), Dict(c)) =>
      forall k | k in a ensures Equal(a[k], c[k]) { EqualIsTransitive(a[k], b[k], c[k]); }
    case _ =>
  }

  /** What a truth value counts as. */
  function Amount(v: Value): Option<real> {
    match v
    case Num(n) => Some(n)
    case Bool(b) => Some(if b then 1.0 else 0.0)
    case _ => None
  }

  /** Numbers, truth values among them, are equal by amount; of the rest only values of one kind are, texts and None when they are
      the same, lists place by place, dictionaries key by key. */
  lemma EqualMeans(l: Value, r: Value)
    ensures Amount(l).Some? || Amount(r).Some? ==> (Equal(l, r) <==> Amount(l) == Amount(r))
    ensures l.Null? || l.Text? ==> (Equal(l, r) <==> l == r)
    ensures l.List? ==> (Equal(l, r) <==> r.List? && SamePlaces(l.items, r.items))
    ensures l.Dict? ==> (Equal(l, r) <==> r.Dict? && SameKeys(l.entries, r.entries))
  {
  }

  ghost predicate SamePlaces(a: seq<Value>, b: seq<Value>) {
    |a| == |b| && forall i :: 0 <= i < |a| ==> Equal(a[i], b[i])
  }

  ghost predicate SameKeys(a: map<string, Value>, b: map<string, Value>) {
    (forall k :: k in a <==> k in b) && forall k :: k in a && k in b ==> Equal(a[k], b[k])
  }

  // ---- order ----------------------------------------------------------------------

  lemma {:induction false} DifferenceIsSymmetric(a: seq<Value>, b: seq<Value>)
    ensures FirstDifference(a, b) == FirstDifference(b, a)
  {
    if a != [] && b != [] {
      EqualIsSymmetric(a[0], b[0]);
      if Equal(a[0], b[0]) { DifferenceIsSymmetric(a[1..], b[1..]); }
    }
  }

  function Reversed(o: Order): Order {
    match o
    case Less => Greater
    case Greater => Less
    case _ => o
  }

  /** Turning a comparison round turns its outcome round. */
  lemma {:induction false} OrderTurnsRound(l: Value, r: Value)
    ensures OrderOf(r, l) == Reversed(OrderOf(l, r))
    decreases l
  {
    match (l, r)
    case (Text(s), Text(t)) =>
      TextLeIsTotal(s, t);
      if TextLe(s, t) && TextLe(t, s) { TextLeIsAntisymmetric(s, t); }
    case (List(a), List(b)) =>
      DifferenceIsSymmetric(a, b);
      var i := FirstDifference(a, b);
      if i < |a| && i < |b| { OrderTurnsRound(a[i], b[i]); }
    case _ =>
  }

  /** The lists are equal place by place before `i`, and not there. */
  ghost predicate DifferAt(a: seq<Value>, b: seq<Value>, i: nat) {
    i < |a| && i < |b| && !Equal(a[i], b[i]) && forall j :: 0 <= j < i ==> Equal(a[j], b[j])
  }

  lemma FirstDifferenceIs(a: seq<Value>, b: seq<Value>, i: nat)
    requires DifferAt(a, b, i)
    ensures FirstDifference(a, b) == i
  {
    var k := FirstDifference(a, b);
    assert k < |a| && k < |b|;
  }

  ghost predicate Comparable(l: Value, r: Value) {
    (Amount(l).Some? && Amount(r).Some?) || (l.Text? && r.Text?) || (l.List? && r.List?)
  }

  /** Numbers are ordered by amount and texts by code point; besides them only lists are ordered. */
  lemma OrderMeans(l: Value, r: Value)
    ensures Amount(l).Some? && Amount(r).Some? ==> (OrderOf(l, r) == Less <==> Amount(l).value < Amount(r).value)
    ensures Amount(l).Some? && Amount(r).Some? ==> (OrderOf(l, r) == Same <==> Amount(l) == Amount(r))
    ensures l.Text? && r.Text? ==> (OrderOf(l, r) == Less <==> l != r && TextLe(l.s, r.s))
    ensures l.Text? && r.Text? ==> (OrderOf(l, r) == Same <==> l == r)
    ensures !Comparable(l, r) ==> OrderOf(l, r) == Incomparable
  {
  }

  /** Two lists are ordered as the items where they first differ, and by length when they do not. */
  lemma ListOrderMeans(a: seq<Value>, b: seq<Value>)
    ensures forall i: nat :: DifferAt(a, b, i) ==> OrderOf(List(a), List(b)) == OrderOf(a[i], b[i])
    ensures (forall i: nat :: !DifferAt(a, b, i)) ==> (OrderOf(List(a), List(b)) == Less <==> |a| < |b|)
    ensures (forall i: nat :: !DifferAt(a, b, i)) ==> (OrderOf(List(a), List(b)) == Same <==> |a| == |b|)
  {
    forall i: nat | DifferAt(a, b, i) ensures OrderOf(List(a), List(b)) == OrderOf(a[i], b[i]) { FirstDifferenceIs(a, b, i); }
    var k := FirstDifference(a, b);
    if k < |a| && k < |b| { assert DifferAt(a, b, k); }
  }

  // ---- containment and comparison ------------------------------------------------------

  /** A text holds the texts that stand in it somewhere, a list what equals one of its items, a dictionary its keys; only a text
      refuses what is not a text, a dictionary what cannot be a key, and what is none of the three refuses everything. */
  lemma ContainsMeans(container: Value, item: Value)
    ensures container.Text? && item.Text? ==>
      (Contains(container, item) == Some(true) <==> exists front, back :: container.s == front + item.s + back)
    ensures container.List? ==> (Contains(container, item) == Some(true) <==> exists x <- container.items :: Equal(item, x))
    ensures container.Dict? ==> (Contains(container, item) == Some(true) <==> item.Text? && item.s in container.entries)
    ensures Contains(container, item) == None <==>
      match container case Text(_) => !item.Text? case List(_) => false case Dict(_) => item.List? || item.Dict? case _ => true
  {
    if container.Text? && item.Text? { WithinIff(item.s, container.s); }
    if container.List? {
      if x :| x in container.items && Equal(item, x) {
        var i :| 0 <= i < |container.items| && container.items[i] == x;
        assert Equal(item, container.items[i]);
      }
      if i :| 0 <= i < |container.items| && Equal(item, container.items[i]) { assert container.items[i] in container.items; }
    }
  }

  lemma WithinIff(s: string, t: string)
    ensures Within(s, t) <==> exists front, back :: t == front + s + back
  {
    if i :| 0 <= i <= |t| && StandsAt(s, t, i) { assert t == t[..i] + s + t[i + |s|..]; }
    if front, back :| t == front + s + back { assert StandsAt(s, t, |front|); }
  }

  /** What each operator asks of equality, order and containment. */
  lemma HoldsMeans(l: Value, r: Value)
    ensures HoldsBetween(NotEq, l, r) <==> !HoldsBetween(Eq, l, r)
    ensures HoldsBetween(Gt, l, r) <==> HoldsBetween(Lt, r, l)
    ensures HoldsBetween(GtE, l, r) <==> HoldsBetween(LtE, r, l)
    ensures HoldsBetween(LtE, l, r) <==> HoldsBetween(Lt, l, r) || OrderOf(l, r) == Same
    ensures HoldsBetween(Lt, l, r) <==> OrderOf(l, r) == Less
    ensures HoldsBetween(Eq, l, r) <==> Equal(l, r)
    ensures HoldsBetween(In, l, r) <==> Contains(r, l) == Some(true)
    ensures HoldsBetween(NotIn, l, r) <==> Contains(r, l).Some? && !HoldsBetween(In, l, r)
  {
    OrderTurnsRound(l, r);
  }
}
