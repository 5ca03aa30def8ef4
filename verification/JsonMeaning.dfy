/** What the canonical form stands for: two values have the same one exactly when they differ in the order of keys only. */
module JsonMeaning {
  import opened Ordering
  import opened CanonicalJson

  /** The same value, up to the order of keys in objects. */
  ghost predicate SameJson(a: Json, b: Json)
    decreases a
  {
    match (a, b)
    case (Arr(x), Arr(y)) => |x| == |y| && forall i :: 0 <= i < |x| && i < |y| ==> SameJson(x[i], y[i])
    case (Obj(x), Obj(y)) =>
      |x| == |y| && forall i :: 0 <= i < |x| ==> exists j :: 0 <= j < |y| && y[j].key == x[i].key && SameJson(x[i].value, y[j].value)
    case _ => a == b
  }

  ghost predicate NoneTwice<T(!new)>(s: seq<T>) {
    forall i, j :: 0 <= i < j < |s| ==> s[i] != s[j]
  }

  lemma {:induction false} SetOfDistinct<T(!new)>(s: seq<T>)
    requires NoneTwice(s)
    ensures |set x | x in s| == |s| && multiset(s) == multiset(set x | x in s)
  {
    if s != [] {
      var rest, last := s[..|s| - 1], s[|s| - 1];
      SetOfDistinct(rest);
      assert s == rest + [last];
      assert (set x | x in s) == (set x | x in rest) + {last};
    }
  }

  lemma SubsetOfSameSize<T(!new)>(a: set<T>, b: set<T>)
    requires a <= b && |a| == |b|
    ensures a == b
  {
    assert |b - a| == 0;
  }

  /** Without repetitions, one list in the other and as long is a permutation of it. */
  lemma DistinctAndAmong<T(!new)>(a: seq<T>, b: seq<T>)
    requires NoneTwice(a) && NoneTwice(b) && |a| == |b| && forall x <- a :: x in b
    ensures multiset(a) == multiset(b)
  {
    SetOfDistinct(a);
    SetOfDistinct(b);
    SubsetOfSameSize(set x | x in a, set x | x in b);
  }

  // ---- objects ------------------------------------------------------------------

  lemma FieldsAreWritten(fields: seq<Field>)
    requires forall f <- fields :: f.key.Text?
    ensures AllWritten(Sort(CanonFields(fields), FieldLe)) == Sort(CanonFields(fields), FieldLe)
  {
    var sorted := Sort(CanonFields(fields), FieldLe);
    FieldLeIsTotalPreorder();
    SortSorts(CanonFields(fields), FieldLe);
    forall i | 0 <= i < |sorted| ensures Written(sorted[i]) == sorted[i] {
      assert sorted[i] in multiset(sorted);
      assert sorted[i] in CanonFields(fields);
      var j :| 0 <= j < |fields| && CanonFields(fields)[j] == sorted[i];
      assert fields[j] in fields;
    }
  }

  lemma CanonFieldsAreDistinct(fields: seq<Field>)
    requires WellKeyed(fields) && forall f <- fields :: f.key.Text?
    ensures NoneTwice(CanonFields(fields)) && NoTies(CanonFields(fields), FieldLe)
  {
    var done := CanonFields(fields);
    forall x, y | x in done && y in done && FieldLe(x, y) && FieldLe(y, x) ensures x == y {
      var i :| 0 <= i < |done| && done[i] == x;
      var j :| 0 <= j < |done| && done[j] == y;
      assert fields[i] in fields && fields[j] in fields;
      SameKeyInMemory(x.key, y.key);
    }
  }

  /** Where one canonical object's field stands in the other object. */
  lemma SameCanonSameField(x: seq<Field>, y: seq<Field>, i: nat) returns (j: nat)
    requires (forall f <- x :: f.key.Text?) && (forall f <- y :: f.key.Text?) && i < |x|
    requires Canon(Obj(x)) == Canon(Obj(y))
    ensures j < |y| && y[j].key == x[i].key && Canon(y[j].value) == Canon(x[i].value)
  {
    CanonOfObject(x);
    CanonOfObject(y);
    FieldsAreWritten(x);
    FieldsAreWritten(y);
    assert CanonFields(x)[i] in CanonFields(x);
    var p := PlaceInSorted(CanonFields(x), CanonFields(x)[i]);
    j := SortedHolds(CanonFields(y), p);
  }

  lemma CanonKeepsLength(fields: seq<Field>)
    ensures |Canon(Obj(fields)).fields| == |fields|
  {
    var done := CanonFields(fields);
    CanonOfObject(fields);
    FieldLeIsTotalPreorder();
    SortSorts(done, FieldLe);
    assert |multiset(done)| == |done| && |multiset(Sort(done, FieldLe))| == |Sort(done, FieldLe)|;
  }

  ghost predicate EachAmong(x: seq<Field>, y: seq<Field>) {
    forall i :: 0 <= i < |x| ==> exists j :: 0 <= j < |y| && y[j].key == x[i].key && Canon(y[j].value) == Canon(x[i].value)
  }

  lemma SameFieldsSameCanon(x: seq<Field>, y: seq<Field>)
    requires WellKeyed(x) && WellKeyed(y) && (forall f <- x :: f.key.Text?) && (forall f <- y :: f.key.Text?)
    requires |x| == |y| && EachAmong(x, y)
    ensures Canon(Obj(x)) == Canon(Obj(y))
  {
    CanonFieldsAreDistinct(x);
    CanonFieldsAreDistinct(y);
    forall f | f in CanonFields(x) ensures f in CanonFields(y) {
      var i :| 0 <= i < |x| && CanonFields(x)[i] == f;
      var j :| 0 <= j < |y| && y[j].key == x[i].key && Canon(y[j].value) == Canon(x[i].value);
      assert CanonFields(y)[j] == f;
    }
    DistinctAndAmong(CanonFields(x), CanonFields(y));
    FieldLeIsTotalPreorder();
    SortOfSame(CanonFields(x), CanonFields(y), FieldLe);
    CanonOfObject(x);
    CanonOfObject(y);
  }

  // ---- values -------------------------------------------------------------------

  ghost predicate Plain(v: Json) {
    WellFormed(v) && TextKeyed(v)
  }

  /** Values with text keys have one canonical form exactly when they differ in the order of keys only. */
  lemma {:induction false} SameCanonIff(a: Json, b: Json)
    requires Plain(a) && Plain(b)
    ensures Canon(a) == Canon(b) <==> SameJson(a, b)
    decreases a
  {
    match (a, b)
    case (Arr(x), Arr(y)) =>
      if |x| == |y| {
        forall i | 0 <= i < |x| ensures Canon(x[i]) == Canon(y[i]) <==> SameJson(x[i], y[i]) {
          assert x[i] in x && y[i] in y;
          SameCanonIff(x[i], y[i]);
        }
        if Canon(a) == Canon(b) {
          forall i | 0 <= i < |x| ensures Canon(x[i]) == Canon(y[i]) { assert Canon(a).items[i] == Canon(b).items[i]; }
        }
      } else {
        assert |Canon(a).items| != |Canon(b).items|;
      }
    case (Obj(x), Obj(y)) => SameObjectIff(a, b);
    case _ =>
  }

  lemma {:induction false} SameObjectIff(a: Json, b: Json)
    requires a.Obj? && b.Obj? && Plain(a) && Plain(b)
    ensures Canon(a) == Canon(b) <==> SameJson(a, b)
    decreases a, 0
  {
    var x, y := a.fields, b.fields;
    forall i, j | 0 <= i < |x| && 0 <= j < |y| ensures Canon(x[i].value) == Canon(y[j].value) <==> SameJson(x[i].value, y[j].value) {
      assert x[i] in x && y[j] in y;
      SameCanonIff(x[i].value, y[j].value);
    }
    if Canon(a) == Canon(b) {
      CanonKeepsLength(x);
      CanonKeepsLength(y);
      forall i | 0 <= i < |x| ensures exists j :: 0 <= j < |y| && y[j].key == x[i].key && SameJson(x[i].value, y[j].value) {
        var j := SameCanonSameField(x, y, i);
      }
    } else if SameJson(a, b) {
      SameFieldsSameCanon(x, y);
    }
  }
}
