/** The canonical form a hash covers, and what is left of a value after it is stored as text and read back.
    Keys are sorted as they are in memory, numbers as numbers; reading back turns every key into text. */
module CanonicalJson {
  import opened Ordering
  import opened Texts

  datatype Key = Text(text: string) | Number(value: int)

  datatype Json = Null | Bool(b: bool) | Num(n: int) | Str(s: string) | Arr(items: seq<Json>) | Obj(fields: seq<Field>)

  datatype Field = Field(key: Key, value: Json)

  // ---- keys -------------------------------------------------------------------

  /** A key as it is written. */
  function Show(k: Key): string {
    match k
    case Text(t) => t
    case Number(n) => if n < 0 then "-" + Digits(-n) else Digits(n)
  }

  predicate KeyLe(a: Key, b: Key) {
    match (a, b)
    case (Text(s), Text(t)) => TextLe(s, t)
    case (Number(m), Number(n)) => m <= n
    case (Number(_), Text(_)) => true
    case (Text(_), Number(_)) => false
  }

  predicate FieldLe(a: Field, b: Field) {
    KeyLe(a.key, b.key)
  }

  lemma FieldLeIsTotalPreorder()
    ensures TotalPreorder(FieldLe)
  {
    forall x: Field, y: Field ensures FieldLe(x, y) || FieldLe(y, x) {
      if x.key.Text? && y.key.Text? { TextLeIsTotal(x.key.text, y.key.text); }
    }
    forall x: Field, y: Field, z: Field | FieldLe(x, y) && FieldLe(y, z) ensures FieldLe(x, z) {
      if x.key.Text? && y.key.Text? && z.key.Text? { TextLeIsTransitive(x.key.text, y.key.text, z.key.text); }
    }
  }

  // ---- values -----------------------------------------------------------------

  function Written(f: Field): Field {
    Field(Text(Show(f.key)), f.value)
  }

  function AllWritten(fields: seq<Field>): seq<Field> {
    seq(|fields|, i requires 0 <= i < |fields| => Written(fields[i]))
  }

  /** `json.dumps` with sorted keys: sort by the key in memory, then write the key. */
  function Canon(v: Json): Json {
    match v
    case Arr(items) => Arr(seq(|items|, i requires 0 <= i < |items| => Canon(items[i])))
    case Obj(fields) =>
      var done := seq(|fields|, i requires 0 <= i < |fields| => Field(fields[i].key, Canon(fields[i].value)));
      Obj(AllWritten(Sort(done, FieldLe)))
    case _ => v
  }

  /** Each value in canonical form, under the key it has in memory. */
  function CanonFields(fields: seq<Field>): seq<Field> {
    seq(|fields|, i requires 0 <= i < |fields| => Field(fields[i].key, Canon(fields[i].value)))
  }

  lemma CanonOfObject(fields: seq<Field>)
    ensures Canon(Obj(fields)) == Obj(AllWritten(Sort(CanonFields(fields), FieldLe)))
  {
    var done := seq(|fields|, i requires 0 <= i < |fields| => Field(fields[i].key, Canon(fields[i].value)));
    assert done == CanonFields(fields);
  }

  /** `json.loads(json.dumps(v))`: every key becomes text, in the order it was written. */
  function Reread(v: Json): Json {
    match v
    case Arr(items) => Arr(seq(|items|, i requires 0 <= i < |items| => Reread(items[i])))
    case Obj(fields) => Obj(seq(|fields|, i requires 0 <= i < |fields| => Field(Text(Show(fields[i].key)), Reread(fields[i].value))))
    case _ => v
  }

  /** Keys of one object are of one sort and are written differently; sorting mixed keys raises. */
  ghost predicate WellKeyed(fields: seq<Field>) {
    && (forall i, j :: 0 <= i < j < |fields| ==> Show(fields[i].key) != Show(fields[j].key))
    && ((forall f <- fields :: f.key.Text?) || (forall f <- fields :: f.key.Number?))
  }

  ghost predicate WellFormed(v: Json) {
    match v
    case Arr(items) => forall x <- items :: WellFormed(x)
    case Obj(fields) => WellKeyed(fields) && forall f <- fields :: WellFormed(f.value)
    case _ => true
  }

  /** In every object, keys sort the same way in memory and in writing. */
  ghost predicate KeysAgree(fields: seq<Field>) {
    forall i, j :: 0 <= i < |fields| && 0 <= j < |fields| && KeyLe(fields[i].key, fields[j].key) ==>
      TextLe(Show(fields[i].key), Show(fields[j].key))
  }

  ghost predicate OrderAgrees(v: Json) {
    match v
    case Arr(items) => forall x <- items :: OrderAgrees(x)
    case Obj(fields) => KeysAgree(fields) && forall f <- fields :: OrderAgrees(f.value)
    case _ => true
  }

  /** The canonical form is the same before and after the value was stored. */
  ghost predicate Survives(v: Json) {
    Canon(Reread(v)) == Canon(v)
  }

  // ---- one object ---------------------------------------------------------------

  lemma KeyTieMeansSame(s: seq<Field>, i: nat, j: nat)
    requires WellKeyed(s) && i < |s| && j < |s|
    requires TextLe(Show(s[i].key), Show(s[j].key)) && TextLe(Show(s[j].key), Show(s[i].key))
    ensures i == j
  {
    TextLeIsAntisymmetric(Show(s[i].key), Show(s[j].key));
  }

  /** Where the orders agree, comparing keys in memory and in writing comes to the same. */
  lemma AgreementIsBothWays(s: seq<Field>, i: nat, j: nat)
    requires WellKeyed(s) && KeysAgree(s) && i < |s| && j < |s|
    ensures FieldLe(s[i], s[j]) <==> FieldLe(Written(s[i]), Written(s[j]))
  {
    FieldLeIsTotalPreorder();
    if !FieldLe(s[i], s[j]) && FieldLe(Written(s[i]), Written(s[j])) {
      assert FieldLe(s[i], s[j]) || FieldLe(s[j], s[i]);
      KeyTieMeansSame(s, i, j);
    }
  }

  ghost predicate ComparesAlike(x: Field, y: Field) {
    FieldLe(x, y) <==> FieldLe(Written(x), Written(y))
  }

  lemma {:induction false} InsertCommutes(x: Field, s: seq<Field>)
    requires forall y <- s :: ComparesAlike(x, y)
    ensures AllWritten(Insert(x, s, FieldLe)) == Insert(Written(x), AllWritten(s), FieldLe)
  {
    WrittenFirst(x, s);
    if s != [] && !FieldLe(x, s[0]) {
      assert ComparesAlike(x, s[0]);
      InsertCommutes(x, s[1..]);
      WrittenFirst(s[0], Insert(x, s[1..], FieldLe));
      assert AllWritten(s)[1..] == AllWritten(s[1..]);
    } else if s != [] {
      assert ComparesAlike(x, s[0]);
    }
  }

  lemma WrittenFirst(x: Field, s: seq<Field>)
    ensures AllWritten([x] + s) == [Written(x)] + AllWritten(s)
  {
  }

  lemma SortedAreAmong(s: seq<Field>)
    ensures forall y <- Sort(s, FieldLe) :: y in s
  {
    FieldLeIsTotalPreorder();
    SortSorts(s, FieldLe);
    forall y | y in Sort(s, FieldLe) ensures y in s { assert y in multiset(Sort(s, FieldLe)); }
  }

  lemma {:induction false} SortCommutes(s: seq<Field>)
    requires forall x <- s, y <- s :: ComparesAlike(x, y)
    ensures AllWritten(Sort(s, FieldLe)) == Sort(AllWritten(s), FieldLe)
  {
    if s != [] {
      SortCommutes(s[1..]);
      SortedAreAmong(s[1..]);
      forall y <- Sort(s[1..], FieldLe) ensures ComparesAlike(s[0], y) { assert y in s; }
      InsertCommutes(s[0], Sort(s[1..], FieldLe));
      assert AllWritten(s)[1..] == AllWritten(s[1..]);
    }
  }

  lemma SortedPositionOf(s: seq<Field>, sorted: seq<Field>, x: Field) returns (p: nat)
    requires multiset(sorted) == multiset(s) && x in s
    ensures p < |sorted| && sorted[p] == x
  {
    assert x in multiset(sorted);
    p :| 0 <= p < |sorted| && sorted[p] == x;
  }

  /** If sorting commutes with writing the keys, then no two keys compare differently. */
  lemma CommutingMeansAgreement(s: seq<Field>, x: Field, y: Field)
    requires WellKeyed(s) && x in s && y in s && KeyLe(x.key, y.key)
    requires AllWritten(Sort(s, FieldLe)) == Sort(AllWritten(s), FieldLe)
    ensures TextLe(Show(x.key), Show(y.key))
  {
    FieldLeIsTotalPreorder();
    SortSorts(s, FieldLe);
    SortSorts(AllWritten(s), FieldLe);
    var sorted := Sort(s, FieldLe);
    var p := SortedPositionOf(s, sorted, x);
    var q := SortedPositionOf(s, sorted, y);
    if p <= q {
      assert FieldLe(AllWritten(sorted)[p], AllWritten(sorted)[q]) || p == q;
      TextLeIsTotal(Show(x.key), Show(x.key));
    } else {
      assert FieldLe(sorted[q], sorted[p]);
      SameKeyInMemory(x.key, y.key);
      TextLeIsTotal(Show(x.key), Show(x.key));
    }
  }

  lemma SameKeyInMemory(k: Key, l: Key)
    requires KeyLe(k, l) && KeyLe(l, k)
    ensures k == l
  {
    if k.Text? && l.Text? { TextLeIsAntisymmetric(k.text, l.text); }
  }

  /** For one object whose values are done: writing keys before or after sorting gives the same exactly when the
      two orders of its keys agree. */
  lemma SortCommutesIff(done: seq<Field>)
    requires WellKeyed(done)
    ensures Sort(AllWritten(done), FieldLe) == AllWritten(Sort(done, FieldLe)) <==> KeysAgree(done)
  {
    if KeysAgree(done) {
      forall x <- done, y <- done ensures ComparesAlike(x, y) {
        var i :| 0 <= i < |done| && done[i] == x;
        var j :| 0 <= j < |done| && done[j] == y;
        AgreementIsBothWays(done, i, j);
      }
      SortCommutes(done);
    } else if Sort(AllWritten(done), FieldLe) == AllWritten(Sort(done, FieldLe)) {
      forall i, j | 0 <= i < |done| && 0 <= j < |done| && KeyLe(done[i].key, done[j].key)
        ensures TextLe(Show(done[i].key), Show(done[j].key))
      {
        CommutingMeansAgreement(done, done[i], done[j]);
      }
    }
  }

  // ---- whole values ---------------------------------------------------------------

  /** The canonical form of a reread object, in terms of the object's own values. */
  lemma RereadObject(fields: seq<Field>)
    ensures Canon(Reread(Obj(fields))) == Obj(AllWritten(Sort(AllWritten(RereadFields(fields)), FieldLe)))
  {
    var read := Reread(Obj(fields)).fields;
    CanonOfObject(read);
    assert CanonFields(read) == AllWritten(RereadFields(fields));
  }

  /** Each value stored, read back and put in canonical form; keys as in memory. */
  function RereadFields(fields: seq<Field>): seq<Field> {
    seq(|fields|, i requires 0 <= i < |fields| => Field(fields[i].key, Canon(Reread(fields[i].value))))
  }

  lemma PlaceInSorted(s: seq<Field>, x: Field) returns (p: nat)
    requires x in s
    ensures p < |Sort(s, FieldLe)| && Sort(s, FieldLe)[p] == x
  {
    FieldLeIsTotalPreorder();
    SortSorts(s, FieldLe);
    p := SortedPositionOf(s, Sort(s, FieldLe), x);
  }

  lemma SortedHolds(s: seq<Field>, p: nat) returns (j: nat)
    requires p < |Sort(s, FieldLe)|
    ensures j < |s| && s[j] == Sort(s, FieldLe)[p]
  {
    FieldLeIsTotalPreorder();
    SortSorts(s, FieldLe);
    assert Sort(s, FieldLe)[p] in multiset(Sort(s, FieldLe));
    assert Sort(s, FieldLe)[p] in s;
    j :| 0 <= j < |s| && s[j] == Sort(s, FieldLe)[p];
  }

  /** Equal canonical objects give equal canonical values, key by key. */
  lemma SameObjectSameValues(a: seq<Field>, b: seq<Field>, i: nat)
    requires |a| == |b| && i < |a| && forall k :: 0 <= k < |a| ==> a[k].key == b[k].key
    requires WellKeyed(a)
    requires AllWritten(Sort(AllWritten(a), FieldLe)) == AllWritten(Sort(b, FieldLe))
    ensures a[i].value == b[i].value
  {
    var x := AllWritten(a)[i];
    assert x in AllWritten(a);
    var p := PlaceInSorted(AllWritten(a), x);
    assert AllWritten(Sort(AllWritten(a), FieldLe))[p] == x;
    var j := SortedHolds(b, p);
    assert AllWritten(Sort(b, FieldLe))[p] == Written(b[j]);
    assert Show(a[j].key) == Show(a[i].key);
  }

  /** A value keeps its canonical form through storage exactly when, in every object, numeric keys happen to sort
      as their text does. */
  lemma {:induction false} SurvivesIff(v: Json)
    requires WellFormed(v)
    ensures Survives(v) <==> OrderAgrees(v)
  {
    match v
    case Arr(items) =>
      forall i | 0 <= i < |items| ensures Survives(items[i]) <==> OrderAgrees(items[i]) {
        assert WellFormed(items[i]);
        SurvivesIff(items[i]);
      }
      if Survives(v) {
        forall x <- items ensures OrderAgrees(x) {
          var i :| 0 <= i < |items| && items[i] == x;
          assert Canon(Reread(v)).items[i] == Canon(v).items[i];
        }
      }
      if forall i :: 0 <= i < |items| ==> Survives(items[i]) {
        assert Canon(Reread(v)).items == Canon(v).items;
      }
    case Obj(fields) =>
      forall i | 0 <= i < |fields| ensures Survives(fields[i].value) <==> OrderAgrees(fields[i].value) {
        assert WellFormed(fields[i].value);
        SurvivesIff(fields[i].value);
      }
      ObjectSurvivesIff(fields);
    case _ =>
  }

  /** Sorting reread values by written keys matches sorting the originals exactly when the values are the same
      and the orders agree. */
  lemma ObjectMatchesIff(read: seq<Field>, done: seq<Field>)
    requires WellKeyed(read) && WellKeyed(done)
    requires |read| == |done| && forall i :: 0 <= i < |read| ==> read[i].key == done[i].key
    ensures AllWritten(Sort(AllWritten(read), FieldLe)) == AllWritten(Sort(done, FieldLe)) <==> read == done && KeysAgree(done)
  {
    SortedAlreadyWritten(read);
    SortCommutesIff(done);
    if AllWritten(Sort(AllWritten(read), FieldLe)) == AllWritten(Sort(done, FieldLe)) {
      forall i | 0 <= i < |read| ensures read[i] == done[i] {
        SameObjectSameValues(read, done, i);
      }
      assert read == done;
    }
  }

  lemma ObjectSurvivesIff(fields: seq<Field>)
    requires WellKeyed(fields)
    ensures Survives(Obj(fields)) <==> KeysAgree(fields) && forall i :: 0 <= i < |fields| ==> Survives(fields[i].value)
  {
    var read, done := RereadFields(fields), CanonFields(fields);
    SameKeysWellKeyed(fields, read);
    SameKeysWellKeyed(fields, done);
    ObjectMatchesIff(read, done);
    RereadObject(fields);
    CanonOfObject(fields);
    SameKeysAgree(fields, done);
    SameValuesIff(fields);
  }

  lemma SameKeysAgree(a: seq<Field>, b: seq<Field>)
    requires |a| == |b| && forall i :: 0 <= i < |a| ==> a[i].key == b[i].key
    ensures KeysAgree(a) <==> KeysAgree(b)
  {
  }

  lemma SameValuesIff(fields: seq<Field>)
    ensures RereadFields(fields) == CanonFields(fields) <==> forall i :: 0 <= i < |fields| ==> Survives(fields[i].value)
  {
    if RereadFields(fields) == CanonFields(fields) {
      forall i | 0 <= i < |fields| ensures Survives(fields[i].value) {
        assert RereadFields(fields)[i] == CanonFields(fields)[i];
      }
    }
  }

  lemma SameKeysWellKeyed(a: seq<Field>, b: seq<Field>)
    requires WellKeyed(a) && |a| == |b| && forall i :: 0 <= i < |a| ==> a[i].key == b[i].key
    ensures WellKeyed(b)
  {
    forall f <- b ensures f.key.Text? == (a != [] && a[0].key.Text?) {
      var i :| 0 <= i < |b| && b[i] == f;
      assert a[i] in a && a[0] in a;
    }
    if a != [] { assert a[0] in a; }
  }

  /** Sorting written keys leaves them written. */
  lemma SortedAlreadyWritten(done: seq<Field>)
    ensures AllWritten(Sort(AllWritten(done), FieldLe)) == Sort(AllWritten(done), FieldLe)
  {
    FieldLeIsTotalPreorder();
    var sorted := Sort(AllWritten(done), FieldLe);
    SortSorts(AllWritten(done), FieldLe);
    forall i | 0 <= i < |sorted| ensures Written(sorted[i]) == sorted[i] {
      assert sorted[i] in multiset(sorted);
      assert sorted[i] in AllWritten(done);
    }
  }

  /** Text keys at every level are enough. */
  ghost predicate TextKeyed(v: Json) {
    match v
    case Arr(items) => forall x <- items :: TextKeyed(x)
    case Obj(fields) => forall f <- fields :: f.key.Text? && TextKeyed(f.value)
    case _ => true
  }

  lemma {:induction false} TextKeysAgree(v: Json)
    requires TextKeyed(v)
    ensures OrderAgrees(v)
  {
    match v
    case Arr(items) => forall x <- items ensures OrderAgrees(x) { TextKeysAgree(x); }
    case Obj(fields) => forall f <- fields ensures OrderAgrees(f.value) { TextKeysAgree(f.value); }
    case _ =>
  }

  /** The numbers two and ten sort one way as numbers and the other way as text. */
  lemma TwoAndTenDoNotSurvive()
    ensures var v := Obj([Field(Number(2), Null), Field(Number(10), Null)]); WellFormed(v) && !Survives(v)
  {
    var fields := [Field(Number(2), Null), Field(Number(10), Null)];
    assert Digits(10) == Digits(1) + ['0'] == "10";
    assert Show(Number(2)) == "2" && Show(Number(10)) == "10";
    assert !TextLe("2", "10");
    assert WellKeyed(fields);
    assert KeyLe(fields[0].key, fields[1].key) && !TextLe(Show(fields[0].key), Show(fields[1].key));
    SurvivesIff(Obj(fields));
  }
}
