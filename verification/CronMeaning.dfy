/** What a five-field expression means, from its text to the moments it lets through. */
module CronMeaning {
  import opened Wrappers
  import opened Texts
  import opened Cron

  predicate Reached(low: nat, step: nat, k: nat, v: nat) {
    v == low + k * step
  }

  /** The value is reached from the start in whole steps, up to the end. */
  ghost predicate OnTheWay(low: nat, high: nat, step: nat, v: nat) {
    v <= high && exists k: nat :: Reached(low, step, k, v)
  }

  ghost predicate LetsThrough(t: Term, field: Bounds, v: nat) {
    var step := match t.step case None => 1 case Some(n) => n;
    match t.span
    case All => OnTheWay(field.low, field.high, step, v)
    case One(a) => OnTheWay(a, a, step, v)
    case FromTo(a, b) => OnTheWay(a, b, step, v)
  }

  lemma AdmitsIff(t: Term, field: Bounds, v: nat)
    requires InRange(t, field)
    ensures Admits(t, field, v) <==> LetsThrough(t, field, v)
  {
    var ends, step := SpanEnds(t.span, field), if t.step.Some? then t.step.value else 1;
    ValuesAreSteps(ends.low, ends.high, step, v);
    assert v in Values(ends.low, ends.high, step) <==> OnStep(v, ends.low, ends.high, step);
    if k: nat :| v == ends.low + k * step { assert Reached(ends.low, step, k, v); }
    if k: nat :| Reached(ends.low, step, k, v) { assert v == ends.low + k * step; }
  }

  /** The term stays between the two bounds, does not run backwards, and its step, if it has one, is not zero. */
  ghost predicate Within(t: Term, field: Bounds) {
    && t.step != Some(0)
    && match t.span
       case All => field.low <= field.high
       case One(a) => field.low <= a <= field.high
       case FromTo(a, b) => field.low <= a <= b <= field.high
  }

  ghost predicate FieldLetsThrough(terms: seq<Term>, field: Bounds, v: nat) {
    exists i :: 0 <= i < |terms| && LetsThrough(terms[i], field, v)
  }

  ghost predicate AllWithin(terms: seq<Term>, field: Bounds) {
    forall i :: 0 <= i < |terms| ==> Within(terms[i], field)
  }

  lemma FieldMeans(terms: seq<Term>, field: Bounds, read: Option<set<nat>>)
    requires FieldIs(terms, field, read)
    ensures read.Some? <==> AllWithin(terms, field)
    ensures read.Some? ==> forall v :: v in read.value <==> FieldLetsThrough(terms, field, v)
  {
    assert AllInRange(terms, field) <==> AllWithin(terms, field) by {
      forall i | 0 <= i < |terms| ensures InRange(terms[i], field) <==> Within(terms[i], field) {}
    }
    if AllInRange(terms, field) {
      forall v ensures v in read.value <==> FieldLetsThrough(terms, field, v) {
        forall i | 0 <= i < |terms| ensures Admits(terms[i], field, v) <==> LetsThrough(terms[i], field, v) { AdmitsIff(terms[i], field, v); }
      }
    }
  }

  /** The day of the week, counted from Sunday. */
  function FromSunday(weekday: nat): nat {
    if weekday == 6 then 0 else weekday + 1
  }

  /** Minutes 0 to 59, hours 0 to 23, days 1 to 31, months 1 to 12, days of the week 0 to 6 from Sunday. */
  ghost predicate Readable(fields: seq<seq<Term>>)
    requires |fields| == 5
  {
    && AllWithin(fields[0], Bounds(0, 59)) && AllWithin(fields[1], Bounds(0, 23)) && AllWithin(fields[2], Bounds(1, 31))
    && AllWithin(fields[3], Bounds(1, 12)) && AllWithin(fields[4], Bounds(0, 6))
  }

  ghost predicate LetsMomentThrough(fields: seq<seq<Term>>, c: Civil)
    requires |fields| == 5
  {
    && FieldLetsThrough(fields[0], Bounds(0, 59), c.minute) && FieldLetsThrough(fields[1], Bounds(0, 23), c.hour)
    && FieldLetsThrough(fields[2], Bounds(1, 31), c.day) && FieldLetsThrough(fields[3], Bounds(1, 12), c.month)
    && FieldLetsThrough(fields[4], Bounds(0, 6), FromSunday(c.weekday))
  }

  /** The five fields have been read to these values. */
  ghost predicate FieldsAre(fields: seq<seq<Term>>, read: seq<Option<set<nat>>>)
    requires |fields| == 5 && |read| == 5
  {
    && FieldIs(fields[0], Bounds(0, 59), read[0]) && FieldIs(fields[1], Bounds(0, 23), read[1]) && FieldIs(fields[2], Bounds(1, 31), read[2])
    && FieldIs(fields[3], Bounds(1, 12), read[3]) && FieldIs(fields[4], Bounds(0, 6), read[4])
  }

  lemma ReadableIff(fields: seq<seq<Term>>, read: seq<Option<set<nat>>>)
    requires |fields| == 5 && |read| == 5 && FieldsAre(fields, read)
    ensures None in read <==> !Readable(fields)
  {
    FieldMeans(fields[0], Bounds(0, 59), read[0]);
    FieldMeans(fields[1], Bounds(0, 23), read[1]);
    FieldMeans(fields[2], Bounds(1, 31), read[2]);
    FieldMeans(fields[3], Bounds(1, 12), read[3]);
    FieldMeans(fields[4], Bounds(0, 6), read[4]);
    assert read == [read[0], read[1], read[2], read[3], read[4]];
  }

  lemma MatchesIff(fields: seq<seq<Term>>, read: seq<Option<set<nat>>>, c: Civil)
    requires |fields| == 5 && |read| == 5 && FieldsAre(fields, read) && None !in read && c.weekday <= 6
    ensures read[0].Some? && read[1].Some? && read[2].Some? && read[3].Some? && read[4].Some?
    ensures Matches(Expression(read[0].value, read[1].value, read[2].value, read[3].value, read[4].value), c) <==> LetsMomentThrough(fields, c)
  {
    assert read[0] != None && read[1] != None && read[2] != None && read[3] != None && read[4] != None;
    FieldMeans(fields[0], Bounds(0, 59), read[0]);
    FieldMeans(fields[1], Bounds(0, 23), read[1]);
    FieldMeans(fields[2], Bounds(1, 31), read[2]);
    FieldMeans(fields[3], Bounds(1, 12), read[3]);
    FieldMeans(fields[4], Bounds(0, 6), read[4]);
    assert (c.weekday + 1) % 7 == FromSunday(c.weekday);
  }

  /** A printed expression can be read exactly when every term is within its field, and then matches a moment exactly when
      all five fields let it through: the day of the month and the day of the week both, not either. */
  lemma ExpressionMeans(fields: seq<seq<Term>>, c: Civil)
    requires |fields| == 5 && (forall i :: 0 <= i < 5 ==> fields[i] != []) && c.weekday <= 6
    ensures var parsed := Parse(Join(PrintFields(fields), ' '));
      && (parsed.Some? <==> Readable(fields))
      && (parsed.Some? ==> (Matches(parsed.value, c) <==> LetsMomentThrough(fields, c)))
  {
    var read := FieldsRead(PrintFields(fields));
    ExpressionReads(fields);
    assert FieldsAre(fields, read) by {
      assert FIELD_BOUNDS[0] == Bounds(0, 59) && FIELD_BOUNDS[1] == Bounds(0, 23) && FIELD_BOUNDS[2] == Bounds(1, 31);
      assert FIELD_BOUNDS[3] == Bounds(1, 12) && FIELD_BOUNDS[4] == Bounds(0, 6);
    }
    ReadableIff(fields, read);
    if None !in read { MatchesIff(fields, read, c); }
  }

  // ---- other spellings ----------------------------------------------------------------

  lemma {:induction false} BadChunkIsError(chunks: seq<string>, field: Bounds, i: nat)
    requires i < |chunks| && ParseChunk(chunks[i], field) == None
    ensures ParseChunks(chunks, field) == None
  {
    if i < |chunks| - 1 { BadChunkIsError(chunks[..|chunks| - 1], field, i); }
  }

  /** An empty field, and a comma with nothing before or after it, are errors. */
  lemma StrayCommaIsError(text: string, field: Bounds)
    requires exists piece <- Split(Stripped(text), ',') :: Stripped(piece) == ""
    ensures ParseField(text, field) == None
  {
    var chunks := Split(Stripped(text), ',');
    if Stripped(text) != "" {
      var i :| 0 <= i < |chunks| && Stripped(chunks[i]) == "";
      BadChunkIsError(chunks, field, i);
    }
  }

  /** A step alone is a step over the whole field. */
  lemma StepAlone(n: nat, field: Bounds)
    ensures ParseChunk("/" + Digits(n), field) == ParseChunk("*/" + Digits(n), field)
  {
    var short, long := "/" + Digits(n), "*/" + Digits(n);
    NumberIsPlain(n);
    PlainIsWord(Digits(n));
    WordIsStripped(short);
    WordIsStripped(long);
    FoundAt(short, '/', 0);
    FoundAt(long, '/', 1);
    assert short[..0] == "" && long[..1] == "*" && short[1..] == Digits(n) && long[2..] == Digits(n);
    WordIsStripped("*");
  }
}
