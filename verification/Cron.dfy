/** Five-field cron expressions: reading them, matching a moment, and finding the next matching minute. */
module Cron {
  import opened Wrappers
  import opened Texts

  // ---- fields -------------------------------------------------------------------------

  /** From `low` to `high`, every `step`-th value. */
  function Values(low: nat, high: nat, step: nat): (values: set<nat>)
    requires step > 0
    ensures forall v :: v in values <==> OnStep(v, low, high, step)
  {
    set v: nat | low <= v <= high && OnStep(v, low, high, step)
  }

  predicate OnStep(v: nat, low: nat, high: nat, step: nat)
    requires step > 0
  {
    low <= v <= high && (v - low) % step == 0
  }

  /** They are the start and what is reached from it in whole steps, up to and including the end. */
  lemma ValuesAreSteps(low: nat, high: nat, step: nat, v: nat)
    requires step > 0
    ensures v in Values(low, high, step) <==> v <= high && exists k: nat :: v == low + k * step
  {
    if v in Values(low, high, step) {
      assert v == low + (v - low) / step * step;
    }
    if k: nat :| v == low + k * step {
      RemainderIs(k * step, step, k, 0);
      assert k * step >= 0;
    }
  }

  lemma RemainderIs(x: nat, step: nat, q: nat, r: nat)
    requires r < step && x == q * step + r
    ensures x % step == r
  {
    var p := x / step;
    assert x == p * step + x % step;
    assert (q - p) * step == x % step - r;
    NoSmallMultiple(q - p, step);
  }

  lemma NoSmallMultiple(d: int, step: int)
    requires step >= 0
    ensures d == 0 || d * step >= step || d * step <= -step
  {
    if d >= 1 {
      assert (d - 1) * step >= 0;
    } else if d <= -1 {
      assert (-d - 1) * step >= 0;
    }
  }

  /** The text after the slash, as a step; without a slash the step is one. */
  function Step(chunk: string): Option<nat> {
    var slash := Find(chunk, '/');
    if slash == |chunk| then Some(1)
    else if !IsNumber(chunk[slash + 1..]) || ReadNumber(chunk[slash + 1..]) == 0 then None
    else Some(ReadNumber(chunk[slash + 1..]))
  }

  /** The text before the slash; nothing there means everything. */
  function Base(chunk: string): string {
    var slash := Find(chunk, '/');
    if slash == |chunk| then chunk
    else if Stripped(chunk[..slash]) == "" then "*" else Stripped(chunk[..slash])
  }

  datatype Bounds = Bounds(low: nat, high: nat)

  function Ends(base: string, field: Bounds): Option<Bounds> {
    var dash := Find(base, '-');
    if base == "*" then Some(field)
    else if dash < |base| then
      if IsNumber(base[..dash]) && IsNumber(base[dash + 1..]) then Some(Bounds(ReadNumber(base[..dash]), ReadNumber(base[dash + 1..]))) else None
    else if IsNumber(base) then Some(Bounds(ReadNumber(base), ReadNumber(base)))
    else None
  }

  /** One piece of a list; `None` for an error. */
  function ParseChunk(text: string, field: Bounds): Option<set<nat>> {
    var chunk := Stripped(text);
    if chunk == "" then None
    else
      var step, ends := Step(chunk), Ends(Base(chunk), field);
      if step == None || ends == None then None
      else if ends.value.low < field.low || ends.value.high > field.high || ends.value.low > ends.value.high then None
      else Some(Values(ends.value.low, ends.value.high, step.value))
  }

  /** The union of the pieces, unless one is in error. */
  function ParseChunks(chunks: seq<string>, field: Bounds): Option<set<nat>> {
    if chunks == [] then Some({})
    else
      var before, last := ParseChunks(chunks[..|chunks| - 1], field), ParseChunk(chunks[|chunks| - 1], field);
      if before == None || last == None then None else Some(before.value + last.value)
  }

  function ParseField(text: string, field: Bounds): Option<set<nat>> {
    if Stripped(text) == "" then None else ParseChunks(Split(Stripped(text), ','), field)
  }

  method ReadField(text: string, field: Bounds) returns (allowed: Option<set<nat>>)
    ensures allowed == ParseField(text, field)
  {
    var value := Stripped(text);
    if value == "" { return None; }
    var chunks, found: set<nat> := Split(value, ','), {};
    for i := 0 to |chunks|
      invariant ParseChunks(chunks[..i], field) == Some(found)
    {
      assert chunks[..i + 1][..i] == chunks[..i];
      var chunk := ParseChunk(chunks[i], field);
      if chunk == None {
        NoneStays(chunks, field, i + 1);
        return None;
      }
      found := found + chunk.value;
    }
    assert chunks[..|chunks|] == chunks;
    allowed := Some(found);
  }

  lemma {:induction false} NoneStays(chunks: seq<string>, field: Bounds, n: nat)
    requires n <= |chunks| && ParseChunks(chunks[..n], field) == None
    ensures ParseChunks(chunks, field) == None
    decreases |chunks|
  {
    if n == |chunks| {
      assert chunks[..n] == chunks;
    } else {
      assert chunks[..|chunks| - 1][..n] == chunks[..n];
      NoneStays(chunks[..|chunks| - 1], field, n);
    }
  }

  // ---- expressions --------------------------------------------------------------------

  const FIELD_BOUNDS: seq<Bounds> := [Bounds(0, 59), Bounds(0, 23), Bounds(1, 31), Bounds(1, 12), Bounds(0, 6)]

  datatype Expression = Expression(minute: set<nat>, hour: set<nat>, day: set<nat>, month: set<nat>, weekday: set<nat>)

  function Parse(text: string): Option<Expression> {
    var words := Words(Stripped(text));
    if |words| != 5 then None
    else
      var minute, hour := ParseField(words[0], FIELD_BOUNDS[0]), ParseField(words[1], FIELD_BOUNDS[1]);
      var day, month := ParseField(words[2], FIELD_BOUNDS[2]), ParseField(words[3], FIELD_BOUNDS[3]);
      var weekday := ParseField(words[4], FIELD_BOUNDS[4]);
      if minute == None || hour == None || day == None || month == None || weekday == None then None
      else Some(Expression(minute.value, hour.value, day.value, month.value, weekday.value))
  }

  /** A minute's calendar fields; the week starts on Monday, as zero. */
  datatype Civil = Civil(minute: nat, hour: nat, day: nat, month: nat, weekday: nat)

  /** All five fields have to match; the expression's week starts on Sunday. */
  predicate Matches(e: Expression, c: Civil) {
    c.minute in e.minute && c.hour in e.hour && c.day in e.day && c.month in e.month && (c.weekday + 1) % 7 in e.weekday
  }

  // ---- the next minute ----------------------------------------------------------------

  /** Instants are counted in microseconds. */
  const MINUTE: int := 60_000_000

  type Calendar = int -> Civil

  /** The least whole minute that matches strictly after the moment, within the horizon; none exactly when there is none. */
  method NextAfter(e: Expression, calendar: Calendar, moment: int, days: nat) returns (next: Option<int>)
    ensures next.Some? ==> next.value % MINUTE == 0 && Matches(e, calendar(next.value)) && moment < next.value <= moment + days * 1440 * MINUTE
    ensures next.Some? ==> forall t :: moment < t < next.value ==> !(t % MINUTE == 0 && Matches(e, calendar(t)))
    ensures next.None? ==> forall t :: moment < t <= moment + days * 1440 * MINUTE ==> !(t % MINUTE == 0 && Matches(e, calendar(t)))
  {
    var candidate := (moment / MINUTE + 1) * MINUTE;
    var limit := moment + days * 1440 * MINUTE;
    while candidate <= limit
      invariant candidate % MINUTE == 0 && moment < candidate
      invariant forall t :: moment < t < candidate ==> !(t % MINUTE == 0 && Matches(e, calendar(t)))
      decreases limit - candidate
    {
      if Matches(e, calendar(candidate)) { return Some(candidate); }
      candidate := candidate + MINUTE;
    }
    next := None;
  }

  // ---- what reading a field gives -----------------------------------------------------

  lemma ChunkWithinField(text: string, field: Bounds)
    requires ParseChunk(text, field).Some?
    ensures forall v <- ParseChunk(text, field).value :: field.low <= v <= field.high
  {
  }

  lemma {:induction false} ChunksWithinField(chunks: seq<string>, field: Bounds)
    requires ParseChunks(chunks, field).Some?
    ensures forall v <- ParseChunks(chunks, field).value :: field.low <= v <= field.high
  {
    if chunks != [] {
      ChunksWithinField(chunks[..|chunks| - 1], field);
      ChunkWithinField(chunks[|chunks| - 1], field);
    }
  }

  /** Whatever the text, what it allows lies within the field, and it allows something. */
  lemma ParsedFieldIsWithin(text: string, field: Bounds)
    requires ParseField(text, field).Some?
    ensures ParseField(text, field).value != {}
    ensures forall v <- ParseField(text, field).value :: field.low <= v <= field.high
  {
    var chunks := Split(Stripped(text), ',');
    ChunksWithinField(chunks, field);
    var last := ParseChunk(chunks[|chunks| - 1], field);
    var ends := Ends(Base(Stripped(chunks[|chunks| - 1])), field);
    assert ends.value.low in last.value;
    assert ends.value.low in ParseField(text, field).value;
  }

  // ---- printed fields -----------------------------------------------------------------

  datatype Span = All | One(a: nat) | FromTo(a: nat, b: nat)

  /** A list element: a span, and a step if there is one. */
  datatype Term = Term(span: Span, step: Option<nat>)

  function PrintSpan(s: Span): string {
    match s
    case All => "*"
    case One(a) => Digits(a)
    case FromTo(a, b) => Digits(a) + "-" + Digits(b)
  }

  function PrintTerm(t: Term): string {
    PrintSpan(t.span) + if t.step.Some? then "/" + Digits(t.step.value) else ""
  }

  function SpanEnds(s: Span, field: Bounds): Bounds {
    match s
    case All => field
    case One(a) => Bounds(a, a)
    case FromTo(a, b) => Bounds(a, b)
  }

  predicate InRange(t: Term, field: Bounds) {
    var ends := SpanEnds(t.span, field);
    field.low <= ends.low <= ends.high <= field.high && (t.step.Some? ==> t.step.value > 0)
  }

  /** The term lets the value through. */
  predicate Admits(t: Term, field: Bounds, v: nat)
    requires InRange(t, field)
  {
    var ends := SpanEnds(t.span, field);
    OnStep(v, ends.low, ends.high, if t.step.Some? then t.step.value else 1)
  }

  predicate Plain(s: string) {
    s != "" && forall i :: 0 <= i < |s| ==> IsDigit(s[i]) || s[i] == '-' || s[i] == '*'
  }

  lemma NumberIsPlain(n: nat)
    ensures Plain(Digits(n)) && IsNumber(Digits(n)) && ReadNumber(Digits(n)) == n
  {
    NumberOfDigits(n);
  }

  lemma SpanReads(s: Span, field: Bounds)
    ensures Plain(PrintSpan(s)) && Ends(PrintSpan(s), field) == Some(SpanEnds(s, field))
  {
    match s
    case All =>
    case One(a) =>
      NumberIsPlain(a);
      NumberHasNo(Digits(a), '-');
    case FromTo(a, b) =>
      NumberIsPlain(a);
      NumberIsPlain(b);
      FoundAt(PrintSpan(s), '-', |Digits(a)|);
      assert PrintSpan(s)[..|Digits(a)|] == Digits(a) && PrintSpan(s)[|Digits(a)| + 1..] == Digits(b);
      assert PrintSpan(s) != "*" by { assert PrintSpan(s)[0] == Digits(a)[0]; }
  }

  lemma NumberHasNo(s: string, c: char)
    requires IsNumber(s) && !IsDigit(c)
    ensures Find(s, c) == |s| && s != "*"
  {
    FoundAt(s, c, |s|);
    assert IsDigit(s[0]);
  }

  lemma PlainIsWord(s: string)
    requires Plain(s)
    ensures IsWord(s) && Find(s, '/') == |s| && Find(s, ',') == |s|
  {
    FoundAt(s, '/', |s|);
    FoundAt(s, ',', |s|);
  }

  lemma TermReads(t: Term, field: Bounds)
    ensures var text := PrintTerm(t);
      && IsWord(text) && ',' !in text && Base(text) == PrintSpan(t.span)
      && Step(text) == match t.step case None => Some(1) case Some(n) => if n == 0 then None else t.step
  {
    var span, text := PrintSpan(t.span), PrintTerm(t);
    SpanReads(t.span, field);
    PlainIsWord(span);
    if t.step.None? {
      assert text == span;
    } else {
      NumberIsPlain(t.step.value);
      PlainIsWord(Digits(t.step.value));
      FoundAt(text, '/', |span|);
      assert text[..|span|] == span && text[|span| + 1..] == Digits(t.step.value);
      WordIsStripped(span);
    }
  }

  /** What was read is what the term admits, or an error if it is out of range. */
  ghost predicate TermIs(t: Term, field: Bounds, read: Option<set<nat>>) {
    if InRange(t, field) then read.Some? && forall v :: v in read.value <==> Admits(t, field, v) else read == None
  }

  lemma ChunkReads(t: Term, field: Bounds)
    ensures TermIs(t, field, ParseChunk(PrintTerm(t), field))
  {
    TermReads(t, field);
    SpanReads(t.span, field);
    WordIsStripped(PrintTerm(t));
  }

  function PrintTerms(terms: seq<Term>): (texts: seq<string>)
    ensures |texts| == |terms|
  {
    seq(|terms|, i requires 0 <= i < |terms| => PrintTerm(terms[i]))
  }

  function PrintField(terms: seq<Term>): string
    requires terms != []
  {
    Join(PrintTerms(terms), ',')
  }

  predicate AllInRange(terms: seq<Term>, field: Bounds) {
    forall i :: 0 <= i < |terms| ==> InRange(terms[i], field)
  }

  predicate SomeAdmits(terms: seq<Term>, field: Bounds, v: nat)
    requires AllInRange(terms, field)
  {
    exists i :: 0 <= i < |terms| && Admits(terms[i], field, v)
  }

  /** What was read is what the terms admit together, or an error if one of them is out of range. */
  ghost predicate FieldIs(terms: seq<Term>, field: Bounds, read: Option<set<nat>>) {
    if AllInRange(terms, field) then read.Some? && forall v :: v in read.value <==> SomeAdmits(terms, field, v) else read == None
  }

  lemma {:induction false} ChunksRead(terms: seq<Term>, field: Bounds)
    ensures FieldIs(terms, field, ParseChunks(PrintTerms(terms), field))
  {
    if terms != [] {
      var n := |terms| - 1;
      assert PrintTerms(terms)[..n] == PrintTerms(terms[..n]);
      ChunksRead(terms[..n], field);
      ChunkReads(terms[n], field);
      ChunkAdded(terms, field, ParseChunks(PrintTerms(terms[..n]), field), ParseChunk(PrintTerm(terms[n]), field));
    }
  }

  lemma ChunkAdded(terms: seq<Term>, field: Bounds, before: Option<set<nat>>, last: Option<set<nat>>)
    requires terms != [] && FieldIs(terms[..|terms| - 1], field, before) && TermIs(terms[|terms| - 1], field, last)
    ensures FieldIs(terms, field, if before == None || last == None then None else Some(before.value + last.value))
  {
    var n := |terms| - 1;
    InRangeAdded(terms, field);
    if AllInRange(terms, field) {
      forall v: nat ensures v in before.value + last.value <==> SomeAdmits(terms, field, v) { OneTermMore(terms, field, v); }
    }
  }

  lemma InRangeAdded(terms: seq<Term>, field: Bounds)
    requires terms != []
    ensures AllInRange(terms, field) <==> AllInRange(terms[..|terms| - 1], field) && InRange(terms[|terms| - 1], field)
  {
    if AllInRange(terms[..|terms| - 1], field) {
      forall i | 0 <= i < |terms| - 1 ensures InRange(terms[i], field) { assert InRange(terms[..|terms| - 1][i], field); }
    }
  }

  lemma OneTermMore(terms: seq<Term>, field: Bounds, v: nat)
    requires terms != [] && AllInRange(terms, field)
    ensures SomeAdmits(terms, field, v) <==> SomeAdmits(terms[..|terms| - 1], field, v) || Admits(terms[|terms| - 1], field, v)
  {
    var n := |terms| - 1;
    if SomeAdmits(terms[..n], field, v) {
      var i :| 0 <= i < n && Admits(terms[..n][i], field, v);
      assert Admits(terms[i], field, v);
    }
    if SomeAdmits(terms, field, v) {
      var i :| 0 <= i < |terms| && Admits(terms[i], field, v);
      assert i < n ==> Admits(terms[..n][i], field, v);
    }
  }

  lemma PrintedFieldIsWord(terms: seq<Term>, field: Bounds)
    requires terms != []
    ensures IsWord(PrintField(terms)) && Split(PrintField(terms), ',') == PrintTerms(terms)
  {
    forall i | 0 <= i < |terms| ensures IsWord(PrintTerms(terms)[i]) && ',' !in PrintTerms(terms)[i] {
      TermReads(terms[i], field);
    }
    JoinedIsWord(PrintTerms(terms));
    SplitOfJoin(PrintTerms(terms), ',');
  }

  lemma {:induction false} JoinedIsWord(texts: seq<string>)
    requires texts != [] && forall t <- texts :: IsWord(t)
    ensures IsWord(Join(texts, ','))
  {
    assert IsWord(texts[0]);
    if |texts| > 1 { JoinedIsWord(texts[1..]); }
  }

  /** A printed field reads as exactly the values its terms admit; if a term is out of range, as an error. */
  lemma FieldReads(terms: seq<Term>, field: Bounds)
    requires terms != []
    ensures FieldIs(terms, field, ParseField(PrintField(terms), field))
  {
    PrintedFieldIsWord(terms, field);
    WordIsStripped(PrintField(terms));
    ChunksRead(terms, field);
  }

  function PrintFields(fields: seq<seq<Term>>): (words: seq<string>)
    requires forall i :: 0 <= i < |fields| ==> fields[i] != []
    ensures |words| == |fields|
  {
    seq(|fields|, i requires 0 <= i < |fields| => PrintField(fields[i]))
  }

  /** What each field reads as, in order. */
  function FieldsRead(words: seq<string>): (read: seq<Option<set<nat>>>)
    requires |words| == 5
    ensures |read| == 5
  {
    seq(5, i requires 0 <= i < 5 => ParseField(words[i], FIELD_BOUNDS[i]))
  }

  lemma ParseIsFieldsRead(text: string, words: seq<string>)
    requires Words(Stripped(text)) == words && |words| == 5
    ensures var read := FieldsRead(words);
      if None in read then Parse(text) == None
      else Parse(text) == Some(Expression(read[0].value, read[1].value, read[2].value, read[3].value, read[4].value))
  {
    var read := FieldsRead(words);
    if None in read {
      var i :| 0 <= i < 5 && read[i] == None;
      assert i == 0 || i == 1 || i == 2 || i == 3 || i == 4;
    } else {
      assert read[0] != None && read[1] != None && read[2] != None && read[3] != None && read[4] != None;
    }
  }

  /** A printed expression reads as its five fields, and is an error exactly when one of its terms is out of range. */
  lemma ExpressionReads(fields: seq<seq<Term>>)
    requires |fields| == 5 && forall i :: 0 <= i < 5 ==> fields[i] != []
    ensures
      var text, read := Join(PrintFields(fields), ' '), FieldsRead(PrintFields(fields));
      && (forall i :: 0 <= i < 5 ==> FieldIs(fields[i], FIELD_BOUNDS[i], read[i]))
      && if None in read then Parse(text) == None
         else Parse(text) == Some(Expression(read[0].value, read[1].value, read[2].value, read[3].value, read[4].value))
  {
    var words := PrintFields(fields);
    forall i | 0 <= i < 5 ensures IsWord(words[i]) && FieldIs(fields[i], FIELD_BOUNDS[i], FieldsRead(words)[i]) {
      PrintedFieldIsWord(fields[i], FIELD_BOUNDS[i]);
      FieldReads(fields[i], FIELD_BOUNDS[i]);
    }
    JoinIsStripped(words);
    WordsOfJoin(words);
    ParseIsFieldsRead(Join(words, ' '), words);
  }

  /** Words joined by single spaces have nothing to strip at either end. */
  lemma JoinIsStripped(words: seq<string>)
    requires words != [] && forall w <- words :: IsWord(w)
    ensures Stripped(Join(words, ' ')) == Join(words, ' ')
  {
    EndsOfJoin(words);
  }

  lemma {:induction false} EndsOfJoin(words: seq<string>)
    requires words != [] && forall w <- words :: IsWord(w)
    ensures var s := Join(words, ' '); s != "" && !Space(s[0]) && !Space(s[|s| - 1])
  {
    assert IsWord(words[0]);
    if |words| > 1 { EndsOfJoin(words[1..]); }
  }
}
