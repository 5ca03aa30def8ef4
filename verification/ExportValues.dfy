/** A JSON text stands for one value, so an export that is read back line for line is read back value for value. */
module ExportValues {
  import opened Wrappers
  import opened Texts
  import opened CanonicalJson
  import opened ExportLines

  // ---- what can follow a value --------------------------------------------------------

  /** Nothing, or what closes or separates values. */
  predicate Ends(s: string) {
    s == "" || s[0] == ',' || s[0] == ']' || s[0] == '}'
  }

  lemma SameCut(a: string, x: string, b: string, y: string)
    requires a + x == b + y && |a| == |b|
    ensures a == b && x == y
  {
    assert (a + x)[..|a|] == a && (b + y)[..|b|] == b;
    assert (a + x)[|a|..] == x && (b + y)[|b|..] == y;
  }

  lemma Regroup(a: string, b: string, c: string)
    ensures a + b + c == a + (b + c)
  {
  }

  // ---- texts in quotes ----------------------------------------------------------------

  lemma {:induction false} EscapedFirst(c: char, s: string)
    ensures Escaped([c] + s) == Escape(c) + Escaped(s)
  {
    var all := [c] + s;
    EscapedLast(all);
    if s == "" {
      assert all[..0] == "";
    } else {
      var n := |s| - 1;
      assert all[..n + 1] == [c] + s[..n];
      EscapedFirst(c, s[..n]);
      EscapedLast(s);
      Regroup(Escape(c), Escaped(s[..n]), Escape(s[n]));
    }
  }

  lemma EscapedLast(s: string)
    requires s != ""
    ensures Escaped(s) == Escaped(s[..|s| - 1]) + Escape(s[|s| - 1])
  {
  }

  /** No escape begins with a quote, and none begins another one. */
  lemma EscapesDiffer(c: char, d: char, x: string, y: string)
    requires Escape(c) + x == Escape(d) + y
    ensures c == d && x == y
  {
    var s := Escape(c) + x;
    assert s[..|Escape(c)|] == Escape(c) && s[..|Escape(d)|] == Escape(d);
    assert s[|Escape(c)|..] == x && s[|Escape(d)|..] == y;
    if |Escape(c)| == 6 { assert s[1] == Escape(c)[1] && s[4] == Escape(c)[4] && s[5] == Escape(c)[5]; }
    if |Escape(d)| == 6 { assert s[1] == Escape(d)[1] && s[4] == Escape(d)[4] && s[5] == Escape(d)[5]; }
    if |Escape(c)| == 2 { assert s[1] == Escape(c)[1]; }
    if |Escape(d)| == 2 { assert s[1] == Escape(d)[1]; }
    assert s[0] == Escape(c)[0] == Escape(d)[0];
  }

  /** The escaped text, the closing quote and what follows. */
  function Closed(a: string, s: string): string {
    Escaped(a) + "\"" + s
  }

  lemma EscapeBegins(c: char)
    ensures Escape(c) != "" && Escape(c)[0] != '"'
  {
  }

  lemma ClosedFirst(a: string, s: string)
    requires a != ""
    ensures Closed(a, s) == Escape(a[0]) + Closed(a[1..], s) && Closed(a, s)[0] != '"'
  {
    assert a == [a[0]] + a[1..];
    EscapedFirst(a[0], a[1..]);
    Regroup(Escape(a[0]), Escaped(a[1..]), "\"");
    Regroup(Escape(a[0]), Escaped(a[1..]) + "\"", s);
    EscapeBegins(a[0]);
  }

  lemma NothingClosed(s: string)
    ensures Closed("", s) == "\"" + s && Closed("", s)[0] == '"'
  {
  }

  lemma {:induction false} ClosedAgree(a: string, b: string, s: string, t: string)
    requires Closed(a, s) == Closed(b, t)
    ensures a == b && s == t
  {
    NothingClosed(s);
    NothingClosed(t);
    if b != "" { ClosedFirst(b, t); }
    if a == "" {
      SameCut("\"", s, "\"", t);
    } else {
      ClosedFirst(a, s);
      EscapesDiffer(a[0], b[0], Closed(a[1..], s), Closed(b[1..], t));
      ClosedAgree(a[1..], b[1..], s, t);
      assert a == [a[0]] + a[1..] && b == [b[0]] + b[1..];
    }
  }

  lemma QuotesAgree(a: string, b: string, s: string, t: string)
    requires Quote(a) + s == Quote(b) + t
    ensures a == b && s == t
  {
    assert (Quote(a) + s)[1..] == Closed(a, s);
    assert (Quote(b) + t)[1..] == Closed(b, t);
    ClosedAgree(a, b, s, t);
  }

  // ---- numbers --------------------------------------------------------------------------

  lemma DigitsAgree(a: string, b: string, s: string, t: string)
    requires IsNumber(a) && IsNumber(b) && Ends(s) && Ends(t) && a + s == b + t
    ensures a == b && s == t
  {
    RunIsNoLonger(a, b, s, t);
    RunIsNoLonger(b, a, t, s);
    assert (a + s)[..|a|] == a && (b + t)[..|b|] == b && (a + s)[|a|..] == s && (b + t)[|b|..] == t;
  }

  lemma RunIsNoLonger(a: string, b: string, s: string, t: string)
    requires IsNumber(a) && IsNumber(b) && Ends(s) && Ends(t) && a + s == b + t
    ensures |a| <= |b|
  {
    assert forall i :: 0 <= i < |a| ==> IsDigit((a + s)[i]);
    if t != "" { assert (b + t)[|b|] == t[0] && !IsDigit(t[0]); }
  }

  lemma NumberBegins(n: nat)
    ensures IsNumber(Digits(n)) && ReadNumber(Digits(n)) == n && IsDigit(Digits(n)[0])
  {
    NumberOfDigits(n);
  }

  lemma NaturalsAgree(m: nat, n: nat, s: string, t: string)
    requires Ends(s) && Ends(t) && Digits(m) + s == Digits(n) + t
    ensures m == n && s == t
  {
    NumberBegins(m);
    NumberBegins(n);
    DigitsAgree(Digits(m), Digits(n), s, t);
  }

  lemma NumbersAgree(m: int, n: int, s: string, t: string)
    requires Ends(s) && Ends(t) && Show(Number(m)) + s == Show(Number(n)) + t
    ensures m == n && s == t
  {
    SignShows(m, s);
    SignShows(n, t);
    if m < 0 {
      Regroup("-", Digits(-m), s);
      Regroup("-", Digits(-n), t);
      SameCut("-", Digits(-m) + s, "-", Digits(-n) + t);
      NaturalsAgree(-m, -n, s, t);
    } else {
      NaturalsAgree(m, n, s, t);
    }
  }

  lemma SignShows(n: int, s: string)
    ensures Show(Number(n)) != "" && ((Show(Number(n)) + s)[0] == '-' <==> n < 0)
    ensures n >= 0 ==> IsDigit(Show(Number(n))[0])
  {
    if n >= 0 { NumberBegins(n); }
  }

  // ---- lists ----------------------------------------------------------------------------

  lemma {:induction false} JoinedFirst(parts: seq<string>)
    requires |parts| > 1
    ensures Joined(parts) == parts[0] + ", " + Joined(parts[1..])
  {
    if |parts| > 2 {
      var n := |parts| - 1;
      JoinedFirst(parts[..n]);
      assert parts[..n][1..] == parts[1..][..n - 1];
    }
  }

  /** A part of one list and what can follow it agree with a part of the other only when they are the same. */
  ghost predicate Separable(a: seq<string>, b: seq<string>) {
    forall p, q, x, y :: p in a && q in b && Ends(x) && Ends(y) && p + x == q + y ==> p == q && x == y
  }

  /** No part is empty or begins as the list ends. */
  ghost predicate Opens(parts: seq<string>, close: char) {
    forall p <- parts :: p != "" && p[0] != close
  }

  /** The list from here on, its closing bracket and what follows. */
  function Listed(parts: seq<string>, close: char, s: string): string {
    Joined(parts) + [close] + s
  }

  /** What follows the first part. */
  function AfterFirst(parts: seq<string>, close: char, s: string): string
    requires parts != []
  {
    if |parts| == 1 then [close] + s else ", " + Listed(parts[1..], close, s)
  }

  lemma ListedFirst(parts: seq<string>, close: char, s: string)
    requires parts != [] && (close == ']' || close == '}')
    ensures Listed(parts, close, s) == parts[0] + AfterFirst(parts, close, s) && Ends(AfterFirst(parts, close, s))
  {
    if |parts| > 1 { JoinedFirst(parts); }
  }

  lemma {:induction false} ListsAgree(a: seq<string>, b: seq<string>, close: char, s: string, t: string)
    requires Separable(a, b) && Opens(a, close) && Opens(b, close) && (close == ']' || close == '}')
    requires Listed(a, close, s) == Listed(b, close, t)
    ensures a == b && s == t
    decreases |a|
  {
    if a == [] || b == [] {
      EmptyListsAgree(a, b, close, s, t);
    } else {
      FirstsAgree(a, b, close, s, t);
      if |a| > 1 { ListsAgree(a[1..], b[1..], close, s, t); }
      assert a == [a[0]] + a[1..] && b == [b[0]] + b[1..];
    }
  }

  lemma FirstsAgree(a: seq<string>, b: seq<string>, close: char, s: string, t: string)
    requires Separable(a, b) && a != [] && b != [] && (close == ']' || close == '}') && Listed(a, close, s) == Listed(b, close, t)
    ensures a[0] == b[0] && (|a| == 1 <==> |b| == 1) && (|a| == 1 ==> s == t)
    ensures |a| > 1 ==> Listed(a[1..], close, s) == Listed(b[1..], close, t)
  {
    ListedFirst(a, close, s);
    ListedFirst(b, close, t);
    var x, y := AfterFirst(a, close, s), AfterFirst(b, close, t);
    assert a[0] in a && b[0] in b && Ends(x) && Ends(y) && a[0] + x == b[0] + y;
    RestsAgree(a, b, close, s, t);
  }

  lemma EmptyListsAgree(a: seq<string>, b: seq<string>, close: char, s: string, t: string)
    requires a == [] || b == []
    requires Opens(a, close) && Opens(b, close) && (close == ']' || close == '}') && Listed(a, close, s) == Listed(b, close, t)
    ensures a == b && s == t
  {
    FirstOfList(a, close, s);
    FirstOfList(b, close, t);
    assert ([close] + s)[1..] == s && ([close] + t)[1..] == t;
  }

  lemma FirstOfList(parts: seq<string>, close: char, s: string)
    requires Opens(parts, close) && (close == ']' || close == '}')
    ensures Listed(parts, close, s) != "" && (Listed(parts, close, s)[0] == close <==> parts == [])
    ensures parts == [] ==> Listed(parts, close, s) == [close] + s
  {
    if parts != [] {
      ListedFirst(parts, close, s);
      assert parts[0] in parts;
    }
  }

  lemma RestsAgree(a: seq<string>, b: seq<string>, close: char, s: string, t: string)
    requires a != [] && b != [] && (close == ']' || close == '}') && AfterFirst(a, close, s) == AfterFirst(b, close, t)
    ensures |a| == 1 <==> |b| == 1
    ensures |a| == 1 ==> s == t
    ensures |a| > 1 ==> Listed(a[1..], close, s) == Listed(b[1..], close, t)
  {
    var x, y := AfterFirst(a, close, s), AfterFirst(b, close, t);
    assert |a| == 1 ==> x[0] == close && x[1..] == s;
    assert |b| == 1 ==> y[0] == close && y[1..] == t;
    assert |a| > 1 ==> x[0] == ',' && x[2..] == Listed(a[1..], close, s);
    assert |b| > 1 ==> y[0] == ',' && y[2..] == Listed(b[1..], close, t);
  }

  // ---- values ---------------------------------------------------------------------------

  /** The text of the value, and what can follow it, cannot be read in another way. */
  ghost predicate Unambiguous(v: Json) {
    forall w: Json, s: string, t: string :: TextKeyed(w) && Ends(s) && Ends(t) && Print(v) + s == Print(w) + t ==> v == w && s == t
  }

  /** How the text of a value begins. */
  function Opening(v: Json): char {
    match v
    case Null => 'n'
    case Bool(b) => if b then 't' else 'f'
    case Num(_) => '0'
    case Str(_) => '"'
    case Arr(_) => '['
    case Obj(_) => '{'
  }

  lemma PrintBegins(v: Json, s: string)
    ensures Print(v) != "" && (Print(v) + s)[0] == Print(v)[0] && Print(v)[0] !in {',', ']', '}'}
    ensures if v.Num? then IsDigit(Print(v)[0]) || Print(v)[0] == '-' else Print(v)[0] == Opening(v)
  {
    if v.Num? {
      NumberOfDigits(if v.n < 0 then -v.n else v.n);
      assert IsDigit(Digits(if v.n < 0 then -v.n else v.n)[0]);
    }
  }

  function Prints(items: seq<Json>): (parts: seq<string>)
    ensures |parts| == |items|
  {
    seq(|items|, i requires 0 <= i < |items| => Print(items[i]))
  }

  function PrintField(f: Field): string {
    Quote(Show(f.key)) + ": " + Print(f.value)
  }

  function PrintFields(fields: seq<Field>): (parts: seq<string>)
    ensures |parts| == |fields|
  {
    seq(|fields|, i requires 0 <= i < |fields| => PrintField(fields[i]))
  }

  lemma ArraysAgree(a: seq<Json>, b: seq<Json>, s: string, t: string)
    requires (forall x <- a :: Unambiguous(x)) && (forall y <- b :: TextKeyed(y)) && Listed(Prints(a), ']', s) == Listed(Prints(b), ']', t)
    ensures a == b && s == t
  {
    var p, q := Prints(a), Prints(b);
    forall i | 0 <= i < |a| ensures p[i] != "" && p[i][0] != ']' { PrintBegins(a[i], ""); }
    forall i | 0 <= i < |b| ensures q[i] != "" && q[i][0] != ']' { PrintBegins(b[i], ""); }
    forall k, l, x, y | 0 <= k < |a| && 0 <= l < |b| && Ends(x) && Ends(y) && p[k] + x == q[l] + y ensures p[k] == q[l] && x == y {
      assert a[k] in a && b[l] in b && Unambiguous(a[k]) && TextKeyed(b[l]);
    }
    ListsAgree(p, q, ']', s, t);
    forall i | 0 <= i < |a| ensures a[i] == b[i] {
      assert a[i] in a && b[i] in b && Unambiguous(a[i]) && TextKeyed(b[i]);
      assert p[i] + "" == q[i] + "" && Ends("");
    }
  }

  lemma FieldsAgree(f: Field, g: Field, s: string, t: string)
    requires Unambiguous(f.value) && TextKeyed(g.value) && f.key.Text? && g.key.Text? && Ends(s) && Ends(t)
    requires PrintField(f) + s == PrintField(g) + t
    ensures f == g && s == t
  {
    var x, y := Print(f.value) + s, Print(g.value) + t;
    FieldRegrouped(f, s);
    FieldRegrouped(g, t);
    QuotesAgree(f.key.text, g.key.text, ": " + x, ": " + y);
    SameCut(": ", x, ": ", y);
  }

  lemma FieldRegrouped(f: Field, s: string)
    ensures PrintField(f) + s == Quote(Show(f.key)) + (": " + (Print(f.value) + s))
  {
  }

  predicate TextKey(f: Field) {
    f.key.Text?
  }

  lemma ObjectsAgree(a: seq<Field>, b: seq<Field>, s: string, t: string)
    requires (forall f <- a :: TextKey(f) && Unambiguous(f.value)) && (forall g <- b :: TextKey(g) && TextKeyed(g.value))
    requires Listed(PrintFields(a), '}', s) == Listed(PrintFields(b), '}', t)
    ensures a == b && s == t
  {
    FieldsAreSeparable(a, b);
    ListsAgree(PrintFields(a), PrintFields(b), '}', s, t);
    forall i | 0 <= i < |a| ensures a[i] == b[i] {
      assert PrintFields(a)[i] == PrintFields(b)[i];
      assert a[i] in a && b[i] in b;
      FieldsAgree(a[i], b[i], "", "");
    }
  }

  lemma FieldsAreSeparable(a: seq<Field>, b: seq<Field>)
    requires (forall f <- a :: TextKey(f) && Unambiguous(f.value)) && (forall g <- b :: TextKey(g) && TextKeyed(g.value))
    ensures Separable(PrintFields(a), PrintFields(b)) && Opens(PrintFields(a), '}') && Opens(PrintFields(b), '}')
  {
    var p, q := PrintFields(a), PrintFields(b);
    forall k, l, x, y | 0 <= k < |a| && 0 <= l < |b| && Ends(x) && Ends(y) && p[k] + x == q[l] + y ensures p[k] == q[l] && x == y {
      assert a[k] in a && b[l] in b;
      FieldsAgree(a[k], b[l], x, y);
    }
  }

  /** No two values with text keys have the same text, whatever follows. */
  lemma {:induction false} PrintIsUnambiguous(v: Json)
    requires TextKeyed(v)
    ensures Unambiguous(v)
  {
    match v
    case Arr(items) =>
      forall x <- items ensures Unambiguous(x) { PrintIsUnambiguous(x); }
      FromParts(v);
    case Obj(fields) =>
      forall f <- fields ensures Unambiguous(f.value) { PrintIsUnambiguous(f.value); }
      FromParts(v);
    case _ => FromParts(v);
  }

  lemma FromParts(v: Json)
    requires TextKeyed(v)
    requires v.Arr? ==> forall x <- v.items :: Unambiguous(x)
    requires v.Obj? ==> forall f <- v.fields :: Unambiguous(f.value)
    ensures Unambiguous(v)
  {
    forall w: Json, s: string, t: string | TextKeyed(w) && Ends(s) && Ends(t) && Print(v) + s == Print(w) + t ensures v == w && s == t {
      ValuesAgree(v, w, s, t);
    }
  }

  lemma ValuesAgree(v: Json, w: Json, s: string, t: string)
    requires TextKeyed(v) && TextKeyed(w) && Ends(s) && Ends(t) && Print(v) + s == Print(w) + t
    requires v.Arr? ==> forall x <- v.items :: Unambiguous(x)
    requires v.Obj? ==> forall f <- v.fields :: Unambiguous(f.value)
    ensures v == w && s == t
  {
    SameKind(v, w, s, t);
    match v
    case Null => SameCut(Print(v), s, Print(w), t);
    case Bool(b) => SameCut(Print(v), s, Print(w), t);
    case Num(n) => NumbersAgree(n, w.n, s, t);
    case Str(a) => QuotesAgree(a, w.s, s, t);
    case Arr(items) =>
      ArrayText(items, s);
      ArrayText(w.items, t);
      SameCut("[", Listed(Prints(items), ']', s), "[", Listed(Prints(w.items), ']', t));
      ArraysAgree(items, w.items, s, t);
    case Obj(fields) =>
      ObjectText(fields, s);
      ObjectText(w.fields, t);
      SameCut("{", Listed(PrintFields(fields), '}', s), "{", Listed(PrintFields(w.fields), '}', t));
      ObjectsAgree(fields, w.fields, s, t);
  }

  lemma SameKind(v: Json, w: Json, s: string, t: string)
    requires Print(v) + s == Print(w) + t
    ensures v.Null? == w.Null? && v.Num? == w.Num? && v.Str? == w.Str? && v.Arr? == w.Arr? && v.Obj? == w.Obj?
    ensures v.Bool? == w.Bool? && (v.Bool? ==> v.b == w.b)
  {
    PrintBegins(v, s);
    PrintBegins(w, t);
  }

  lemma ArrayText(items: seq<Json>, s: string)
    ensures Print(Arr(items)) + s == "[" + Listed(Prints(items), ']', s)
  {
    assert seq(|items|, i requires 0 <= i < |items| => Print(items[i])) == Prints(items);
  }

  lemma ObjectText(fields: seq<Field>, s: string)
    ensures Print(Obj(fields)) + s == "{" + Listed(PrintFields(fields), '}', s)
  {
    assert seq(|fields|, i requires 0 <= i < |fields| => Quote(Show(fields[i].key)) + ": " + Print(fields[i].value)) == PrintFields(fields);
  }

  // ---- reading values back --------------------------------------------------------------

  /** The value a line stands for, if it is the text of one. */
  ghost function Decoded(line: string): Option<Json> {
    if v: Json :| TextKeyed(v) && Print(v) == line then Some(v) else None
  }

  lemma DecodedIff(line: string, v: Json)
    requires TextKeyed(v)
    ensures Decoded(line) == Some(v) <==> Print(v) == line
  {
    if Print(v) == line {
      var w := Decoded(line).value;
      PrintIsUnambiguous(v);
      assert Print(v) + "" == Print(w) + "" && Ends("");
    }
  }

  /** What the reader makes of an export: each data line as the value it stands for. */
  ghost function ReadValues(text: string): (read: seq<Option<Json>>)
    ensures |read| == |Read(text)|
  {
    seq(|Read(text)|, i requires 0 <= i < |Read(text)| => Decoded(Read(text)[i]))
  }

  ghost predicate ComesBack(values: seq<Json>) {
    var read := ReadValues(FileText(Lines(values)));
    |read| == |values| && forall i :: 0 <= i < |values| ==> read[i] == Some(values[i])
  }

  /** An export is read back value for value exactly when no text in it holds one of the three separators. */
  lemma ValuesComeBackIff(values: seq<Json>)
    requires forall i :: 0 <= i < |values| ==> values[i].Obj? && TextKeyed(values[i])
    ensures ComesBack(values) <==> forall i :: 0 <= i < |values| ==> !Separated(values[i])
  {
    var lines, read := Lines(values), Read(FileText(Lines(values)));
    ReadsBackIff(values);
    forall i | 0 <= i < |values| && i < |read| ensures Decoded(read[i]) == Some(values[i]) <==> read[i] == lines[i] {
      DecodedIff(read[i], values[i]);
    }
    if ComesBack(values) {
      forall i | 0 <= i < |values| ensures read[i] == lines[i] {
        assert ReadValues(FileText(lines))[i] == Some(values[i]);
      }
      assert read == lines;
    }
  }
}
