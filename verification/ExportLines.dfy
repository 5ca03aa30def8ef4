/** The line format of an export: one JSON object per line, read back by splitting at every line boundary. */
module ExportLines {
  import opened CanonicalJson
  import opened Texts

  // ---- writing ------------------------------------------------------------------

  function Hex(n: nat): char
    requires n < 16
  {
    if n < 10 then n as char + '0' else (n - 10) as char + 'a'
  }

  /** A character inside a JSON text; only the quote, the backslash and the controls below space are escaped. */
  function Escape(c: char): string {
    if c == '"' then "\\\""
    else if c == '\\' then "\\\\"
    else if c == '\n' then "\\n"
    else if c == '\r' then "\\r"
    else if c == '\t' then "\\t"
    else if c == '\U{8}' then "\\b"
    else if c == '\U{c}' then "\\f"
    else if c < ' ' then "\\u00" + [Hex(c as int / 16), Hex(c as int % 16)]
    else [c]
  }

  function Escaped(s: string): string {
    if s == "" then "" else Escaped(s[..|s| - 1]) + Escape(s[|s| - 1])
  }

  function Quote(s: string): string {
    "\"" + Escaped(s) + "\""
  }

  function Joined(parts: seq<string>): string {
    if parts == [] then ""
    else if |parts| == 1 then parts[0]
    else Joined(parts[..|parts| - 1]) + ", " + parts[|parts| - 1]
  }

  function Print(v: Json): string {
    match v
    case Null => "null"
    case Bool(b) => if b then "true" else "false"
    case Num(n) => Show(Number(n))
    case Str(s) => Quote(s)
    case Arr(items) => "[" + Joined(seq(|items|, i requires 0 <= i < |items| => Print(items[i]))) + "]"
    case Obj(fields) => "{" + Joined(seq(|fields|, i requires 0 <= i < |fields| => Quote(Show(fields[i].key)) + ": " + Print(fields[i].value))) + "}"
  }

  function Lines(values: seq<Json>): (lines: seq<string>)
    ensures |lines| == |values|
  {
    seq(|values|, i requires 0 <= i < |values| => Print(values[i]))
  }

  /** The lines one after the other, each closed by a newline. */
  function FileText(lines: seq<string>): string {
    if lines == [] then "" else lines[0] + "\n" + FileText(lines[1..])
  }

  // ---- reading ------------------------------------------------------------------

  /** The characters that end a line for the reader: more of them than the writer escapes. */
  predicate Breaks(c: char) {
    '\n' <= c <= '\r' || '\U{1c}' <= c <= '\U{1e}' || c == '\U{85}' || c == '\U{2028}' || c == '\U{2029}'
  }

  predicate HasBreak(s: string) {
    exists i :: 0 <= i < |s| && Breaks(s[i])
  }

  /** Where the first line ends. */
  function LineEnd(s: string): (n: nat)
    ensures n <= |s| && (n < |s| ==> Breaks(s[n])) && forall i :: 0 <= i < n ==> !Breaks(s[i])
  {
    if s == "" || Breaks(s[0]) then 0 else 1 + LineEnd(s[1..])
  }

  /** A carriage return and the newline after it end one line together. */
  function SplitLines(s: string): seq<string>
    decreases |s|
  {
    if s == "" then []
    else
      var n := LineEnd(s);
      [s[..n]] + if n == |s| then [] else SplitLines(s[n + (if s[n] == '\r' && n + 1 < |s| && s[n + 1] == '\n' then 2 else 1)..])
  }

  /** Lines that are neither blank nor comments. */
  function DataLines(lines: seq<string>): seq<string> {
    if lines == [] then []
    else (if Blank(lines[0]) || lines[0][0] == '#' then [] else [lines[0]]) + DataLines(lines[1..])
  }

  function Read(text: string): seq<string> {
    DataLines(SplitLines(text))
  }

  // ---- what survives ------------------------------------------------------------

  lemma {:induction false} NoPieceBreaks(s: string, line: string)
    requires line in Read(s)
    ensures !HasBreak(line)
    decreases |s|
  {
    DataLinesAreLines(SplitLines(s), line);
    PiecesDoNotBreak(s, line);
  }

  lemma {:induction false} DataLinesAreLines(lines: seq<string>, line: string)
    requires line in DataLines(lines)
    ensures line in lines
  {
    if lines != [] && !(line == lines[0]) { DataLinesAreLines(lines[1..], line); }
  }

  lemma {:induction false} PiecesDoNotBreak(s: string, line: string)
    requires line in SplitLines(s)
    ensures !HasBreak(line)
    decreases |s|
  {
    var n := LineEnd(s);
    if line != s[..n] {
      PiecesDoNotBreak(s[n + (if s[n] == '\r' && n + 1 < |s| && s[n + 1] == '\n' then 2 else 1)..], line);
    }
  }

  predicate DataLine(line: string) {
    !Blank(line) && line[0] != '#'
  }

  lemma {:induction false} UnbrokenLinesComeBack(lines: seq<string>)
    requires forall i :: 0 <= i < |lines| ==> DataLine(lines[i]) && !HasBreak(lines[i])
    ensures Read(FileText(lines)) == lines
  {
    if lines != [] {
      var text := FileText(lines);
      var n := |lines[0]|;
      FirstBreakAt(text, n);
      assert text[..n] == lines[0];
      assert text[n + 1..] == FileText(lines[1..]);
      UnbrokenLinesComeBack(lines[1..]);
    }
  }

  lemma FirstBreakAt(s: string, n: nat)
    requires n < |s| && Breaks(s[n]) && !HasBreak(s[..n])
    ensures LineEnd(s) == n
  {
    forall i | 0 <= i < n ensures !Breaks(s[i]) {
      assert s[i] == s[..n][i];
    }
  }

  // ---- which values break -------------------------------------------------------

  /** The line boundaries the writer leaves as they are: next line, line separator, paragraph separator. */
  predicate Separator(c: char) {
    c == '\U{85}' || c == '\U{2028}' || c == '\U{2029}'
  }

  predicate HasSeparator(s: string) {
    exists i :: 0 <= i < |s| && Separator(s[i])
  }

  /** Some text in the value, a key included, holds one of them. */
  predicate Separated(v: Json) {
    match v
    case Str(s) => HasSeparator(s)
    case Arr(items) => exists i :: 0 <= i < |items| && Separated(items[i])
    case Obj(fields) => exists i :: 0 <= i < |fields| && (HasSeparator(Show(fields[i].key)) || Separated(fields[i].value))
    case _ => false
  }

  lemma BreakInEither(a: string, b: string)
    ensures HasBreak(a + b) <==> HasBreak(a) || HasBreak(b)
  {
    if HasBreak(a) {
      var i :| 0 <= i < |a| && Breaks(a[i]);
      assert Breaks((a + b)[i]);
    } else if HasBreak(b) {
      var i :| 0 <= i < |b| && Breaks(b[i]);
      assert Breaks((a + b)[|a| + i]);
    }
  }

  lemma EscapeBreaksIff(c: char)
    ensures HasBreak(Escape(c)) <==> Separator(c)
  {
    if Separator(c) { assert Breaks(Escape(c)[0]); }
  }

  lemma {:induction false} EscapedBreaksIff(s: string)
    ensures HasBreak(Escaped(s)) <==> HasSeparator(s)
  {
    if s != "" {
      var n := |s| - 1;
      EscapedBreaksIff(s[..n]);
      EscapeBreaksIff(s[n]);
      BreakInEither(Escaped(s[..n]), Escape(s[n]));
      if HasSeparator(s[..n]) {
        var i :| 0 <= i < n && Separator(s[..n][i]);
        assert Separator(s[i]);
      }
      if HasSeparator(s) {
        var i :| 0 <= i < |s| && Separator(s[i]);
        assert i < n ==> Separator(s[..n][i]);
      }
    }
  }

  lemma QuoteBreaksIff(s: string)
    ensures HasBreak(Quote(s)) <==> HasSeparator(s)
  {
    EscapedBreaksIff(s);
    BreakInEither("\"", Escaped(s));
    BreakInEither("\"" + Escaped(s), "\"");
  }

  lemma {:induction false} JoinedBreaksIff(parts: seq<string>)
    ensures HasBreak(Joined(parts)) <==> exists i :: 0 <= i < |parts| && HasBreak(parts[i])
  {
    if |parts| > 1 {
      var n := |parts| - 1;
      JoinedBreaksIff(parts[..n]);
      BreakInEither(Joined(parts[..n]), ", ");
      BreakInEither(Joined(parts[..n]) + ", ", parts[n]);
      if exists i :: 0 <= i < n && HasBreak(parts[..n][i]) {
        var i :| 0 <= i < n && HasBreak(parts[..n][i]);
        assert HasBreak(parts[i]);
      }
      if exists i :: 0 <= i < |parts| && HasBreak(parts[i]) {
        var i :| 0 <= i < |parts| && HasBreak(parts[i]);
        assert i < n ==> HasBreak(parts[..n][i]);
      }
    }
  }

  lemma BracketsDoNotBreak(open: string, inside: string, close: string)
    requires !HasBreak(open) && !HasBreak(close)
    ensures HasBreak(open + inside + close) <==> HasBreak(inside)
  {
    BreakInEither(open, inside);
    BreakInEither(open + inside, close);
  }

  lemma {:induction false} DigitsDoNotBreak(n: nat)
    ensures !HasBreak(Digits(n))
  {
    if n >= 10 {
      DigitsDoNotBreak(n / 10);
      BreakInEither(Digits(n / 10), [(n % 10) as char + '0']);
    }
  }

  lemma NumberDoesNotBreak(n: int)
    ensures !HasBreak(Show(Number(n)))
  {
    if n < 0 {
      DigitsDoNotBreak(-n);
      BreakInEither("-", Digits(-n));
    } else {
      DigitsDoNotBreak(n);
    }
  }

  /** A printed value holds a line boundary exactly when one of its texts holds one of the three. */
  lemma {:induction false} PrintBreaksIff(v: Json)
    ensures HasBreak(Print(v)) <==> Separated(v)
  {
    match v
    case Num(n) => NumberDoesNotBreak(n);
    case Str(s) => QuoteBreaksIff(s);
    case Arr(items) =>
      var parts := seq(|items|, i requires 0 <= i < |items| => Print(items[i]));
      forall i | 0 <= i < |items| ensures HasBreak(parts[i]) <==> Separated(items[i]) { PrintBreaksIff(items[i]); }
      JoinedBreaksIff(parts);
      BracketsDoNotBreak("[", Joined(parts), "]");
    case Obj(fields) =>
      var parts := seq(|fields|, i requires 0 <= i < |fields| => Quote(Show(fields[i].key)) + ": " + Print(fields[i].value));
      forall i | 0 <= i < |fields|
        ensures HasBreak(parts[i]) <==> HasSeparator(Show(fields[i].key)) || Separated(fields[i].value)
      {
        PrintBreaksIff(fields[i].value);
        FieldBreaksIff(Show(fields[i].key), Print(fields[i].value));
      }
      JoinedBreaksIff(parts);
      BracketsDoNotBreak("{", Joined(parts), "}");
    case _ =>
  }

  lemma FieldBreaksIff(key: string, value: string)
    ensures HasBreak(Quote(key) + ": " + value) <==> HasSeparator(key) || HasBreak(value)
  {
    QuoteBreaksIff(key);
    BreakInEither(Quote(key), ": ");
    BreakInEither(Quote(key) + ": ", value);
  }

  /** An export reads back line for line exactly when no text in it holds one of the three separators. */
  lemma ReadsBackIff(values: seq<Json>)
    requires forall i :: 0 <= i < |values| ==> values[i].Obj?
    ensures Read(FileText(Lines(values))) == Lines(values) <==> forall i :: 0 <= i < |values| ==> !Separated(values[i])
  {
    var lines := Lines(values);
    forall i | 0 <= i < |values| ensures DataLine(lines[i]) && (HasBreak(lines[i]) <==> Separated(values[i])) {
      assert lines[i][0] == '{' && !Space('{');
      PrintBreaksIff(values[i]);
    }
    if Read(FileText(lines)) == lines {
      forall i | 0 <= i < |values| ensures !Separated(values[i]) {
        assert lines[i] in Read(FileText(lines));
        NoPieceBreaks(FileText(lines), lines[i]);
      }
    } else if forall i :: 0 <= i < |values| ==> !Separated(values[i]) {
      UnbrokenLinesComeBack(lines);
    }
  }
}
