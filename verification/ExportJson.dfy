/** Exported lines are JSON: what is printed for a value stands for that value by the grammar of RFC 8259. */
module ExportJson {
  import opened Wrappers
  import opened CanonicalJson
  import opened Texts
  import opened ExportLines
  import opened ExportValues

  // ---- strings (section 7) ----------------------------------------------------------

  function HexValue(c: char): Option<nat> {
    if '0' <= c <= '9' then Some(c as nat - '0' as nat)
    else if 'a' <= c <= 'f' then Some(10 + c as nat - 'a' as nat)
    else if 'A' <= c <= 'F' then Some(10 + c as nat - 'A' as nat)
    else None
  }

  /** What a backslash and the character after it stand for. */
  function Unescape(c: char): Option<char> {
    match c
    case '"' => Some('"')
    case '\\' => Some('\\')
    case '/' => Some('/')
    case 'b' => Some('\U{8}')
    case 'f' => Some('\U{c}')
    case 'n' => Some('\U{a}')
    case 'r' => Some('\U{d}')
    case 't' => Some('\U{9}')
    case _ => None
  }

  /** What the first characters of a string's body stand for, and how many they are; of the escapes with four hexadecimal
      digits only those below 256 are read. */
  function FirstChar(body: string): (first: Option<(char, nat)>)
    requires body != ""
    ensures first.Some? ==> 0 < first.value.1 <= |body|
  {
    if body[0] == '"' || body[0] < ' ' then None
    else if body[0] != '\\' then Some((body[0], 1))
    else if |body| >= 2 && Unescape(body[1]).Some? then Some((Unescape(body[1]).value, 2))
    else if |body| >= 6 && body[1..4] == "u00" && HexValue(body[4]).Some? && HexValue(body[5]).Some? then
      Some(((16 * HexValue(body[4]).value + HexValue(body[5]).value) as char, 6))
    else None
  }

  /** The text a string's body stands for. */
  function Unescaped(body: string): Option<string> {
    if body == "" then Some("")
    else
      match FirstChar(body)
      case None => None
      case Some((c, n)) =>
        var rest := Unescaped(body[n..]);
        if rest.Some? then Some([c] + rest.value) else None
  }

  lemma EscapeReads(c: char, rest: string)
    ensures FirstChar(Escape(c) + rest) == Some((c, |Escape(c)|)) && (Escape(c) + rest)[|Escape(c)|..] == rest
  {
    var text := Escape(c) + rest;
    if |Escape(c)| == 6 {
      HexReads(c as nat / 16);
      HexReads(c as nat % 16);
      assert text[1..4] == Escape(c)[1..4] == "u00";
      assert text[4] == Escape(c)[4] && text[5] == Escape(c)[5];
    }
  }

  lemma HexReads(n: nat)
    requires n < 16
    ensures HexValue(Hex(n)) == Some(n)
  {
  }

  /** Escaping a text gives a body that stands for it. */
  lemma {:induction false} UnescapedEscaped(s: string)
    ensures Unescaped(Escaped(s)) == Some(s)
  {
    if s != "" {
      EscapedFirst(s[0], s[1..]);
      UnescapedEscaped(s[1..]);
      EscapeReads(s[0], Escaped(s[1..]));
      assert s == [s[0]] + s[1..];
    }
  }

  // ---- values (sections 3 to 6) -------------------------------------------------------

  /** Only the four characters that JSON lets stand between tokens. */
  predicate Gap(s: string) {
    forall i :: 0 <= i < |s| ==> s[i] in {' ', '\t', '\n', '\r'}
  }

  /** The parts one after the other, separated by commas. */
  ghost predicate Separates(text: string, parts: seq<string>)
    decreases |parts|
  {
    if parts == [] then Gap(text)
    else if |parts| == 1 then text == parts[0]
    else exists gap, rest :: Gap(gap) && text == parts[0] + "," + gap + rest && Separates(rest, parts[1..])
  }

  ghost predicate StandsForText(text: string, s: string) {
    exists body :: text == "\"" + body + "\"" && Unescaped(body) == Some(s)
  }

  ghost predicate StandsForNumber(text: string, n: int) {
    if n < 0 then exists digits :: text == "-" + digits && IsNumber(digits) && ReadNumber(digits) == -n
    else IsNumber(text) && ReadNumber(text) == n
  }

  ghost predicate StandsForField(text: string, f: Field)
    decreases f, 1
  {
    exists key, gap, value :: text == key + ":" + gap + value && Gap(gap) && StandsForText(key, Show(f.key)) && StandsFor(value, f.value)
  }

  ghost predicate StandsFor(text: string, v: Json)
    decreases v, 2
  {
    match v
    case Null => text == "null"
    case Bool(b) => text == if b then "true" else "false"
    case Num(n) => StandsForNumber(text, n)
    case Str(s) => StandsForText(text, s)
    case Arr(items) => exists inside, parts :: text == "[" + inside + "]" && Separates(inside, parts) && |parts| == |items|
                                               && forall i :: 0 <= i < |items| ==> StandsFor(parts[i], items[i])
    case Obj(fields) => exists inside, parts :: text == "{" + inside + "}" && Separates(inside, parts) && |parts| == |fields|
                                                && forall i :: 0 <= i < |fields| ==> StandsForField(parts[i], fields[i])
  }

  lemma {:induction false} JoinedSeparates(parts: seq<string>)
    ensures Separates(Joined(parts), parts)
    decreases |parts|
  {
    if |parts| > 1 {
      JoinedSeparates(parts[1..]);
      JoinedFirst(parts);
      assert Joined(parts) == parts[0] + "," + " " + Joined(parts[1..]);
      assert Gap(" ");
    }
  }

  lemma QuoteStands(s: string)
    ensures StandsForText(Quote(s), s)
  {
    UnescapedEscaped(s);
  }

  lemma NumberStands(n: int)
    ensures StandsForNumber(Show(Number(n)), n)
  {
    if n < 0 {
      NumberOfDigits(-n);
      assert Show(Number(n)) == "-" + Digits(-n);
    } else {
      NumberOfDigits(n);
    }
  }

  lemma FieldStands(f: Field)
    requires StandsFor(Print(f.value), f.value)
    ensures StandsForField(Quote(Show(f.key)) + ": " + Print(f.value), f)
  {
    QuoteStands(Show(f.key));
    assert Quote(Show(f.key)) + ": " + Print(f.value) == Quote(Show(f.key)) + ":" + " " + Print(f.value);
    assert Gap(" ");
  }

  lemma ArrayStands(items: seq<Json>)
    requires forall i :: 0 <= i < |items| ==> StandsFor(Print(items[i]), items[i])
    ensures StandsFor(Print(Arr(items)), Arr(items))
  {
    var parts := seq(|items|, i requires 0 <= i < |items| => Print(items[i]));
    JoinedSeparates(parts);
    assert Print(Arr(items)) == "[" + Joined(parts) + "]";
  }

  lemma ObjectStands(fields: seq<Field>)
    requires forall i :: 0 <= i < |fields| ==> StandsFor(Print(fields[i].value), fields[i].value)
    ensures StandsFor(Print(Obj(fields)), Obj(fields))
  {
    var parts := seq(|fields|, i requires 0 <= i < |fields| => Quote(Show(fields[i].key)) + ": " + Print(fields[i].value));
    forall i | 0 <= i < |fields| ensures StandsForField(parts[i], fields[i]) { FieldStands(fields[i]); }
    JoinedSeparates(parts);
    assert Print(Obj(fields)) == "{" + Joined(parts) + "}";
  }

  /** Every printed value stands for itself. */
  lemma {:induction false} PrintStandsFor(v: Json)
    ensures StandsFor(Print(v), v)
    decreases v
  {
    match v
    case Num(n) => NumberStands(n);
    case Str(s) => QuoteStands(s);
    case Arr(items) =>
      forall i | 0 <= i < |items| ensures StandsFor(Print(items[i]), items[i]) { PrintStandsFor(items[i]); }
      ArrayStands(items);
    case Obj(fields) =>
      forall i | 0 <= i < |fields| ensures StandsFor(Print(fields[i].value), fields[i].value) { PrintStandsFor(fields[i].value); }
      ObjectStands(fields);
    case _ =>
  }

  // ---- lines ------------------------------------------------------------------------

  /** The reader ends lines at these ten characters. */
  lemma BreaksAre(c: char)
    ensures Breaks(c) <==> c in {'\n', '\U{b}', '\U{c}', '\r', '\U{1c}', '\U{1d}', '\U{1e}', '\U{85}', '\U{2028}', '\U{2029}'}
  {
  }
}
