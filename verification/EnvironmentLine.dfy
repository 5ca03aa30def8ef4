/** Rewriting the `environment:` line of an artifact's text. The first line that starts with the key is replaced,
    together with any blank space after the key, even across line breaks; without one, a line is added at the end. */
module EnvironmentLine {
  import opened Texts

  const KEY := "environment:"

  /** The key stands at `p`, at the start of a line. */
  predicate KeyAt(text: string, p: nat) {
    p + |KEY| <= |text| && (p == 0 || text[p - 1] == '\n') && text[p..p + |KEY|] == KEY
  }

  /** The first place from `from` on where the key starts a line, or the end. */
  function FindKey(text: string, from: nat): (p: nat)
    requires from <= |text|
    ensures from <= p <= |text|
    ensures p < |text| ==> KeyAt(text, p)
    ensures forall q :: from <= q < p ==> !KeyAt(text, q)
    decreases |text| - from
  {
    if from == |text| || KeyAt(text, from) then from else FindKey(text, from + 1)
  }

  function SkipSpace(text: string, from: nat): (p: nat)
    requires from <= |text|
    ensures from <= p <= |text|
    ensures forall q :: from <= q < p ==> Space(text[q])
    ensures p < |text| ==> !Space(text[p])
    decreases |text| - from
  {
    if from == |text| || !Space(text[from]) then from else SkipSpace(text, from + 1)
  }

  function SkipLine(text: string, from: nat): (p: nat)
    requires from <= |text|
    ensures from <= p <= |text|
    ensures forall q :: from <= q < p ==> text[q] != '\n'
    ensures p < |text| ==> text[p] == '\n'
    decreases |text| - from
  {
    if from == |text| || text[from] == '\n' then from else SkipLine(text, from + 1)
  }

  function StripNewlines(text: string): (r: string)
    ensures r <= text && (r != "" ==> r[|r| - 1] != '\n')
    ensures forall i :: |r| <= i < |text| ==> text[i] == '\n'
  {
    if text != "" && text[|text| - 1] == '\n' then StripNewlines(text[..|text| - 1]) else text
  }

  /** Where the replaced stretch that starts at `p` ends. */
  function Stretch(text: string, p: nat): (e: nat)
    requires p + |KEY| <= |text|
    ensures p + |KEY| <= e <= |text|
  {
    SkipLine(text, SkipSpace(text, p + |KEY|))
  }

  function Line(environment: string): string {
    KEY + " " + environment
  }

  function SetLine(text: string, environment: string): string {
    var p := FindKey(text, 0);
    if p < |text| then text[..p] + Line(environment) + text[Stretch(text, p)..]
    else StripNewlines(text) + "\n" + Line(environment) + "\n"
  }

  /** The first environment line is already spelled the way `SetLine` spells it. */
  predicate Canonical(text: string, environment: string) {
    var p := FindKey(text, 0);
    p < |text| && text[p..Stretch(text, p)] == Line(environment)
  }

  /** A value that stays on its line: not empty, not led by a space, no line break. */
  predicate Plain(environment: string) {
    environment != "" && !Space(environment[0]) && '\n' !in environment
  }

  // ---- proofs ---------------------------------------------------------------

  lemma FirstKeyIs(text: string, p: nat)
    requires KeyAt(text, p) && forall q :: 0 <= q < p ==> !KeyAt(text, q)
    ensures FindKey(text, 0) == p
  {
  }

  lemma KeyHasNoBreak(text: string, q: nat, k: nat)
    requires KeyAt(text, q) && k < |KEY|
    ensures text[q + k] != '\n'
  {
    assert text[q + k] == text[q..q + |KEY|][k] == KEY[k];
  }

  /** A key that starts before the line break that ends the head lies within the head. */
  lemma KeyInHead(head: string, text: string, q: nat)
    requires head <= text && q < |head| && head[|head| - 1] == '\n' && KeyAt(text, q)
    ensures KeyAt(head, q)
  {
    if q + |KEY| > |head| {
      KeyHasNoBreak(text, q, |head| - 1 - q);
    } else {
      assert head[q..q + |KEY|] == text[q..q + |KEY|];
    }
  }

  /** In `head + line + tail`, where the head ends a line and holds no key, the first key is the line's. */
  lemma KeyIsAfterHead(head: string, environment: string, tail: string)
    requires head == "" || head[|head| - 1] == '\n'
    requires forall q :: 0 <= q < |head| ==> !KeyAt(head, q)
    ensures FindKey(head + Line(environment) + tail, 0) == |head|
  {
    var text := head + Line(environment) + tail;
    assert text[|head|..|head| + |KEY|] == KEY;
    forall q | 0 <= q < |head| ensures !KeyAt(text, q) {
      if KeyAt(text, q) { KeyInHead(head, text, q); }
    }
    FirstKeyIs(text, |head|);
  }

  /** The stretch of a plain value's line is that line. */
  lemma StretchIsLine(head: string, environment: string, tail: string)
    requires Plain(environment) && (tail == "" || tail[0] == '\n')
    ensures Stretch(head + Line(environment) + tail, |head|) == |head| + |Line(environment)|
  {
    var text := head + Line(environment) + tail;
    var value := |head| + |KEY| + 1;
    assert text[value - 1] == ' ' && text[value] == environment[0];
    assert SkipSpace(text, |head| + |KEY|) == value;
    var end := |head| + |Line(environment)|;
    forall q | value <= q < end ensures text[q] != '\n' {
      assert text[q] == environment[q - value];
    }
    assert end < |text| ==> text[end] == tail[0];
    assert SkipLine(text, value) == end;
  }

  lemma SetLineOn(head: string, environment: string, tail: string, next: string)
    requires head == "" || head[|head| - 1] == '\n'
    requires forall q :: 0 <= q < |head| ==> !KeyAt(head, q)
    requires Plain(environment) && (tail == "" || tail[0] == '\n')
    ensures SetLine(head + Line(environment) + tail, next) == head + Line(next) + tail
  {
    var text := head + Line(environment) + tail;
    KeyIsAfterHead(head, environment, tail);
    StretchIsLine(head, environment, tail);
    assert text[..|head|] == head && text[|head| + |Line(environment)|..] == tail;
  }

  /** Every text has a head and a tail around its environment line, and setting the line keeps both. */
  lemma SetLineShape(text: string, environment: string) returns (head: string, tail: string)
    ensures head == "" || head[|head| - 1] == '\n'
    ensures forall q :: 0 <= q < |head| ==> !KeyAt(head, q)
    ensures tail == "" || tail[0] == '\n'
    ensures forall e :: SetLine(text, e) == head + Line(e) + tail
  {
    var p := FindKey(text, 0);
    if p < |text| {
      head, tail := text[..p], text[Stretch(text, p)..];
      forall q | 0 <= q < |head| ensures !KeyAt(head, q) {
        if KeyAt(head, q) {
          assert head[q..q + |KEY|] == text[q..q + |KEY|];
          assert KeyAt(text, q);
        }
      }
    } else {
      var body := StripNewlines(text);
      head, tail := body + "\n", "\n";
      forall q | 0 <= q < |head| ensures !KeyAt(head, q) {
        if KeyAt(head, q) {
          assert head[q..q + |KEY|][|KEY| - 1] == ':';
          assert q + |KEY| <= |body|;
          assert head[q..q + |KEY|] == text[q..q + |KEY|];
          assert KeyAt(text, q);
        }
      }
    }
  }

  /** Last write wins: what was set before leaves no trace. */
  lemma LastWriteWins(text: string, first: string, second: string)
    requires Plain(first)
    ensures SetLine(SetLine(text, first), second) == SetLine(text, second)
  {
    var head, tail := SetLineShape(text, first);
    SetLineOn(head, first, tail, second);
  }

  lemma SameMiddle(text: string, p: nat, e: nat, line: string)
    requires p <= e <= |text|
    ensures text[..p] + line + text[e..] == text <==> text[p..e] == line
  {
    assert text == text[..p] + text[p..e] + text[e..];
    if text[..p] + line + text[e..] == text {
      assert |line| == e - p;
      assert (text[..p] + line + text[e..])[p..e] == line;
    }
  }

  /** Setting the line changes nothing exactly when it was already there, in canonical spelling. */
  lemma SetLineIsIdentityIff(text: string, environment: string)
    ensures SetLine(text, environment) == text <==> Canonical(text, environment)
  {
    var p := FindKey(text, 0);
    if p < |text| {
      SameMiddle(text, p, Stretch(text, p), Line(environment));
    } else if SetLine(text, environment) == text {
      AddedLineHasKey(StripNewlines(text), environment);
    }
  }

  lemma AddedLineHasKey(body: string, environment: string)
    ensures KeyAt(body + "\n" + Line(environment) + "\n", |body| + 1)
  {
    var text := body + "\n" + Line(environment) + "\n";
    assert text[|body| + 1..|body| + 1 + |KEY|] == KEY;
  }

  // ---- what is written ------------------------------------------------------------

  /** A line that starts with the key begins at `p`. */
  ghost predicate LineWithKeyAt(text: string, p: nat) {
    p + |"environment:"| <= |text| && text[p..p + |"environment:"|] == "environment:" && (p > 0 ==> text[p - 1] == '\n')
  }

  /** The first line with the key, and what stands around it: blank space after the key, which may go on over line breaks, and a
      value up to the end of its line. */
  ghost predicate Parted(text: string, head: string, gap: string, value: string, tail: string) {
    && text == head + "environment:" + gap + value + tail
    && LineWithKeyAt(text, |head|) && (forall q :: 0 <= q < |head| ==> !LineWithKeyAt(text, q))
    && (forall i :: 0 <= i < |gap| ==> Space(gap[i])) && (if value == "" then tail == "" else !Space(value[0]))
    && '\n' !in value && (tail == "" || tail[0] == '\n')
  }

  /** The first line with the key is replaced together with the space after the key and the rest of the value's line. */
  lemma SetLineReplaces(text: string, environment: string, head: string, gap: string, value: string, tail: string)
    requires Parted(text, head, gap, value, tail)
    ensures SetLine(text, environment) == head + "environment: " + environment + tail
  {
    var middle := "environment:" + gap + value;
    assert text == head + middle + tail;
    PartsOf(head, middle, tail);
    FirstKeyOf(text, head, gap, value, tail);
    assert Stretch(text, |head|) == |head| + |middle| by { StretchEndsAt(text, head, gap, value, tail); }
    assert Line(environment) == "environment: " + environment;
  }

  lemma FirstKeyOf(text: string, head: string, gap: string, value: string, tail: string)
    requires Parted(text, head, gap, value, tail)
    ensures FindKey(text, 0) == |head| < |text|
  {
    forall q | 0 <= q < |head| ensures !KeyAt(text, q) { assert !LineWithKeyAt(text, q); }
    FirstKeyIs(text, |head|);
  }

  lemma PartsOf(head: string, middle: string, tail: string)
    ensures (head + middle + tail)[..|head|] == head && (head + middle + tail)[|head| + |middle|..] == tail
  {
  }

  lemma StretchEndsAt(text: string, head: string, gap: string, value: string, tail: string)
    requires Parted(text, head, gap, value, tail)
    ensures Stretch(text, |head|) == |head| + |"environment:" + gap + value|
  {
    var key := |head| + |KEY|;
    assert text == (head + KEY) + gap + (value + tail) && text == (head + KEY + gap) + value + tail;
    assert text[key..] == gap + (value + tail) && text[key + |gap|..] == value + tail;
    SpaceEndsAt(text, key, gap, value + tail);
    LineEndsAt(text, key + |gap|, value, tail);
  }

  lemma SpaceEndsAt(text: string, from: nat, gap: string, after: string)
    requires from <= |text| && text[from..] == gap + after && (forall i :: 0 <= i < |gap| ==> Space(gap[i]))
    requires after == "" || !Space(after[0])
    ensures SkipSpace(text, from) == from + |gap|
  {
    var end := from + |gap|;
    forall q | from <= q < end ensures Space(text[q]) { assert text[q] == text[from..][q - from] == gap[q - from]; }
    if end < |text| { assert text[end] == text[from..][|gap|] == after[0]; }
  }

  lemma LineEndsAt(text: string, from: nat, value: string, tail: string)
    requires from <= |text| && text[from..] == value + tail && '\n' !in value && (tail == "" || tail[0] == '\n')
    ensures SkipLine(text, from) == from + |value|
  {
    var end := from + |value|;
    forall q | from <= q < end ensures text[q] != '\n' { assert text[q] == text[from..][q - from] == value[q - from]; }
    if end < |text| { assert text[end] == text[from..][|value|] == tail[0]; }
  }

  /** Without such a line, one is added at the end, after the text without its trailing line breaks. */
  lemma SetLineAdds(text: string, environment: string, body: string, breaks: string)
    requires (forall q: nat :: !LineWithKeyAt(text, q)) && text == body + breaks && (body == "" || body[|body| - 1] != '\n')
    requires forall i :: 0 <= i < |breaks| ==> breaks[i] == '\n'
    ensures SetLine(text, environment) == body + "\nenvironment: " + environment + "\n"
  {
    forall q: nat ensures !KeyAt(text, q) { assert !LineWithKeyAt(text, q); }
    BreaksGo(text, body, breaks);
  }

  lemma {:induction false} BreaksGo(text: string, body: string, breaks: string)
    requires text == body + breaks && (body == "" || body[|body| - 1] != '\n') && forall i :: 0 <= i < |breaks| ==> breaks[i] == '\n'
    ensures StripNewlines(text) == body
    decreases |breaks|
  {
    if breaks != "" {
      assert text[|text| - 1] == breaks[|breaks| - 1];
      BreaksGo(text[..|text| - 1], body, breaks[..|breaks| - 1]);
    }
  }
}
