/** Text: whitespace, splitting, and numbers in decimal. */
module Texts {

  /** What the host language strips and splits on. */
  predicate Space(c: char) {
    '\t' <= c <= '\r' || '\U{1c}' <= c <= ' ' || c == '\U{85}' || c == '\U{a0}' || c == '\U{1680}' || '\U{2000}' <= c <= '\U{200a}'
    || c == '\U{2028}' || c == '\U{2029}' || c == '\U{202f}' || c == '\U{205f}' || c == '\U{3000}'
  }

  predicate Blank(s: string) {
    forall i :: 0 <= i < |s| ==> Space(s[i])
  }

  function Stripped(s: string): string {
    if s != "" && Space(s[0]) then Stripped(s[1..])
    else if s != "" && Space(s[|s| - 1]) then Stripped(s[..|s| - 1])
    else s
  }

  predicate StartsWith(s: string, prefix: string) {
    |prefix| <= |s| && s[..|prefix|] == prefix
  }

  predicate EndsWith(s: string, suffix: string) {
    |suffix| <= |s| && s[|s| - |suffix|..] == suffix
  }

  /** Where the character first stands; past the end when it does not. */
  function Find(s: string, c: char): (at: nat)
    ensures at <= |s| && (at < |s| ==> s[at] == c) && forall i :: 0 <= i < at ==> s[i] != c
  {
    if s == "" || s[0] == c then 0 else 1 + Find(s[1..], c)
  }

  /** The pieces between the separators, the empty ones too. */
  function Split(s: string, c: char): (pieces: seq<string>)
    ensures pieces != []
    decreases |s|
  {
    var at := Find(s, c);
    if at == |s| then [s] else [s[..at]] + Split(s[at + 1..], c)
  }

  function Join(pieces: seq<string>, c: char): string
    requires pieces != []
  {
    if |pieces| == 1 then pieces[0] else pieces[0] + [c] + Join(pieces[1..], c)
  }

  lemma FoundAt(s: string, c: char, at: nat)
    requires at <= |s| && (at < |s| ==> s[at] == c) && forall i :: 0 <= i < at ==> s[i] != c
    ensures Find(s, c) == at
  {
  }

  /** Pieces that do not hold the separator come back. */
  lemma {:induction false} SplitOfJoin(pieces: seq<string>, c: char)
    requires pieces != [] && forall p <- pieces :: c !in p
    ensures Split(Join(pieces, c), c) == pieces
  {
    var s, first := Join(pieces, c), pieces[0];
    assert c !in first;
    if |pieces| == 1 {
      FoundAt(s, c, |s|);
    } else {
      FoundAt(s, c, |first|);
      assert s[..|first|] == first && s[|first| + 1..] == Join(pieces[1..], c);
      SplitOfJoin(pieces[1..], c);
    }
  }

  /** The words between runs of whitespace. */
  function Words(s: string): seq<string>
    decreases |s|
  {
    if s == "" then []
    else if Space(s[0]) then Words(s[1..])
    else
      var n := WordEnd(s);
      [s[..n]] + Words(s[n..])
  }

  function WordEnd(s: string): (n: nat)
    ensures n <= |s| && (n < |s| ==> Space(s[n])) && (forall i :: 0 <= i < n ==> !Space(s[i]))
    ensures s != "" && !Space(s[0]) ==> n > 0
  {
    if s == "" || Space(s[0]) then 0 else 1 + WordEnd(s[1..])
  }

  predicate IsWord(s: string) {
    s != "" && forall i :: 0 <= i < |s| ==> !Space(s[i])
  }

  lemma WordEndsAt(s: string, n: nat)
    requires n <= |s| && (n < |s| ==> Space(s[n])) && forall i :: 0 <= i < n ==> !Space(s[i])
    ensures WordEnd(s) == n
  {
  }

  /** Words joined by spaces come back. */
  lemma {:induction false} WordsOfJoin(words: seq<string>)
    requires words != [] && forall w <- words :: IsWord(w)
    ensures Words(Join(words, ' ')) == words
  {
    var s, first := Join(words, ' '), words[0];
    assert IsWord(first);
    assert s[0] == first[0];
    if |words| == 1 {
      WordEndsAt(s, |s|);
      assert s[|s|..] == "" && s[..|s|] == s;
      assert Words(s[|s|..]) == [];
    } else {
      WordEndsAt(s, |first|);
      assert s[..|first|] == first;
      var rest := s[|first|..];
      assert rest[0] == ' ' && rest[1..] == Join(words[1..], ' ');
      WordsOfJoin(words[1..]);
      assert Words(rest) == words[1..];
    }
  }

  /** Blank space goes from both ends, and only that. */
  lemma {:induction false} StrippedIsInside(s: string) returns (front: string, back: string)
    ensures s == front + Stripped(s) + back && Blank(front) && Blank(back)
    ensures Stripped(s) != "" ==> !Space(Stripped(s)[0]) && !Space(Stripped(s)[|Stripped(s)| - 1])
  {
    front, back := "", "";
    if s != "" && Space(s[0]) {
      front, back := StrippedIsInside(s[1..]);
      front := [s[0]] + front;
    } else if s != "" && Space(s[|s| - 1]) {
      front, back := StrippedIsInside(s[..|s| - 1]);
      back := back + [s[|s| - 1]];
    }
  }

  lemma WordIsStripped(s: string)
    requires IsWord(s)
    ensures Stripped(s) == s
  {
  }

  // ---- decimal numbers --------------------------------------------------------------

  function Digits(n: nat): (s: string)
    ensures s != ""
  {
    if n < 10 then [n as char + '0'] else Digits(n / 10) + [(n % 10) as char + '0']
  }

  predicate IsDigit(c: char) {
    '0' <= c <= '9'
  }

  predicate IsNumber(s: string) {
    s != "" && forall i :: 0 <= i < |s| ==> IsDigit(s[i])
  }

  function ReadNumber(s: string): nat
    requires forall i :: 0 <= i < |s| ==> IsDigit(s[i])
  {
    if s == "" then 0
    else
      assert IsDigit(s[|s| - 1]);
      ReadNumber(s[..|s| - 1]) * 10 + (s[|s| - 1] as int - '0' as int)
  }

  /** A number written in decimal reads as itself. */
  lemma {:induction false} NumberOfDigits(n: nat)
    ensures IsNumber(Digits(n)) && ReadNumber(Digits(n)) == n
  {
    if n < 10 {
      assert Digits(n)[..0] == "";
    } else {
      NumberOfDigits(n / 10);
      var s := Digits(n);
      assert s[..|s| - 1] == Digits(n / 10);
    }
  }
}
