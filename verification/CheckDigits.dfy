/** Check digits: the card number sum, and the two check digits of personal and company tax numbers. */
module CheckDigits {

  predicate IsDigits(ds: seq<int>) {
    forall i :: 0 <= i < |ds| ==> 0 <= ds[i] <= 9
  }

  /** The digits of a text, whatever stands between them. */
  function Digits(text: string): (ds: seq<int>)
    ensures IsDigits(ds)
  {
    if text == "" then []
    else
      var c := text[|text| - 1];
      Digits(text[..|text| - 1]) + if '0' <= c <= '9' then [c as int - '0' as int] else []
  }

  /** The ten characters and the digits they are; everything else is passed over. */
  function DigitOf(c: char): seq<int> {
    match c
    case '0' => [0] case '1' => [1] case '2' => [2] case '3' => [3] case '4' => [4]
    case '5' => [5] case '6' => [6] case '7' => [7] case '8' => [8] case '9' => [9]
    case _ => []
  }

  lemma DigitsOneByOne(text: string, c: char)
    ensures Digits("") == [] && Digits(text + [c]) == Digits(text) + DigitOf(c)
  {
    assert (text + [c])[..|text|] == text;
  }

  predicate Repeated(ds: seq<int>) {
    forall i :: 0 <= i < |ds| ==> ds[i] == ds[0]
  }

  // ---- card numbers -----------------------------------------------------------------

  /** Every second digit, the last one not among them, counts double, with nine taken off above nine. */
  function Luhn(d: int, doubled: bool): int {
    if !doubled then d else if 2 * d > 9 then 2 * d - 9 else 2 * d
  }

  function LuhnSum(ds: seq<int>, n: nat): int
    requires n <= |ds|
  {
    if n == 0 then 0 else LuhnSum(ds, n - 1) + Luhn(ds[n - 1], (n - 1) % 2 == |ds| % 2)
  }

  /** The sum is a multiple of ten. */
  predicate Balanced(ds: seq<int>) {
    LuhnSum(ds, |ds|) % 10 == 0
  }

  method ValidCard(text: string) returns (ok: bool)
    ensures var ds := Digits(text); ok <==> 13 <= |ds| <= 19 && Balanced(ds)
  {
    var ds := Digits(text);
    if !(13 <= |ds| <= 19) { return false; }
    var total, parity := 0, |ds| % 2;
    for i := 0 to |ds|
      invariant total == LuhnSum(ds, i)
    {
      var digit := ds[i];
      if i % 2 == parity {
        digit := digit * 2;
        if digit > 9 { digit := digit - 9; }
      }
      total := total + digit;
    }
    ok := total % 10 == 0;
  }

  lemma {:induction false} LuhnAfterSubstitution(ds: seq<int>, k: nat, e: int, n: nat)
    requires k < |ds| && n <= |ds|
    ensures LuhnSum(ds[k := e], n) == LuhnSum(ds, n) + if k < n then Luhn(e, k % 2 == |ds| % 2) - Luhn(ds[k], k % 2 == |ds| % 2) else 0
  {
    if n > 0 { LuhnAfterSubstitution(ds, k, e, n - 1); }
  }

  lemma LuhnTellsDigitsApart(d: int, e: int, doubled: bool)
    requires 0 <= d <= 9 && 0 <= e <= 9 && d != e
    ensures (Luhn(e, doubled) - Luhn(d, doubled)) % 10 != 0
  {
  }

  lemma MultipleStays(s: int, x: int)
    requires s % 10 == 0
    ensures (s + x) % 10 == 0 <==> x % 10 == 0
  {
  }

  /** Changing one digit of an accepted number, of whatever length, is always noticed. */
  lemma LuhnCatchesSubstitution(ds: seq<int>, k: nat, e: int)
    requires IsDigits(ds) && Balanced(ds) && k < |ds| && 0 <= e <= 9 && e != ds[k]
    ensures !Balanced(ds[k := e])
  {
    var doubled := k % 2 == |ds| % 2;
    LuhnAfterSubstitution(ds, k, e, |ds|);
    LuhnTellsDigitsApart(ds[k], e, doubled);
    MultipleStays(LuhnSum(ds, |ds|), Luhn(e, doubled) - Luhn(ds[k], doubled));
  }

  function Swapped(ds: seq<int>, k: nat): seq<int>
    requires k + 1 < |ds|
  {
    ds[k := ds[k + 1]][k + 1 := ds[k]]
  }

  /** Swapping two neighbours goes unnoticed exactly when they are equal or are a zero and a nine. */
  lemma LuhnMissesSwapIff(ds: seq<int>, k: nat)
    requires IsDigits(ds) && Balanced(ds) && k + 1 < |ds|
    ensures Balanced(Swapped(ds, k)) <==> ds[k] == ds[k + 1] || (ds[k] == 0 && ds[k + 1] == 9) || (ds[k] == 9 && ds[k + 1] == 0)
  {
    var half := ds[k := ds[k + 1]];
    LuhnAfterSubstitution(ds, k, ds[k + 1], |ds|);
    LuhnAfterSubstitution(half, k + 1, ds[k], |ds|);
    var a, b := ds[k], ds[k + 1];
    assert (k + 1) % 2 != k % 2;
    SwapResidue(a, b);
    SwapResidue(b, a);
    var change := if k % 2 == |ds| % 2 then Luhn(b, true) + a - Luhn(a, true) - b else Luhn(a, true) + b - Luhn(b, true) - a;
    assert LuhnSum(Swapped(ds, k), |ds|) == LuhnSum(ds, |ds|) + change;
    MultipleStays(LuhnSum(ds, |ds|), change);
  }

  lemma SwapResidue(a: int, b: int)
    requires 0 <= a <= 9 && 0 <= b <= 9
    ensures (Luhn(a, true) + b - Luhn(b, true) - a) % 10 == 0 <==> a == b || (a == 0 && b == 9) || (a == 9 && b == 0)
  {
  }

  /** Whatever the digits before it, exactly one last digit makes the number acceptable. */
  lemma OneLastDigit(ds: seq<int>) returns (d: int)
    ensures 0 <= d <= 9 && forall e :: 0 <= e <= 9 ==> (Balanced(ds + [e]) <==> e == d)
  {
    var base := LuhnSum(ds + [0], |ds|);
    d := (10 - base % 10) % 10;
    forall e | 0 <= e <= 9 ensures Balanced(ds + [e]) <==> e == d {
      assert ds + [e] == (ds + [0])[|ds| := e];
      LuhnAfterSubstitution(ds + [0], |ds|, e, |ds|);
    }
  }

  /** The digits of twice the digit, added up. */
  function TwiceDigitSum(d: int): int {
    (2 * d) / 10 + (2 * d) % 10
  }

  /** From the right, two at a time: the last digit as it is, the one before it doubled. */
  function SumFromRight(ds: seq<int>): int {
    if ds == [] then 0
    else if |ds| == 1 then ds[0]
    else ds[|ds| - 1] + TwiceDigitSum(ds[|ds| - 2]) + SumFromRight(ds[..|ds| - 2])
  }

  lemma {:induction false} SumOfPrefix(ds: seq<int>, m: nat, n: nat)
    requires n <= m <= |ds| && m % 2 == |ds| % 2
    ensures LuhnSum(ds[..m], n) == LuhnSum(ds, n)
    decreases n
  {
    if n > 0 { SumOfPrefix(ds, m, n - 1); }
  }

  /** The loop from the left adds up what the rule says from the right. */
  lemma {:induction false} LuhnSumIsFromRight(ds: seq<int>)
    requires IsDigits(ds)
    ensures LuhnSum(ds, |ds|) == SumFromRight(ds)
  {
    var n := |ds|;
    if n >= 2 {
      LuhnSumIsFromRight(ds[..n - 2]);
      SumOfPrefix(ds, n - 2, n - 2);
      assert LuhnSum(ds, n) == LuhnSum(ds, n - 1) + Luhn(ds[n - 1], (n - 1) % 2 == n % 2);
      assert LuhnSum(ds, n - 1) == LuhnSum(ds, n - 2) + Luhn(ds[n - 2], (n - 2) % 2 == n % 2);
      assert Luhn(ds[n - 2], true) == TwiceDigitSum(ds[n - 2]);
    } else if n == 1 {
      assert LuhnSum(ds, 1) == LuhnSum(ds, 0) + Luhn(ds[0], false);
    }
  }

  /** A number is accepted exactly when that sum is a multiple of ten. */
  lemma BalancedIff(ds: seq<int>)
    requires IsDigits(ds)
    ensures Balanced(ds) <==> SumFromRight(ds) % 10 == 0
  {
    LuhnSumIsFromRight(ds);
  }

  // ---- tax numbers ------------------------------------------------------------------

  /** A personal number has nine digits and two check digits; a company's has twelve and two. */
  datatype Kind = Cpf | Cnpj

  function Body(kind: Kind): nat {
    if kind == Cpf then 9 else 12
  }

  /** For a company the weight goes down to two and then starts again at nine. */
  function Weight(kind: Kind, size: nat, i: nat): (w: int) {
    match kind
    case Cpf => size + 1 - i
    case Cnpj =>
      if i == 0 then (if size == 12 then 5 else 6)
      else if Weight(kind, size, i - 1) == 2 then 9 else Weight(kind, size, i - 1) - 1
  }

  function Total(kind: Kind, ds: seq<int>, size: nat, n: nat): int
    requires n <= |ds|
  {
    if n == 0 then 0 else Total(kind, ds, size, n - 1) + ds[n - 1] * Weight(kind, size, n - 1)
  }

  function Check(kind: Kind, total: int): int {
    match kind
    case Cpf => (total * 10) % 11 % 10
    case Cnpj => var check := 11 - total % 11; if check >= 10 then 0 else check
  }

  predicate CheckHolds(kind: Kind, ds: seq<int>, size: nat)
    requires size < |ds|
  {
    Check(kind, Total(kind, ds, size, size)) == ds[size]
  }

  predicate Accepted(kind: Kind, ds: seq<int>) {
    |ds| == Body(kind) + 2 && !Repeated(ds) && CheckHolds(kind, ds, Body(kind)) && CheckHolds(kind, ds, Body(kind) + 1)
  }

  method ValidCpf(text: string) returns (ok: bool)
    ensures ok == Accepted(Cpf, Digits(text))
  {
    var ds := Digits(text);
    if |ds| != 11 || Repeated(ds) { return false; }
    for size := 9 to 11
      invariant forall done :: 9 <= done < size ==> CheckHolds(Cpf, ds, done)
    {
      var total := 0;
      for i := 0 to size
        invariant total == Total(Cpf, ds, size, i)
      {
        total := total + ds[i] * (size + 1 - i);
      }
      if (total * 10) % 11 % 10 != ds[size] { return false; }
    }
    ok := true;
  }

  method ValidCnpj(text: string) returns (ok: bool)
    ensures ok == Accepted(Cnpj, Digits(text))
  {
    var ds := Digits(text);
    if |ds| != 14 || Repeated(ds) { return false; }
    for size := 12 to 14
      invariant forall done :: 12 <= done < size ==> CheckHolds(Cnpj, ds, done)
    {
      var weight, total := if size == 12 then 5 else 6, 0;
      for i := 0 to size
        invariant weight == Weight(Cnpj, size, i) && total == Total(Cnpj, ds, size, i)
      {
        total := total + ds[i] * weight;
        weight := weight - 1;
        if weight == 1 { weight := 9; }
      }
      var check := 11 - total % 11;
      if check >= 10 { check := 0; }
      if check != ds[size] { return false; }
    }
    ok := true;
  }

  // ---- the rule, with its weights written out -------------------------------------------

  /** The weights of the digits before the first check digit, or before the second. */
  function WeightList(kind: Kind, second: bool): seq<int> {
    match (kind, second)
    case (Cpf, false) => [10, 9, 8, 7, 6, 5, 4, 3, 2]
    case (Cpf, true) => [11, 10, 9, 8, 7, 6, 5, 4, 3, 2]
    case (Cnpj, false) => [5, 4, 3, 2, 9, 8, 7, 6, 5, 4, 3, 2]
    case (Cnpj, true) => [6, 5, 4, 3, 2, 9, 8, 7, 6, 5, 4, 3, 2]
  }

  /** Digits times weights, added up. */
  function Weighed(ds: seq<int>, weights: seq<int>): int
    requires |weights| <= |ds|
  {
    if weights == [] then 0 else Weighed(ds, weights[..|weights| - 1]) + ds[|weights| - 1] * weights[|weights| - 1]
  }

  /** What is missing to a multiple of eleven; a remainder of zero or one gives zero. */
  function CheckDigit(total: int): int {
    if total % 11 <= 1 then 0 else 11 - total % 11
  }

  ghost predicate ByTheRule(kind: Kind, ds: seq<int>) {
    var n := if kind == Cpf then 9 else 12;
    && |ds| == n + 2 && (exists i :: 0 <= i < |ds| && ds[i] != ds[0])
    && ds[n] == CheckDigit(Weighed(ds, WeightList(kind, false))) && ds[n + 1] == CheckDigit(Weighed(ds, WeightList(kind, true)))
  }

  lemma WeightsAreListed(kind: Kind, i: nat)
    ensures i < |WeightList(kind, false)| ==> Weight(kind, Body(kind), i) == WeightList(kind, false)[i]
    ensures i < |WeightList(kind, true)| ==> Weight(kind, Body(kind) + 1, i) == WeightList(kind, true)[i]
  {
    if i < Body(kind) { Weights(kind, i); }
    if i == Body(kind) { Weights(kind, i - 1); }
  }

  lemma {:induction false} TotalIsWeighed(kind: Kind, ds: seq<int>, second: bool, n: nat)
    requires n <= |WeightList(kind, second)| <= |ds|
    ensures Total(kind, ds, Body(kind) + (if second then 1 else 0), n) == Weighed(ds, WeightList(kind, second)[..n])
  {
    if n > 0 {
      TotalIsWeighed(kind, ds, second, n - 1);
      WeightsAreListed(kind, n - 1);
      assert WeightList(kind, second)[..n][..n - 1] == WeightList(kind, second)[..n - 1];
    }
  }

  /** A number is accepted exactly when it is right by the rule. */
  lemma AcceptedIff(kind: Kind, ds: seq<int>)
    ensures Accepted(kind, ds) <==> ByTheRule(kind, ds)
  {
    if |ds| == Body(kind) + 2 {
      var first, second := WeightList(kind, false), WeightList(kind, true);
      TotalIsWeighed(kind, ds, false, |first|);
      TotalIsWeighed(kind, ds, true, |second|);
      assert first[..|first|] == first && second[..|second|] == second;
      CheckByRemainder(kind, Weighed(ds, first));
      CheckByRemainder(kind, Weighed(ds, second));
    }
  }

  // ---- one digit of a tax number changed ----------------------------------------------

  lemma {:induction false} TotalAfterSubstitution(kind: Kind, ds: seq<int>, size: nat, k: nat, e: int, n: nat)
    requires k < |ds| && n <= |ds|
    ensures Total(kind, ds[k := e], size, n) == Total(kind, ds, size, n) + if k < n then (e - ds[k]) * Weight(kind, size, k) else 0
  {
    if n > 0 { TotalAfterSubstitution(kind, ds, size, k, e, n - 1); }
  }

  /** Both kinds fold the remainders zero and one into the same check digit, and no others. */
  lemma SameCheckIff(kind: Kind, s: int, t: int)
    ensures Check(kind, s) == Check(kind, t) <==> s % 11 == t % 11 || (s % 11 <= 1 && t % 11 <= 1)
    ensures s % 11 <= 1 ==> Check(kind, s) == 0
  {
    CheckByRemainder(kind, s);
    CheckByRemainder(kind, t);
  }

  lemma CheckByRemainder(kind: Kind, t: int)
    ensures Check(kind, t) == if t % 11 <= 1 then 0 else 11 - t % 11
  {
    var q, r := t / 11, t % 11;
    assert t * 10 == 11 * (10 * q) + 10 * r;
    assert (t * 10) % 11 == (10 * r) % 11;
  }

  /** The remainder moves between zero and one. */
  predicate Flips(t: int, change: int) {
    (t % 11 == 0 && (t + change) % 11 == 1) || (t % 11 == 1 && (t + change) % 11 == 0)
  }

  /** The check digit stays the same: the remainder is kept, or moves between zero and one. */
  predicate Unseen(t: int, change: int) {
    (t + change) % 11 == t % 11 || Flips(t, change)
  }

  /** The changes that the weights at a position can hide: one where the second weight is eleven, and those that move
      one remainder up by one and the other down by one. */
  predicate Blind(kind: Kind, k: nat, change: int) {
    match kind
    case Cpf => (k == 0 && change in {-1, 1}) || (k == 5 && change in {-9, -2, 2, 9})
    case Cnpj => (k == 4 && change in {-6, -5, 5, 6}) || ((k == 0 || k == 8) && change in {-9, -2, 2, 9})
  }

  lemma Weights(kind: Kind, k: nat)
    requires k < Body(kind)
    ensures Weight(kind, Body(kind), k) == match kind case Cpf => 10 - k case Cnpj => if k < 4 then 5 - k else 13 - k
    ensures Weight(kind, Body(kind) + 1, k) == match kind case Cpf => 11 - k case Cnpj => if k < 5 then 6 - k else 14 - k
    decreases k
  {
    if k > 0 { Weights(kind, k - 1); }
  }

  lemma UnseenMoves(t: int, x: int)
    requires Unseen(t, x)
    ensures x % 11 == 0 || (x % 11 == 1 && t % 11 == 0) || (x % 11 == 10 && t % 11 == 1)
  {
  }

  predicate Small(x: int) {
    x % 11 == 0 || x % 11 == 1 || x % 11 == 10
  }

  lemma SmallWeight(change: int, w: int)
    requires -9 <= change <= 9 && change != 0 && 2 <= w <= 11 && Small(change * w)
    ensures match w
      case 2 => change in {-6, -5, 5, 6} case 3 => change in {-7, -4, 4, 7} case 4 => change in {-8, -3, 3, 8} case 5 => change in {-9, -2, 2, 9}
      case 6 => change in {-9, -2, 2, 9} case 7 => change in {-8, -3, 3, 8} case 8 => change in {-7, -4, 4, 7} case 9 => change in {-6, -5, 5, 6}
      case 10 => change in {-1, 1} case _ => true
  {
    match w
    case 2 => case 3 => case 4 => case 5 => case 6 => case 7 => case 8 => case 9 => case 10 => case _ =>
  }

  lemma UnseenIsBlind(kind: Kind, k: nat, change: int)
    requires k < Body(kind) && -9 <= change <= 9 && change != 0
    requires Small(change * Weight(kind, Body(kind), k)) && Small(change * Weight(kind, Body(kind) + 1, k))
    ensures Blind(kind, k, change)
  {
    Weights(kind, k);
    SmallWeight(change, Weight(kind, Body(kind), k));
    SmallWeight(change, Weight(kind, Body(kind) + 1, k));
  }

  /** The check digits after a change in the body are the old ones exactly when the change is unseen by both totals. */
  lemma ChecksAfterSubstitution(kind: Kind, ds: seq<int>, k: nat, e: int, size: nat)
    requires |ds| == Body(kind) + 2 && k < Body(kind) <= size < |ds| && CheckHolds(kind, ds, size)
    ensures CheckHolds(kind, ds[k := e], size) <==> Unseen(Total(kind, ds, size, size), (e - ds[k]) * Weight(kind, size, k))
  {
    TotalAfterSubstitution(kind, ds, size, k, e, size);
    SameCheckIff(kind, Total(kind, ds, size, size), Total(kind, ds[k := e], size, size));
  }

  lemma {:induction false} ZerosTotalZero(kind: Kind, ds: seq<int>, size: nat, n: nat)
    requires n <= |ds| && forall i :: 0 <= i < |ds| ==> ds[i] == 0
    ensures Total(kind, ds, size, n) == 0
  {
    if n > 0 { ZerosTotalZero(kind, ds, size, n - 1); }
  }

  /** If the change leaves one digit repeated and a check digit is zero, everything is zero. */
  lemma RepeatedZero(kind: Kind, ds: seq<int>, k: nat, e: int, size: nat)
    requires k < Body(kind) <= size < |ds| == Body(kind) + 2 && Repeated(ds[k := e]) && ds[Body(kind)] == 0
    ensures e == 0 && Total(kind, ds, size, size) == -((e - ds[k]) * Weight(kind, size, k))
  {
    var changed := ds[k := e];
    assert changed[Body(kind)] == 0 && changed[k] == e;
    assert forall i :: 0 <= i < |changed| ==> changed[i] == changed[0];
    ZerosTotalZero(kind, changed, size, size);
    TotalAfterSubstitution(kind, ds, size, k, e, size);
  }

  lemma AllZeroIsSeen(kind: Kind, k: nat, change: int)
    requires k < Body(kind) && change < 0 && Blind(kind, k, change)
    ensures var x, y := change * Weight(kind, Body(kind), k), change * Weight(kind, Body(kind) + 1, k); !(Unseen(-x, x) && Unseen(-y, y))
  {
    Weights(kind, k);
  }

  lemma UnseenMeansZeroCheck(kind: Kind, ds: seq<int>, k: nat, change: int)
    requires Accepted(kind, ds) && k < Body(kind) && Blind(kind, k, change)
    requires Unseen(Total(kind, ds, Body(kind), Body(kind)), change * Weight(kind, Body(kind), k))
    ensures ds[Body(kind)] == 0
  {
    var s, x := Total(kind, ds, Body(kind), Body(kind)), change * Weight(kind, Body(kind), k);
    Weights(kind, k);
    assert x % 11 != 0;
    UnseenMoves(s, x);
    SameCheckIff(kind, s, s);
  }

  /** An unseen change never leads to one digit repeated: that digit would be zero, and so would both totals be. */
  lemma UnseenIsNotRepeated(kind: Kind, ds: seq<int>, k: nat, e: int)
    requires IsDigits(ds) && Accepted(kind, ds) && k < Body(kind) && Blind(kind, k, e - ds[k])
    requires Unseen(Total(kind, ds, Body(kind), Body(kind)), (e - ds[k]) * Weight(kind, Body(kind), k))
    requires Unseen(Total(kind, ds, Body(kind) + 1, Body(kind) + 1), (e - ds[k]) * Weight(kind, Body(kind) + 1, k))
    ensures !Repeated(ds[k := e])
  {
    UnseenMeansZeroCheck(kind, ds, k, e - ds[k]);
    if Repeated(ds[k := e]) {
      RepeatedZero(kind, ds, k, e, Body(kind));
      RepeatedZero(kind, ds, k, e, Body(kind) + 1);
      AllZeroIsSeen(kind, k, e - ds[k]);
    }
  }

  /** Changing one digit of an accepted number is missed exactly when it is one of the blind changes and both totals
      have the remainders that hide it. Everything else, a changed check digit included, is noticed. */
  lemma SubstitutionMissedIff(kind: Kind, ds: seq<int>, k: nat, e: int)
    requires IsDigits(ds) && Accepted(kind, ds) && k < |ds| && 0 <= e <= 9 && e != ds[k]
    ensures
      var n, change := Body(kind), e - ds[k];
      Accepted(kind, ds[k := e]) <==>
        && Blind(kind, k, change) && k < n
        && Unseen(Total(kind, ds, n, n), change * Weight(kind, n, k))
        && Unseen(Total(kind, ds, n + 1, n + 1), change * Weight(kind, n + 1, k))
  {
    var n := Body(kind);
    if k < n {
      ChecksAfterSubstitution(kind, ds, k, e, n);
      ChecksAfterSubstitution(kind, ds, k, e, n + 1);
      var s, t := Total(kind, ds, n, n), Total(kind, ds, n + 1, n + 1);
      var x, y := (e - ds[k]) * Weight(kind, n, k), (e - ds[k]) * Weight(kind, n + 1, k);
      if Unseen(s, x) && Unseen(t, y) {
        UnseenMoves(s, x);
        UnseenMoves(t, y);
        UnseenIsBlind(kind, k, e - ds[k]);
        UnseenIsNotRepeated(kind, ds, k, e);
      }
    } else {
      TotalAfterSubstitution(kind, ds, k, k, e, k);
    }
  }

  /** A first digit one lower, and a sixth digit nine higher, that the personal number's check does not notice. */
  lemma MissedExamples()
    ensures Accepted(Cpf, [3, 1, 5, 7, 3, 8, 1, 0, 4, 0, 1]) && Accepted(Cpf, [2, 1, 5, 7, 3, 8, 1, 0, 4, 0, 1])
    ensures Accepted(Cpf, [3, 6, 9, 5, 3, 0, 3, 0, 5, 0, 0]) && Accepted(Cpf, [3, 6, 9, 5, 3, 9, 3, 0, 5, 0, 0])
  {
    AcceptedIf([3, 1, 5, 7, 3, 8, 1, 0, 4, 0, 1]);
    AcceptedIf([2, 1, 5, 7, 3, 8, 1, 0, 4, 0, 1]);
    AcceptedIf([3, 6, 9, 5, 3, 0, 3, 0, 5, 0, 0]);
    AcceptedIf([3, 6, 9, 5, 3, 9, 3, 0, 5, 0, 0]);
  }

  lemma AcceptedIf(ds: seq<int>)
    requires |ds| == 11 && ds[0] != ds[1]
    requires Check(Cpf, 10 * ds[0] + 9 * ds[1] + 8 * ds[2] + 7 * ds[3] + 6 * ds[4] + 5 * ds[5] + 4 * ds[6] + 3 * ds[7] + 2 * ds[8]) == ds[9]
    requires Check(Cpf, 11 * ds[0] + 10 * ds[1] + 9 * ds[2] + 8 * ds[3] + 7 * ds[4] + 6 * ds[5] + 5 * ds[6] + 4 * ds[7] + 3 * ds[8] + 2 * ds[9]) == ds[10]
    ensures Accepted(Cpf, ds)
  {
    FirstTotal(ds);
    SecondTotal(ds);
  }

  lemma FirstTotal(ds: seq<int>)
    requires |ds| == 11
    ensures Total(Cpf, ds, 9, 9) == 10 * ds[0] + 9 * ds[1] + 8 * ds[2] + 7 * ds[3] + 6 * ds[4] + 5 * ds[5] + 4 * ds[6] + 3 * ds[7] + 2 * ds[8]
  {
    assert Total(Cpf, ds, 9, 1) == 10 * ds[0];
    assert Total(Cpf, ds, 9, 3) == Total(Cpf, ds, 9, 1) + 9 * ds[1] + 8 * ds[2];
    assert Total(Cpf, ds, 9, 5) == Total(Cpf, ds, 9, 3) + 7 * ds[3] + 6 * ds[4];
    assert Total(Cpf, ds, 9, 7) == Total(Cpf, ds, 9, 5) + 5 * ds[5] + 4 * ds[6];
    assert Total(Cpf, ds, 9, 9) == Total(Cpf, ds, 9, 7) + 3 * ds[7] + 2 * ds[8];
  }

  lemma SecondTotal(ds: seq<int>)
    requires |ds| == 11
    ensures Total(Cpf, ds, 10, 10) == 11 * ds[0] + 10 * ds[1] + 9 * ds[2] + 8 * ds[3] + 7 * ds[4] + 6 * ds[5] + 5 * ds[6] + 4 * ds[7] + 3 * ds[8] + 2 * ds[9]
  {
    assert Total(Cpf, ds, 10, 1) == 11 * ds[0];
    assert Total(Cpf, ds, 10, 2) == Total(Cpf, ds, 10, 1) + 10 * ds[1];
    assert Total(Cpf, ds, 10, 4) == Total(Cpf, ds, 10, 2) + 9 * ds[2] + 8 * ds[3];
    assert Total(Cpf, ds, 10, 6) == Total(Cpf, ds, 10, 4) + 7 * ds[4] + 6 * ds[5];
    assert Total(Cpf, ds, 10, 8) == Total(Cpf, ds, 10, 6) + 5 * ds[6] + 4 * ds[7];
    assert Total(Cpf, ds, 10, 10) == Total(Cpf, ds, 10, 8) + 3 * ds[8] + 2 * ds[9];
  }
}
