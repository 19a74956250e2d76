/**
 * The check-digit validators of the regular-expression engine
 * (internal/gateway/detect/regex.go) and the generator's values that must pass or fail
 * them (internal/harness/gen.go). Luhn is Annex B of ISO/IEC 7812-1; the IBAN check is
 * MOD 97-10 of ISO/IEC 7064.
 */
module Checksums {
  import opened Common

  /** No hyphen touches the span on either side. */
  predicate NotHyphenAdjacent(text: string, start: nat, end: nat)
    requires start <= end <= |text|
  {
    !(start > 0 && text[start - 1] == '-') && !(end < |text| && text[end] == '-')
  }

  // ---- Luhn ----

  predicate AllDigits(ds: seq<int>) { forall i :: 0 <= i < |ds| ==> 0 <= ds[i] <= 9 }

  function Digits(s: string): seq<int> {
    if s == [] then []
    else (if IsDigit(s[0]) then [DigitValue(s[0])] else []) + Digits(s[1..])
  }

  /** What a digit in a doubled place contributes. */
  function Doubled(d: int): int { if d * 2 > 9 then d * 2 - 9 else d * 2 }

  function Weighed(d: int, double: bool): int { if double then Doubled(d) else d }

  /** The sum over the digits from the right, doubling every other one. */
  function LuhnSum(ds: seq<int>, double: bool): int {
    if ds == [] then 0
    else Weighed(ds[|ds| - 1], double) + LuhnSum(ds[..|ds| - 1], !double)
  }

  predicate LuhnDigits(ds: seq<int>) { 13 <= |ds| <= 19 && LuhnSum(ds, false) % 10 == 0 }

  /** The span reads as a card number: right digit count, right check digit, no hyphen beside it. */
  predicate IsCard(text: string, start: nat, end: nat)
    requires start <= end <= |text|
  {
    NotHyphenAdjacent(text, start, end) && LuhnDigits(Digits(text[start..end]))
  }

  lemma {:induction false} DigitsRange(s: string)
    ensures AllDigits(Digits(s))
  {
    if s == [] {
    } else {
      DigitsRange(s[1..]);
    }
  }

  lemma {:induction false} DigitsConcat(a: string, b: string)
    ensures Digits(a + b) == Digits(a) + Digits(b)
  {
    if a == [] {
      assert a + b == b;
    } else {
      DigitsConcat(a[1..], b);
      assert (a + b)[1..] == a[1..] + b;
      var head := if IsDigit(a[0]) then [DigitValue(a[0])] else [];
      assert Digits(a) == head + Digits(a[1..]);
      assert Digits(a + b) == head + (Digits(a[1..]) + Digits(b));
    }
  }

  lemma DigitsSnoc(s: string, k: nat)
    requires k < |s|
    ensures Digits(s[..k + 1]) == Digits(s[..k]) + if IsDigit(s[k]) then [DigitValue(s[k])] else []
  {
    assert s[..k + 1] == s[..k] + [s[k]];
    DigitsConcat(s[..k], [s[k]]);
    assert [s[k]][1..] == [];
  }

  /** The digits of a text, in order; every other character is passed over. */
  method CollectDigits(s: string) returns (digits: seq<int>)
    ensures digits == Digits(s)
  {
    digits := [];
    var k := 0;
    while k < |s|
      invariant k <= |s|
      invariant digits == Digits(s[..k])
    {
      DigitsSnoc(s, k);
      if '0' <= s[k] <= '9' {
        digits := digits + [DigitValue(s[k])];
      }
      k := k + 1;
    }
    assert s[..k] == s;
  }

  lemma LuhnLast(ds: seq<int>, i: nat, double: bool)
    requires i < |ds|
    ensures LuhnSum(ds[..i + 1], double) == Weighed(ds[i], double) + LuhnSum(ds[..i], !double)
  {
    assert ds[..i + 1][..i] == ds[..i];
  }

  /** Adds up the digits from the right, doubling every other one. */
  method WeighDigits(digits: seq<int>, start: bool) returns (sum: int)
    ensures sum == LuhnSum(digits, start)
  {
    var double := start;
    sum := 0;
    var i := |digits| - 1;
    assert digits[..i + 1] == digits;
    while i >= 0
      invariant -1 <= i < |digits|
      invariant sum + LuhnSum(digits[..i + 1], double) == LuhnSum(digits, start)
    {
      var d := digits[i];
      LuhnLast(digits, i, double);
      if double {
        d := d * 2;
        if d > 9 {
          d := d - 9;
        }
      }
      sum := sum + d;
      double := !double;
      i := i - 1;
    }
  }

  method LuhnValid(text: string, start: nat, end: nat) returns (ok: bool)
    requires start <= end <= |text|
    ensures ok <==> IsCard(text, start, end)
  {
    if !NotHyphenAdjacent(text, start, end) {
      return false;
    }
    var digits := CollectDigits(text[start..end]);
    if |digits| < 13 || |digits| > 19 {
      return false;
    }
    var sum := WeighDigits(digits, false);
    return sum % 10 == 0;
  }

  /** Doubling permutes the digits: different digits weigh differently, and by less than ten. */
  lemma WeightsDiffer(a: int, b: int, double: bool)
    requires 0 <= a <= 9 && 0 <= b <= 9 && a != b
    ensures Weighed(a, double) != Weighed(b, double)
    ensures -9 <= Weighed(a, double) - Weighed(b, double) <= 9
  {
  }

  lemma {:induction false} LuhnUpdate(ds: seq<int>, double: bool, i: nat, x: int) returns (odd: bool)
    requires AllDigits(ds) && i < |ds| && 0 <= x <= 9
    ensures LuhnSum(ds[i := x], double) - LuhnSum(ds, double) == Weighed(x, odd) - Weighed(ds[i], odd)
    decreases |ds|
  {
    var n := |ds| - 1;
    if i == n {
      odd := double;
      assert ds[i := x][..n] == ds[..n];
    } else {
      odd := LuhnUpdate(ds[..n], !double, i, x);
      assert ds[i := x][..n] == ds[..n][i := x];
    }
  }

  /** Any single wrong digit changes the check sum. */
  lemma LuhnCatchesSubstitution(ds: seq<int>, i: nat, x: int)
    requires AllDigits(ds) && LuhnDigits(ds) && i < |ds| && 0 <= x <= 9 && x != ds[i]
    ensures !LuhnDigits(ds[i := x])
  {
    var odd := LuhnUpdate(ds, false, i, x);
    UpdateVerdict(ds[i], x, odd, LuhnSum(ds, false), LuhnSum(ds[i := x], false));
  }

  lemma UpdateVerdict(a: int, x: int, odd: bool, sum: int, sum': int)
    requires 0 <= a <= 9 && 0 <= x <= 9 && a != x && sum % 10 == 0
    requires sum' - sum == Weighed(x, odd) - Weighed(a, odd)
    ensures sum' % 10 != 0
  {
    WeightsDiffer(x, a, odd);
  }

  lemma {:induction false} DigitsUpdate(s: string, p: nat, c: char)
    requires p < |s| && IsDigit(s[p]) && IsDigit(c)
    ensures var k := |Digits(s[..p])|;
      k < |Digits(s)| && Digits(s)[k] == DigitValue(s[p]) && Digits(s[p := c]) == Digits(s)[k := DigitValue(c)]
  {
    var rest := s[p + 1..];
    assert s == s[..p] + ([s[p]] + rest) && s[p := c] == s[..p] + ([c] + rest);
    DigitsConcat(s[..p], [s[p]] + rest);
    DigitsConcat(s[..p], [c] + rest);
    assert ([s[p]] + rest)[1..] == rest && ([c] + rest)[1..] == rest;
  }

  /** In text: replacing one digit of a card number by another makes the validator refuse it. */
  lemma CardSubstitutionRejected(text: string, start: nat, end: nat, p: nat, c: char)
    requires start <= p < end <= |text| && IsDigit(text[p]) && IsDigit(c) && c != text[p]
    requires IsCard(text, start, end)
    ensures !IsCard(text[p := c], start, end)
  {
    var s := text[start..end];
    assert text[p := c][start..end] == s[p - start := c];
    DigitsUpdate(s, p - start, c);
    DigitsRange(s);
    LuhnCatchesSubstitution(Digits(s), |Digits(s[..p - start])|, DigitValue(c));
  }

  function Swapped(ds: seq<int>, i: nat): seq<int>
    requires i + 1 < |ds|
  {
    ds[i := ds[i + 1]][i + 1 := ds[i]]
  }

  lemma {:induction false} LuhnSwap(ds: seq<int>, double: bool, i: nat) returns (odd: bool)
    requires AllDigits(ds) && i + 1 < |ds|
    ensures LuhnSum(Swapped(ds, i), double) - LuhnSum(ds, double) == SwapGain(ds[i], ds[i + 1], odd)
    decreases |ds|
  {
    var n := |ds| - 1;
    var w := Swapped(ds, i);
    if i + 1 == n {
      odd := double;
      assert w[n] == ds[i] && w[..n][n - 1] == ds[i + 1];
      assert w[..n][..n - 1] == ds[..n][..n - 1];
      var rest := LuhnSum(ds[..n][..n - 1], double);
      assert LuhnSum(w[..n], !double) == Weighed(ds[i + 1], !double) + rest;
      assert LuhnSum(ds[..n], !double) == Weighed(ds[i], !double) + rest;
    } else {
      odd := LuhnSwap(ds[..n], !double, i);
      assert w[..n] == Swapped(ds[..n], i);
    }
  }

  /** What swapping the neighbours a and b adds to the sum. */
  function SwapGain(a: int, b: int, odd: bool): int {
    Weighed(a, odd) + Weighed(b, !odd) - Weighed(b, odd) - Weighed(a, !odd)
  }

  /**
   * Swapping two adjacent digits goes unnoticed exactly when they are equal or are 0 and 9:
   * the known limit of the check.
   */
  lemma LuhnCatchesSwapExactly(ds: seq<int>, i: nat)
    requires AllDigits(ds) && LuhnDigits(ds) && i + 1 < |ds|
    ensures LuhnDigits(Swapped(ds, i)) <==>
            ds[i] == ds[i + 1] || (ds[i] == 0 && ds[i + 1] == 9) || (ds[i] == 9 && ds[i + 1] == 0)
  {
    var odd := LuhnSwap(ds, false, i);
    SwapVerdict(ds[i], ds[i + 1], odd, LuhnSum(ds, false), LuhnSum(Swapped(ds, i), false));
  }

  lemma SwapVerdict(a: int, b: int, odd: bool, sum: int, sum': int)
    requires 0 <= a <= 9 && 0 <= b <= 9 && sum % 10 == 0 && sum' - sum == SwapGain(a, b, odd)
    ensures sum' % 10 == 0 <==> (a == b || (a == 0 && b == 9) || (a == 9 && b == 0))
  {
    SwapWeights(a, b, odd);
    assert sum' % 10 == SwapGain(a, b, odd) % 10;
  }

  lemma SwapWeights(a: int, b: int, odd: bool)
    requires 0 <= a <= 9 && 0 <= b <= 9
    ensures SwapGain(a, b, odd) % 10 == 0 <==> (a == b || (a == 0 && b == 9) || (a == 9 && b == 0))
  {
  }

  // ---- IBAN ----

  function IbanStep(rem: int, c: char): int {
    if IsDigit(c) then (rem * 10 + DigitValue(c)) % 97
    else (rem * 100 + (c as int - 'A' as int + 10)) % 97
  }

  predicate IbanChar(c: char) { IsDigit(c) || 'A' <= c <= 'Z' }

  /** The remainder mod 97 of the number the characters spell, after a prefix with remainder rem. */
  function IbanRem(rem: int, s: string): int
    decreases |s|
  {
    if s == [] then rem else IbanRem(IbanStep(rem, s[0]), s[1..])
  }

  function Rearranged(s: string): string
    requires |s| >= 4
  {
    s[4..] + s[..4]
  }

  predicate IsIban(s: string) {
    |s| >= 15 && (forall i :: 0 <= i < |s| ==> IbanChar(s[i])) && IbanRem(0, Rearranged(s)) == 1
  }

  lemma {:induction false} IbanRemConcat(rem: int, a: string, b: string)
    ensures IbanRem(rem, a + b) == IbanRem(IbanRem(rem, a), b)
    decreases |a|
  {
    if a == [] {
      assert a + b == b;
    } else {
      IbanRemConcat(IbanStep(rem, a[0]), a[1..], b);
      assert (a + b)[1..] == a[1..] + b;
    }
  }

  lemma {:induction false} IbanRemRange(rem: int, s: string)
    requires 0 <= rem < 97
    ensures 0 <= IbanRem(rem, s) < 97
    decreases |s|
  {
    if s == [] {
    } else {
      IbanRemRange(IbanStep(rem, s[0]), s[1..]);
    }
  }

  method IbanMod97(text: string, start: nat, end: nat) returns (ok: bool)
    requires start <= end <= |text|
    ensures ok <==> IsIban(text[start..end])
  {
    var s := text[start..end];
    if |s| < 15 {
      return false;
    }
    var rearranged := s[4..] + s[..4];
    var rem, k := 0, 0;
    while k < |rearranged|
      invariant k <= |rearranged|
      invariant forall i :: 0 <= i < k ==> IbanChar(rearranged[i])
      invariant IbanRem(rem, rearranged[k..]) == IbanRem(0, rearranged)
    {
      var c := rearranged[k];
      assert rearranged[k..][0] == c && rearranged[k..][1..] == rearranged[k + 1..];
      if '0' <= c <= '9' {
        rem := (rem * 10 + (c as int - '0' as int)) % 97;
      } else if 'A' <= c <= 'Z' {
        var n := c as int - 'A' as int + 10;
        rem := (rem * 100 + n) % 97;
      } else {
        assert !IbanChar(s[if k < |s| - 4 then k + 4 else k - (|s| - 4)]);
        return false;
      }
      k := k + 1;
    }
    forall i | 0 <= i < |s| ensures IbanChar(s[i]) {
      assert s[i] == rearranged[if i >= 4 then i - 4 else i + |s| - 4];
    }
    return rem == 1;
  }

  /** 10 is invertible mod 97: different remainders stay different after any character. */
  lemma StepInjective(a: int, b: int, c: char)
    requires 0 <= a < 97 && 0 <= b < 97 && a != b && IbanChar(c)
    ensures IbanStep(a, c) != IbanStep(b, c)
  {
    if IsDigit(c) {
      TenInvertible(a - b);
      var d := DigitValue(c);
      ModDiffers(a * 10 + d, b * 10 + d);
    } else {
      var n := c as int - 'A' as int + 10;
      HundredDiffers(a - b);
      ModDiffers(a * 100 + n, b * 100 + n);
    }
  }

  lemma TenInvertible(x: int)
    requires -97 < x < 97 && x != 0
    ensures (10 * x) % 97 != 0
  {
  }

  lemma HundredDiffers(x: int)
    requires -97 < x < 97 && x != 0
    ensures (100 * x) % 97 != 0
  {
  }

  lemma ModDiffers(x: int, y: int)
    requires (x - y) % 97 != 0
    ensures x % 97 != y % 97
  {
  }

  lemma {:induction false} RemsStayDifferent(a: int, b: int, s: string)
    requires 0 <= a < 97 && 0 <= b < 97 && a != b
    requires forall i :: 0 <= i < |s| ==> IbanChar(s[i])
    ensures IbanRem(a, s) != IbanRem(b, s)
    decreases |s|
  {
    if s == [] {
    } else {
      StepInjective(a, b, s[0]);
      RemsStayDifferent(IbanStep(a, s[0]), IbanStep(b, s[0]), s[1..]);
    }
  }

  /** Two characters of the same sort: the number they spell keeps its length. */
  predicate SameSort(c: char, c': char) {
    (IsDigit(c) && IsDigit(c')) || ('A' <= c <= 'Z' && 'A' <= c' <= 'Z')
  }

  lemma OtherCharDiffers(rem: int, c: char, c': char)
    requires 0 <= rem < 97 && SameSort(c, c') && c != c'
    ensures IbanStep(rem, c) != IbanStep(rem, c')
  {
    if IsDigit(c) {
      ModDiffers(rem * 10 + DigitValue(c), rem * 10 + DigitValue(c'));
    } else {
      ModDiffers(rem * 100 + (c as int - 'A' as int + 10), rem * 100 + (c' as int - 'A' as int + 10));
    }
  }

  lemma RearrangedUpdate(s: string, p: nat, c: char) returns (q: nat)
    requires |s| >= 4 && p < |s|
    ensures q < |s| && Rearranged(s)[q] == s[p] && Rearranged(s[p := c]) == Rearranged(s)[q := c]
  {
    q := if p >= 4 then p - 4 else p + |s| - 4;
  }

  /** Spelling a number with one character changed changes its remainder. */
  lemma RemSubstitution(r: string, q: nat, c: char)
    requires q < |r| && SameSort(r[q], c) && c != r[q]
    requires forall i :: 0 <= i < |r| ==> IbanChar(r[i])
    ensures IbanRem(0, r[q := c]) != IbanRem(0, r)
  {
    var pre, post := r[..q], r[q + 1..];
    RemSplit(pre, r[q], post);
    RemSplit(pre, c, post);
    assert r == pre + [r[q]] + post && r[q := c] == pre + [c] + post;
    var rem := IbanRem(0, pre);
    IbanRemRange(0, pre);
    OtherCharDiffers(rem, r[q], c);
    RemsStayDifferent(IbanStep(rem, r[q]), IbanStep(rem, c), post);
  }

  lemma RemSplit(pre: string, c: char, post: string)
    ensures IbanRem(0, pre + [c] + post) == IbanRem(IbanStep(IbanRem(0, pre), c), post)
  {
    IbanRemConcat(0, pre + [c], post);
    IbanRemConcat(0, pre, [c]);
    assert [c][1..] == [];
  }

  /** Replacing one digit of an IBAN by another digit, or a letter by a letter, is caught. */
  lemma IbanSubstitutionRejected(s: string, p: nat, c: char)
    requires IsIban(s) && p < |s| && SameSort(s[p], c) && c != s[p]
    ensures !IsIban(s[p := c])
  {
    var q := RearrangedUpdate(s, p, c);
    var r := Rearranged(s);
    forall i | 0 <= i < |r| ensures IbanChar(r[i]) {
      assert r[i] == s[if i < |s| - 4 then i + 4 else i - (|s| - 4)];
    }
    RemSubstitution(r, q, c);
  }
}
