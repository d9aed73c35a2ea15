/**
 * The atomic payment amount of an x402 requirement (x402.ts): exact decimal
 * arithmetic done on strings.
 */
module AtomicAmount {
  import opened Wrappers

  /** `maxAmountRequired`: absent, a JavaScript number, or a string. */
  datatype MaxAmount = NoMax | NumberMax | StringMax(text: string)

  /** What `getAtomicAmount` reads of a payment requirement. */
  datatype Requirement = Requirement(max: MaxAmount, unit: Option<string>, decimals: Option<nat>, amount: string)

  predicate IsDigit(c: char) { '0' <= c <= '9' }

  predicate AllDigits(s: string) { forall i :: 0 <= i < |s| ==> IsDigit(s[i]) }

  type DigitString = s: string | AllDigits(s) witness ""

  function Zeros(n: nat): (s: DigitString)
    ensures |s| == n && forall i :: 0 <= i < n ==> s[i] == '0'
  {
    seq(n, _ => '0')
  }

  /** Index of the first dot, or the length. */
  function FirstDot(s: string): (n: nat)
    ensures n <= |s| && '.' !in s[..n] && (n < |s| ==> s[n] == '.')
  {
    if s == [] || s[0] == '.' then 0
    else
      var n := FirstDot(s[1..]);
      assert s[..n + 1] == [s[0]] + s[1..][..n];
      n + 1
  }

  /** The first two parts of `s.split(".")`, the second defaulting to the empty string. */
  function SplitAmount(s: string): (string, string) {
    var n := FirstDot(s);
    if n == |s| then (s, "")
    else
      var rest := s[n + 1..];
      (s[..n], rest[..FirstDot(rest)])
  }

  /** `s.replace(/^0+(?=\d)/, "")`: leading zeros go as long as a digit follows. */
  function StripZeros(s: string): string {
    if |s| > 1 && s[0] == '0' && IsDigit(s[1]) then StripZeros(s[1..]) else s
  }

  function OrZero(s: string): string {
    if s == "" then "0" else s
  }

  /** The human-unit path. */
  function HumanAmount(amount: string, decimals: nat): string {
    var (intRaw, frac) := SplitAmount(amount);
    var intPart := OrZero(StripZeros(intRaw));
    var fracPadded := (frac + Zeros(decimals))[..decimals];
    OrZero(StripZeros(intPart + fracPadded))
  }

  /** `None` is the thrown "Unable to determine atomic payment amount." */
  function GetAtomicAmount(r: Requirement): Option<string> {
    if r.max.StringMax? && r.max.text != "" && AllDigits(r.max.text) then Some(r.max.text)
    else if r.unit == Some("human") && r.decimals.Some? && r.amount != "" then
      Some(HumanAmount(r.amount, r.decimals.value))
    else if r.unit == Some("atomic") && r.amount != "" then Some(r.amount)
    else None
  }

  // ---------- The numbers behind the strings ----------

  function Pow10(n: nat): (p: int)
    ensures p > 0
  {
    if n == 0 then 1 else 10 * Pow10(n - 1)
  }

  function DigitValue(c: char): (d: int)
    requires IsDigit(c)
    ensures 0 <= d < 10 && (d == 0 <==> c == '0')
  {
    c as int - '0' as int
  }

  function Value(s: DigitString): (v: nat)
  {
    if s == "" then 0 else 10 * Value(s[..|s| - 1]) + DigitValue(s[|s| - 1])
  }

  /** The usual decimal spelling of a natural number: the reference for canonical digits. */
  function Digits(n: nat): string {
    if n < 10 then [n as char + '0'] else Digits(n / 10) + [(n % 10) as char + '0']
  }

  /** A decimal string: digits, optionally a dot and more digits. */
  predicate IsDecimal(s: string) {
    AllDigits(s[..FirstDot(s)]) && (FirstDot(s) < |s| ==> AllDigits(s[FirstDot(s) + 1..]))
  }

  /** All the digits of a decimal string, without its dot. */
  function AllOf(s: string): DigitString
    requires IsDecimal(s)
  {
    if FirstDot(s) < |s| then s[..FirstDot(s)] + s[FirstDot(s) + 1..] else s[..FirstDot(s)]
  }

  /** How many of them follow the dot. */
  function Scale(s: string): nat {
    if FirstDot(s) < |s| then |s| - FirstDot(s) - 1 else 0
  }

  /** floor(s * 10^decimals), where s denotes Value(AllOf(s)) / 10^Scale(s). */
  function FloorScaled(s: string, decimals: nat): nat
    requires IsDecimal(s)
  {
    Shift(Value(AllOf(s)), decimals, Scale(s))
  }

  /** floor(v * 10^up / 10^down) */
  function Shift(v: nat, up: nat, down: nat): nat {
    FloorIsNat(v, Pow10(up), Pow10(down));
    v * Pow10(up) / Pow10(down)
  }

  lemma {:induction false} FloorIsNat(v: nat, a: int, b: int)
    requires a > 0 && b > 0
    ensures v * a / b >= 0
  {
    assert v * a >= 0;
  }

  lemma {:induction false} PowSum(a: nat, b: nat)
    ensures Pow10(a + b) == Pow10(a) * Pow10(b)
    decreases a
  {
    if a > 0 {
      PowSum(a - 1, b);
    }
  }

  lemma {:induction false} ValueOfConcat(a: DigitString, b: DigitString)
    ensures Value(a + b) == Value(a) * Pow10(|b|) + Value(b)
    decreases |b|
  {
    if b == "" {
      assert a + b == a;
    } else {
      var c: DigitString := b[..|b| - 1];
      ValueOfConcat(a, c);
      assert (a + b)[..|a + b| - 1] == a + c;
      assert Value(a) * Pow10(|b|) == 10 * (Value(a) * Pow10(|c|));
    }
  }

  lemma {:induction false} ValueBelowPow(s: DigitString)
    ensures Value(s) < Pow10(|s|)
    decreases |s|
  {
    if s != "" {
      ValueBelowPow(s[..|s| - 1]);
    }
  }

  lemma {:induction false} ValueOfZeros(n: nat)
    ensures Value(Zeros(n)) == 0
  {
    if n > 0 {
      assert Zeros(n)[..n - 1] == Zeros(n - 1);
      ValueOfZeros(n - 1);
    }
  }

  /** No leading zero, except in "0" itself. */
  predicate Canonical(s: string) {
    s != "" && AllDigits(s) && (|s| > 1 ==> s[0] != '0')
  }

  lemma {:induction false} StripZerosKeepsValue(s: DigitString)
    ensures AllDigits(StripZeros(s)) && Value(StripZeros(s)) == Value(s)
    ensures s != "" ==> Canonical(StripZeros(s))
  {
    if |s| > 1 && s[0] == '0' {
      StripZerosKeepsValue(s[1..]);
      ValueOfConcat(s[..1], s[1..]);
      assert s[..1] + s[1..] == s;
      assert Value(s[..1]) == 10 * Value(s[..0]) + DigitValue(s[0]);
    }
  }

  lemma {:induction false} PositiveStart(s: DigitString)
    requires s != "" && s[0] != '0'
    ensures Value(s) > 0
    decreases |s|
  {
    if |s| > 1 {
      PositiveStart(s[..|s| - 1]);
    } else {
      assert s[..0] == "";
    }
  }

  /** A number has only one canonical spelling. */
  lemma {:induction false} CanonicalIsDigits(s: DigitString)
    requires Canonical(s)
    ensures s == Digits(Value(s))
    decreases |s|
  {
    var init: DigitString := s[..|s| - 1];
    var d := DigitValue(s[|s| - 1]);
    assert s == init + [s[|s| - 1]];
    assert d as char + '0' == s[|s| - 1];
    if |s| > 1 {
      CanonicalIsDigits(init);
      PositiveStart(init);
      assert Value(s) / 10 == Value(init) && Value(s) % 10 == d;
    }
  }

  // ---------- The padding is the scaling ----------

  lemma {:induction false} DivideByTail(x: nat, p: int, r: nat)
    requires p > 0 && r < p
    ensures (x * p + r) / p == x
  {
    var q := (x * p + r) / p;
    assert q * p <= x * p + r < q * p + p;
    if q < x {
      MultipleGap(q, x, p);
    } else if q > x {
      MultipleGap(x, q, p);
    }
  }

  lemma {:induction false} MultipleGap(a: int, b: int, p: int)
    requires a < b && p > 0
    ensures a * p + p <= b * p
    decreases b - a
  {
    if a + 1 < b {
      MultipleGap(a, b - 1, p);
    }
    assert b * p == (b - 1) * p + p;
  }

  lemma {:induction false} CancelPow(v: nat, a: int, b: int)
    requires a > 0 && b > 0
    ensures v * (a * b) / b == v * a
  {
    DivideByTail(v * a, b, 0);
    assert v * (a * b) == v * a * b;
  }

  /** Padding or cutting the fraction to `decimals` digits multiplies by 10^decimals and rounds down. */
  lemma {:induction false} PaddingScales(i: DigitString, f: DigitString, decimals: nat)
    ensures AllDigits(f + Zeros(decimals))
    ensures Value(i + (f + Zeros(decimals))[..decimals]) == Shift(Value(i + f), decimals, |f|)
  {
    if decimals >= |f| {
      var z := Zeros(decimals - |f|);
      assert (f + Zeros(decimals))[..decimals] == f + z;
      assert i + (f + z) == (i + f) + z;
      ValueOfConcat(i + f, z);
      ValueOfZeros(decimals - |f|);
      PowSum(decimals - |f|, |f|);
      CancelPow(Value(i + f), Pow10(decimals - |f|), Pow10(|f|));
    } else {
      var head: DigitString, tail: DigitString := f[..decimals], f[decimals..];
      assert (f + Zeros(decimals))[..decimals] == head;
      assert i + f == (i + head) + tail;
      ValueOfConcat(i + head, tail);
      ValueBelowPow(tail);
      PowSum(|tail|, decimals);
      CutIsDivision(Value(i + head), Pow10(|tail|), Pow10(decimals), Value(tail));
    }
  }

  lemma {:induction false} CutIsDivision(x: nat, p: int, q: int, r: nat)
    requires p > 0 && q > 0 && r < p
    ensures (x * p + r) * q / (p * q) == x
  {
    assert (x * p + r) * q == x * (p * q) + r * q;
    assert r * q < p * q;
    assert r * q >= 0;
    DivideByTail(x, p * q, r * q);
  }

  lemma {:induction false} StrippedWhole(i: DigitString)
    ensures AllDigits(OrZero(StripZeros(i))) && OrZero(StripZeros(i)) != ""
    ensures Value(OrZero(StripZeros(i))) == Value(i)
  {
    StripZerosKeepsValue(i);
    assert "0"[..0] == "";
  }

  lemma {:induction false} PartsAreExact(i: DigitString, f: DigitString, decimals: nat)
    ensures OrZero(StripZeros(OrZero(StripZeros(i)) + (f + Zeros(decimals))[..decimals]))
         == Digits(Shift(Value(i + f), decimals, |f|))
  {
    StrippedWhole(i);
    var whole: DigitString := OrZero(StripZeros(i));
    SamePrefixValue(whole, i, f);
    PaddingScales(whole, f, decimals);
    var all: DigitString := whole + (f + Zeros(decimals))[..decimals];
    StripZerosKeepsValue(all);
    CanonicalIsDigits(StripZeros(all));
  }

  /**
   * For every decimal string and every number of decimals, the human-unit path
   * returns the canonical digits of floor(value * 10^decimals).
   */
  lemma {:induction false} HumanAmountIsExact(amount: string, decimals: nat)
    requires IsDecimal(amount)
    ensures HumanAmount(amount, decimals) == Digits(FloorScaled(amount, decimals))
  {
    var n := FirstDot(amount);
    SplitOfDecimal(amount);
    if n < |amount| {
      PartsAreExact(amount[..n], amount[n + 1..], decimals);
    } else {
      assert amount[..n] + "" == amount[..n];
      PartsAreExact(amount[..n], "", decimals);
    }
  }

  lemma {:induction false} SamePrefixValue(a: DigitString, b: DigitString, f: DigitString)
    requires Value(a) == Value(b)
    ensures Value(a + f) == Value(b + f)
  {
    ValueOfConcat(a, f);
    ValueOfConcat(b, f);
  }

  lemma {:induction false} SplitOfDecimal(s: string)
    requires IsDecimal(s)
    ensures SplitAmount(s) == (s[..FirstDot(s)], if FirstDot(s) < |s| then s[FirstDot(s) + 1..] else "")
  {
    if FirstDot(s) < |s| {
      var rest := s[FirstDot(s) + 1..];
      assert FirstDot(rest) < |rest| ==> IsDigit(rest[FirstDot(rest)]);
      assert rest[..|rest|] == rest;
    } else {
      assert s[..|s|] == s;
    }
  }

  /**
   * The whole function: a digit-string maximum wins, then the human amount, then
   * the atomic one; otherwise it throws.
   */
  lemma {:induction false} AtomicAmountOfHumanRequirement(r: Requirement)
    requires r.unit == Some("human") && r.decimals.Some? && IsDecimal(r.amount)
    ensures GetAtomicAmount(r) ==
      if r.max.StringMax? && r.max.text != "" && AllDigits(r.max.text) then Some(r.max.text)
      else if r.amount == "" then None
      else Some(Digits(FloorScaled(r.amount, r.decimals.value)))
  {
    HumanAmountIsExact(r.amount, r.decimals.value);
  }

  /** Whatever the requirement, the amount is the maximum if that is a digit string, and else the given one in
      its unit; it throws exactly if the maximum is none and the amount, or the decimals of a human one, are
      missing or the unit is another. */
  lemma {:induction false} AtomicAmountExactly(r: Requirement)
    ensures r.max.StringMax? && r.max.text != "" && AllDigits(r.max.text) ==> GetAtomicAmount(r) == Some(r.max.text)
    ensures !(r.max.StringMax? && r.max.text != "" && AllDigits(r.max.text)) ==>
      (r.unit == Some("atomic") && r.amount != "" ==> GetAtomicAmount(r) == Some(r.amount))
    ensures !(r.max.StringMax? && r.max.text != "" && AllDigits(r.max.text)) ==>
      (GetAtomicAmount(r).None?
       <==> r.amount == "" || r.unit.None? || (r.unit.value != "human" && r.unit.value != "atomic")
            || (r.unit.value == "human" && r.decimals.None?))
  {
  }

  lemma {:induction false} NoDotInDigits(digits: DigitString)
    ensures FirstDot(digits) == |digits|
  {
    if digits != "" {
      assert IsDigit(digits[0]);
      NoDotInDigits(digits[1..]);
    }
  }

  /** A whole number without decimals stands for itself in both units. */
  lemma {:induction false} WholeAmountsAgree(digits: DigitString)
    requires digits != ""
    ensures GetAtomicAmount(Requirement(NoMax, Some("human"), Some(0), digits)) == Some(Digits(Value(digits)))
    ensures GetAtomicAmount(Requirement(NoMax, Some("atomic"), None, digits)) == Some(digits)
  {
    NoDotInDigits(digits);
    assert digits[..|digits|] == digits;
    HumanAmountIsExact(digits, 0);
    assert Pow10(0) == 1;
  }
}
