/** Arbitrary-precision amounts kept as decimal text, as the amount_shares column holds them. */
module Decimal {
  import opened Chain

  predicate IsDigit(c: char) { '0' <= c <= '9' }

  predicate AllDigits(s: string) {
    forall i :: 0 <= i < |s| ==> IsDigit(s[i])
  }

  function DigitValue(c: char): nat
    requires IsDigit(c)
  {
    (c - '0') as nat
  }

  function Digit(d: nat): (c: char)
    requires d < 10
    ensures IsDigit(c) && DigitValue(c) == d
  {
    '0' + d as char
  }

  /** The number a run of digits stands for. */
  function Value(s: string): nat
    requires AllDigits(s)
  {
    if s == "" then 0
    else 10 * Value(s[..|s| - 1]) + DigitValue(s[|s| - 1])
  }

  function Print(n: nat): string {
    if n < 10 then [Digit(n)] else Print(n / 10) + [Digit(n % 10)]
  }

  function PrintInt(n: int): string {
    if n < 0 then "-" + Print(-n) else Print(n)
  }

  /** The text big.Int prints for a non-negative integer: digits only, no superfluous leading zero. */
  predicate Canonical(s: string) {
    s != "" && AllDigits(s) && (s[0] == '0' ==> |s| == 1)
  }

  /** What big.Int accepts in base 10: an optional sign, then at least one digit. */
  function Parse(s: string): Option<int> {
    var signed := s != "" && (s[0] == '+' || s[0] == '-');
    var digits := if signed then s[1..] else s;
    if digits == "" || !AllDigits(digits) then None
    else
      var magnitude: int := Value(digits);
      Some(if signed && s[0] == '-' then -magnitude else magnitude)
  }

  /** The next amount of a position: text in, text out, a difference below zero clamped to zero. */
  function ComputeNewAmountShares(current: Option<string>, amount: string, isAddition: bool): Result<string> {
    match current
    case None => Ok(amount)
    case Some(text) =>
      match Parse(text)
      case None => Err(BadCurrentAmount)
      case Some(a) =>
        match Parse(amount)
        case None => Err(BadNewAmount)
        case Some(b) =>
          Ok(PrintInt(if isAddition then a + b else if a - b < 0 then 0 else a - b))
  }

  /** Subtraction on the naturals. */
  function Monus(a: nat, b: nat): nat { if a < b then 0 else a - b }

  /** Printing yields canonical text, and reading it back gives the number. */
  lemma {:induction false} PrintThenRead(n: nat)
    ensures Canonical(Print(n)) && Value(Print(n)) == n
    ensures Parse(Print(n)) == Some(n)
    ensures n > 0 ==> Print(n)[0] != '0'
  {
    if n >= 10 {
      PrintThenRead(n / 10);
      var s := Print(n);
      assert s[..|s| - 1] == Print(n / 10);
    } else {
      var s := Print(n);
      assert s[..|s| - 1] == "";
    }
  }

  /** Reading canonical text and printing the number gives the same text. */
  lemma {:induction false} ReadThenPrint(s: string)
    requires Canonical(s)
    ensures Print(Value(s)) == s
    ensures s[0] != '0' ==> Value(s) > 0
  {
    if |s| == 1 {
      assert s[..|s| - 1] == "";
    } else {
      var init := s[..|s| - 1];
      assert s == init + [s[|s| - 1]];
      ReadThenPrint(init);
      assert Value(s) / 10 == Value(init);
    }
  }

  /**
    On canonical text, the text arithmetic is natural-number arithmetic with a floor at zero,
    and its result reads "0" exactly when nothing is left.
  */
  lemma TextArithmeticRefinesNaturals(current: string, amount: string, isAddition: bool)
    requires Canonical(current) && Canonical(amount)
    ensures
      var next := if isAddition then Value(current) + Value(amount) else Monus(Value(current), Value(amount));
      var result := ComputeNewAmountShares(Some(current), amount, isAddition);
      && result == Ok(Print(next))
      && Canonical(result.value) && Value(result.value) == next
      && (result.value == "0" <==> next == 0)
  {
    hide Print, Value;
    var next := if isAddition then Value(current) + Value(amount) else Monus(Value(current), Value(amount));
    PrintThenRead(next);
    ZeroTextIsZero(next);
  }

  lemma ZeroTextIsZero(n: nat)
    ensures Print(n) == "0" <==> n == 0
  {
    PrintThenRead(n);
    PrintThenRead(0);
  }

  lemma {:induction false} ValueBounds(s: string) returns (limit: nat)
    requires AllDigits(s)
    ensures limit == PowerOfTen(|s|) && Value(s) < limit
  {
    limit := PowerOfTen(|s|);
    if s != "" {
      var rest := ValueBounds(s[..|s| - 1]);
    }
  }

  function PowerOfTen(n: nat): (p: nat)
    ensures p >= 1
  {
    if n == 0 then 1 else 10 * PowerOfTen(n - 1)
  }

  /** Text without a leading zero is at least a power of ten. */
  lemma {:induction false} LeadingDigit(s: string)
    requires AllDigits(s) && s != "" && s[0] != '0'
    ensures Value(s) >= PowerOfTen(|s| - 1)
  {
    if |s| > 1 {
      LeadingDigit(s[..|s| - 1]);
    } else {
      assert s[..0] == "";
    }
  }

  /** Longer canonical text is a greater number. */
  lemma LongerIsGreater(a: string, b: string)
    requires Canonical(a) && Canonical(b) && |a| < |b|
    ensures Value(a) < Value(b)
  {
    hide Value;
    var limit := ValueBounds(a);
    LeadingDigit(b);
    PowersGrow(|a|, |b| - 1);
  }

  lemma {:induction false} PowersGrow(m: nat, n: nat)
    requires m <= n
    ensures PowerOfTen(m) <= PowerOfTen(n)
  {
    if m < n {
      PowersGrow(m, n - 1);
    }
  }

  /** Among texts of one length, the first different character decides, as characters are ordered. */
  lemma {:induction false} FirstDifferenceDecides(a: string, b: string, k: nat)
    requires AllDigits(a) && AllDigits(b) && |a| == |b| && k < |a|
    requires a[..k] == b[..k] && a[k] < b[k]
    ensures Value(a) < Value(b)
  {
    var p, q := a[..|a| - 1], b[..|b| - 1];
    if k < |a| - 1 {
      assert p[..k] == q[..k];
      FirstDifferenceDecides(p, q, k);
    } else {
      assert p == q;
    }
  }

  /** A plus is optional and changes nothing, a minus negates. */
  lemma SignsMean(d: string)
    requires d != "" && AllDigits(d)
    ensures Parse(d) == Parse("+" + d) == Some(Value(d)) && Parse("-" + d) == Some(0 - Value(d))
  {
    hide Value;
    assert ("+" + d)[1..] == d && ("-" + d)[1..] == d && IsDigit(d[0]);
  }

  /** Nothing else is accepted. */
  lemma OnlySignedDigits(s: string)
    ensures Parse(s).Some? <==>
      exists sign: string, d: string :: sign in {"", "+", "-"} && d != "" && AllDigits(d) && s == sign + d
  {
    hide Value;
    if Parse(s).Some? {
      var signed := s != "" && (s[0] == '+' || s[0] == '-');
      var sign, d := if signed then s[..1] else "", if signed then s[1..] else s;
      assert s == sign + d;
      assert signed ==> sign == [s[0]];
    }
    forall sign: string, d: string | sign in {"", "+", "-"} && d != "" && AllDigits(d) && s == sign + d
      ensures Parse(s).Some?
    {
      SignsMean(d);
      assert sign == "" ==> s == d;
    }
  }

  lemma PrintIntThenRead(n: int)
    ensures Parse(PrintInt(n)) == Some(n)
  {
    hide Value, Print;
    var m: nat := if n < 0 then -n else n;
    PrintThenRead(m);
    SignsMean(Print(m));
  }

  /**
    On any text: malformed amounts are errors, the stored one first, and otherwise integers are added or subtracted.
  */
  lemma TextArithmeticMeans(current: string, amount: string, isAddition: bool)
    ensures
      var r := ComputeNewAmountShares(Some(current), amount, isAddition);
      var a, b := Parse(current), Parse(amount);
      && (a.None? <==> r == Err(BadCurrentAmount))
      && (a.Some? && b.None? <==> r == Err(BadNewAmount))
      && (a.Some? && b.Some? ==>
            r.Ok? && Parse(r.value)
              == if isAddition then Some(a.value + b.value) else if a.value < b.value then Some(0)
                else Some(a.value - b.value))
    ensures ComputeNewAmountShares(None, amount, isAddition) == Ok(amount)
  {
    hide Value, Print, Parse, PrintInt;
    var a, b := Parse(current), Parse(amount);
    if a.Some? && b.Some? {
      PrintIntThenRead(a.value + b.value);
      PrintIntThenRead(a.value - b.value);
      PrintIntThenRead(0);
    }
  }
}
