/** Go's `strconv.Atoi` on a 64-bit platform, its inverse `strconv.Itoa`, and the
    `uint(i)` conversion the handlers apply to parsed path parameters. */
module Strconv {
  import opened Wrappers

  const MinInt64: int := -0x8000_0000_0000_0000
  const MaxInt64: int := 0x7FFF_FFFF_FFFF_FFFF
  const TwoTo64: int := 0x1_0000_0000_0000_0000

  predicate IsDigit(c: char) { '0' <= c <= '9' }

  predicate AllDigits(s: string) {
    forall i :: 0 <= i < |s| ==> IsDigit(s[i])
  }

  function DigitValue(c: char): nat
    requires IsDigit(c)
  {
    (c as int) - ('0' as int)
  }

  function DigitChar(d: nat): (c: char)
    requires d < 10
    ensures IsDigit(c) && DigitValue(c) == d
  {
    ('0' as int + d) as char
  }

  /** Value of a decimal digit string, most significant digit first. */
  function DigitsValue(s: string): nat
    requires AllDigits(s)
  {
    if |s| == 0 then 0 else DigitsValue(s[..|s| - 1]) * 10 + DigitValue(s[|s| - 1])
  }

  /** Shortest decimal spelling of a natural number. */
  function NatDigits(n: nat): (s: string)
    ensures |s| > 0 && AllDigits(s)
    ensures |s| > 1 ==> s[0] != '0'
    decreases n
  {
    if n < 10 then [DigitChar(n)] else NatDigits(n / 10) + [DigitChar(n % 10)]
  }

  lemma {:induction false} NatDigitsRoundTrip(n: nat)
    ensures DigitsValue(NatDigits(n)) == n
    decreases n
  {
    if n >= 10 {
      var s := NatDigits(n);
      assert s[..|s| - 1] == NatDigits(n / 10);
      NatDigitsRoundTrip(n / 10);
    }
  }

  /** The text of the `*strconv.NumError` that Atoi returns. Go quotes the input with
      `strconv.Quote`; the model uses plain double quotes (no escaping). */
  function SyntaxError(s: string): string {
    "strconv.Atoi: parsing \"" + s + "\": invalid syntax"
  }

  function RangeError(s: string): string {
    "strconv.Atoi: parsing \"" + s + "\": value out of range"
  }

  lemma SyntaxAndRangeDiffer(s: string)
    ensures SyntaxError(s) != RangeError(s)
  {
    var k := |"strconv.Atoi: parsing \"" + s + "\": "|;
    assert SyntaxError(s)[k] == 'i' && RangeError(s)[k] == 'v';
  }

  // ------------------------------------------------------------------ ParseUint

  const MaxUint64: int := 0xFFFF_FFFF_FFFF_FFFF
  /** `ParseUint`'s cutoff for base 10: the least n with n * 10 > MaxUint64. */
  const Cutoff: int := MaxUint64 / 10 + 1

  /** What `strconv.ParseUint(s, 10, 64)` reports, before Atoi words it. */
  datatype Parsed = Parsed(n: nat) | BadSyntax | OutOfRange

  /** Length of the leading run of decimal digits. */
  function DigitRun(s: string): (k: nat)
    ensures k <= |s| && AllDigits(s[..k])
    ensures k < |s| ==> !IsDigit(s[k])
  {
    if |s| == 0 || !IsDigit(s[0]) then 0
    else
      var k := 1 + DigitRun(s[1..]);
      assert forall i :: 1 <= i < k ==> s[..k][i] == s[1..][..k - 1][i - 1];
      k
  }

  /** The digit run is the one position that ends a run of digits. */
  lemma {:induction false} DigitRunIs(s: string, k: nat)
    requires k <= |s| && AllDigits(s[..k]) && (k < |s| ==> !IsDigit(s[k]))
    ensures DigitRun(s) == k
  {
    if k > 0 {
      assert IsDigit(s[..k][0]);
      assert s[1..][..k - 1] == s[..k][1..];
      DigitRunIs(s[1..], k - 1);
    }
  }

  /** `ParseUint`'s digit loop from position i with n accumulated so far. A non-digit
      is a syntax error; a digit that would carry n past MaxUint64 is a range error
      at once, before any later character is looked at. */
  function ScanUint(s: string, i: nat, n: nat): Parsed
    requires i <= |s|
    decreases |s| - i
  {
    if i == |s| then Parsed(n)
    else if !IsDigit(s[i]) then BadSyntax
    else if n >= Cutoff then OutOfRange
    else if n * 10 + DigitValue(s[i]) > MaxUint64 then OutOfRange
    else ScanUint(s, i + 1, n * 10 + DigitValue(s[i]))
  }

  /** `strconv.ParseUint(s, 10, 64)`. Its outcome is decided by the leading digit
      run alone when that run's value already exceeds MaxUint64; otherwise a later
      non-digit is a syntax error. */
  function ParseUint(s: string): (p: Parsed)
    ensures |s| == 0 ==> p == BadSyntax
    ensures |s| > 0 && DigitsValue(s[..DigitRun(s)]) > MaxUint64 ==> p == OutOfRange
    ensures |s| > 0 && DigitsValue(s[..DigitRun(s)]) <= MaxUint64 && DigitRun(s) < |s| ==> p == BadSyntax
    ensures |s| > 0 && AllDigits(s) && DigitsValue(s) <= MaxUint64 ==> p == Parsed(DigitsValue(s))
  {
    if |s| == 0 then BadSyntax
    else
      ScanUintClosedForm(s, 0, 0);
      assert s[..|s|] == s;
      assert AllDigits(s) ==> DigitRun(s) == |s|;
      ScanUint(s, 0, 0)
  }

  /** Appending a digit multiplies the value by ten and adds the digit. */
  lemma DigitsValueStep(s: string, i: nat)
    requires i < |s| && AllDigits(s[..i + 1])
    ensures AllDigits(s[..i])
    ensures DigitsValue(s[..i + 1]) == DigitsValue(s[..i]) * 10 + DigitValue(s[i])
  {
    assert s[..i + 1][..i] == s[..i];
    assert forall j :: 0 <= j < i ==> s[..i][j] == s[..i + 1][j];
  }

  /** Longer digit prefixes never have smaller values. */
  lemma {:induction false} DigitsValuePrefixMono(s: string, j: nat, k: nat)
    requires j <= k <= |s| && AllDigits(s[..k])
    ensures AllDigits(s[..j]) && DigitsValue(s[..j]) <= DigitsValue(s[..k])
    decreases k - j
  {
    if j < k {
      DigitsValueStep(s, k - 1);
      DigitsValuePrefixMono(s, j, k - 1);
    }
  }

  lemma {:induction false} ScanUintClosedForm(s: string, i: nat, n: nat)
    requires i <= DigitRun(s) && AllDigits(s[..i]) && n == DigitsValue(s[..i]) <= MaxUint64
    ensures var k := DigitRun(s);
      ScanUint(s, i, n) ==
        if DigitsValue(s[..k]) > MaxUint64 then OutOfRange
        else if k < |s| then BadSyntax
        else Parsed(DigitsValue(s[..k]))
    decreases |s| - i
  {
    var k := DigitRun(s);
    if i == |s| {
      assert k == i;
    } else if !IsDigit(s[i]) {
      assert k == i;
    } else {
      assert i < k;
      DigitsValuePrefixMono(s, i + 1, k);
      DigitsValueStep(s, i);
      var n' := n * 10 + DigitValue(s[i]);
      assert n' == DigitsValue(s[..i + 1]);
      if n >= Cutoff {
        assert n' > MaxUint64;
      } else if n' <= MaxUint64 {
        ScanUintClosedForm(s, i + 1, n');
      }
    }
  }

  // ----------------------------------------------------------------------- Atoi

  /** Atoi's input with one leading sign removed. */
  function Unsigned(s: string): string {
    if |s| > 0 && (s[0] == '+' || s[0] == '-') then s[1..] else s
  }

  predicate Negative(s: string) {
    |s| > 0 && s[0] == '-'
  }

  /** The value an all-digit input denotes. */
  function SignedValue(s: string): int
    requires AllDigits(Unsigned(s))
  {
    if Negative(s) then 0 - DigitsValue(Unsigned(s)) else DigitsValue(Unsigned(s))
  }

  /** The value of the leading digit run after the sign: all that `ParseUint` has
      read when it stops at a non-digit or at an overflow. */
  function LeadValue(s: string): nat {
    var u := Unsigned(s);
    DigitsValue(u[..DigitRun(u)])
  }

  /** Atoi's fast path, taken for inputs of 1 to 18 bytes: a sign, then digits
      only; no such input can overflow. */
  function AtoiFast(s: string): Result<int>
    requires 0 < |s| < 19
  {
    var body := Unsigned(s);
    if |body| == 0 || !AllDigits(body) then Err(SyntaxError(s))
    else Ok(SignedValue(s))
  }

  /** Atoi's slow path, `strconv.ParseInt(s, 10, 0)`: sign, `ParseUint`, then the
      signed 64-bit range check. */
  function AtoiSlow(s: string): (r: Result<int>)
    ensures r.Ok? <==> |Unsigned(s)| > 0 && AllDigits(Unsigned(s)) && MinInt64 <= SignedValue(s) <= MaxInt64
    ensures r.Ok? ==> r.value == SignedValue(s)
    ensures r == Err(RangeError(s)) <==>
      && |Unsigned(s)| > 0
      && (LeadValue(s) > MaxUint64 || (AllDigits(Unsigned(s)) && !(MinInt64 <= SignedValue(s) <= MaxInt64)))
    ensures r.Err? ==> r.error == SyntaxError(s) || r.error == RangeError(s)
  {
    SyntaxAndRangeDiffer(s);
    var u := Unsigned(s);
    assert u[..|u|] == u;
    assert AllDigits(u) ==> DigitRun(u) == |u|;
    if |s| == 0 then Err(SyntaxError(s))
    else
      match ParseUint(u)
      case BadSyntax => Err(SyntaxError(s))
      case OutOfRange => Err(RangeError(s))
      case Parsed(n) =>
        if !Negative(s) && n > MaxInt64 then Err(RangeError(s))
        else if Negative(s) && n > MaxInt64 + 1 then Err(RangeError(s))
        else Ok(if Negative(s) then 0 - n else n)
  }

  function Pow10(n: nat): nat {
    if n == 0 then 1 else 10 * Pow10(n - 1)
  }

  lemma {:induction false} DigitsValueBelowPow10(s: string)
    requires AllDigits(s)
    ensures DigitsValue(s) < Pow10(|s|)
  {
    if |s| > 0 {
      var t := s[..|s| - 1];
      assert AllDigits(t);
      DigitsValueBelowPow10(t);
      assert DigitsValue(t) * 10 <= (Pow10(|t|) - 1) * 10;
    }
  }

  lemma {:induction false} Pow10Mono(a: nat, b: nat)
    requires a <= b
    ensures Pow10(a) <= Pow10(b)
    decreases b
  {
    if a < b {
      Pow10Mono(a, b - 1);
    }
  }

  lemma {:induction false} Pow10Add(a: nat, b: nat)
    ensures Pow10(a + b) == Pow10(a) * Pow10(b)
    decreases b
  {
    if b > 0 {
      Pow10Add(a, b - 1);
    }
  }

  lemma Pow10Value18()
    ensures Pow10(18) == 1_000_000_000_000_000_000
    ensures Pow10(19) == 10_000_000_000_000_000_000
  {
    assert Pow10(6) == 1_000_000;
    Pow10Add(6, 6);
    Pow10Add(12, 6);
  }

  /** On inputs short enough for the fast path both paths agree, so the choice
      between them (which Go makes on the byte length) cannot be observed. */
  lemma FastPathAgrees(s: string)
    requires 0 < |s| < 19
    ensures AtoiFast(s) == AtoiSlow(s)
  {
    var u := Unsigned(s);
    var lead := u[..DigitRun(u)];
    DigitsValueBelowPow10(lead);
    Pow10Mono(|lead|, 18);
    Pow10Value18();
    if AllDigits(u) {
      assert u[..|u|] == u;
    }
  }

  /** `strconv.Atoi` on a 64-bit platform: an optional `+` or `-`, then one or more
      decimal digits whose value fits in 64 signed bits. A range error wins over a
      syntax error when the digits read before the first non-digit already exceed
      MaxUint64, since `ParseUint` stops there. */
  function Atoi(s: string): (r: Result<int>)
    ensures r.Ok? ==> MinInt64 <= r.value <= MaxInt64
    ensures r.Ok? <==> |Unsigned(s)| > 0 && AllDigits(Unsigned(s)) && MinInt64 <= SignedValue(s) <= MaxInt64
    ensures r.Ok? ==> r.value == SignedValue(s)
    ensures r == Err(RangeError(s)) <==>
      && |Unsigned(s)| > 0
      && (LeadValue(s) > MaxUint64 || (AllDigits(Unsigned(s)) && !(MinInt64 <= SignedValue(s) <= MaxInt64)))
    ensures r.Err? ==> r.error == SyntaxError(s) || r.error == RangeError(s)
    ensures |s| > 0 && AllDigits(s) && DigitsValue(s) <= MaxInt64 ==> r == Ok(DigitsValue(s))
  {
    assert |s| > 0 && AllDigits(s) ==> IsDigit(s[0]) && Unsigned(s) == s;
    if 0 < |s| < 19 then
      FastPathAgrees(s);
      AtoiFast(s)
    else AtoiSlow(s)
  }

  /** Digits too large for 64 unsigned bits followed by anything that starts with a
      non-digit: a range error, not a syntax error. */
  lemma OverflowBeforeJunkIsRange(t: string, junk: string)
    requires |t| > 0 && AllDigits(t) && DigitsValue(t) > MaxUint64
    requires |junk| > 0 && !IsDigit(junk[0])
    ensures Atoi(t + junk) == Err(RangeError(t + junk))
  {
    var s := t + junk;
    assert IsDigit(s[0]);
    assert Unsigned(s) == s;
    assert s[..|t|] == t;
    DigitRunIs(s, |t|);
  }

  /** Twenty nines then a letter: a range error. */
  lemma AtoiRangeBeforeSyntax()
    ensures Atoi("99999999999999999999x") == Err(RangeError("99999999999999999999x"))
  {
    var nines := "99999999999999999999";
    assert nines + "x" == "99999999999999999999x";
    assert DigitValue(nines[0]) == 9;
    DigitsValueAtLeastLead(nines);
    Pow10Value18();
    OverflowBeforeJunkIsRange(nines, "x");
  }

  /** A short input with a letter: a syntax error. */
  lemma AtoiSyntaxExample()
    ensures Atoi("12x") == Err(SyntaxError("12x"))
  {
    assert !AllDigits(Unsigned("12x")) by {
      assert !IsDigit("12x"[2]);
    }
    SyntaxAndRangeDiffer("12x");
  }

  /** A digit string is at least its first digit times the place value. */
  lemma {:induction false} DigitsValueAtLeastLead(s: string)
    requires |s| > 0 && AllDigits(s)
    ensures DigitsValue(s) >= DigitValue(s[0]) * Pow10(|s| - 1)
  {
    if |s| > 1 {
      var t := s[..|s| - 1];
      assert AllDigits(t) && t[0] == s[0];
      DigitsValueAtLeastLead(t);
      assert DigitValue(s[0]) * Pow10(|s| - 1) == DigitValue(s[0]) * Pow10(|t| - 1) * 10;
    }
  }

  /** `strconv.Itoa`: decimal spelling with a leading `-` for negatives. */
  function Itoa(n: int): (s: string)
    ensures |s| > 0
    ensures n >= 0 <==> AllDigits(s)
  {
    if n >= 0 then NatDigits(n)
    else
      var s := "-" + NatDigits(-n);
      assert !IsDigit(s[0]);
      s
  }

  /** A `-` before a digit string negates its value, down to MinInt64. */
  lemma AtoiNegated(s: string)
    requires |s| > 0 && AllDigits(s) && DigitsValue(s) <= MaxInt64 + 1
    ensures Atoi("-" + s) == Ok(0 - DigitsValue(s))
  {
    var t := "-" + s;
    assert t[1..] == s;
    AtoiMinus(t);
  }

  lemma AtoiMinus(t: string)
    requires |t| > 1 && t[0] == '-' && AllDigits(t[1..]) && DigitsValue(t[1..]) <= MaxInt64 + 1
    ensures Atoi(t) == Ok(0 - DigitsValue(t[1..]))
  {
  }

  /** Atoi inverts Itoa on every 64-bit integer. */
  lemma ItoaRoundTrip(n: int)
    requires MinInt64 <= n <= MaxInt64
    ensures Atoi(Itoa(n)) == Ok(n)
  {
    if n >= 0 {
      NatDigitsRoundTrip(n);
    } else {
      var s := Itoa(n);
      assert s[1..] == NatDigits(-n);
      NatDigitsRoundTrip(-n);
    }
  }

  /** Go's `uint(i)` on a 64-bit platform: two's-complement reinterpretation. */
  function ToUint(i: int): (u: nat)
    requires MinInt64 <= i <= MaxInt64
    ensures u < TwoTo64
    ensures i >= 0 ==> u == i
    ensures i < 0 ==> u == i + TwoTo64
  {
    if i >= 0 then i else i + TwoTo64
  }
}
