/** Integer literals and Integer objects (src/objects/integer.c).

    The source stores a 64-bit signed value. It accumulates the magnitude in
    a uint64_t, most significant digit last, multiplying a uint64_t place
    value by ten at every step, and it guards each addition with an assert
    whose subtraction is unsigned as well. Both wrap modulo 2^64; the model
    writes the wrap-around out. A failed assert is the outcome `None`. */
module Integer {
  import opened Wrappers

  const U64: int := 0x1_0000_0000_0000_0000
  const Int64Max: int := 0x7FFF_FFFF_FFFF_FFFF
  const Int64Min: int := -0x8000_0000_0000_0000

  type Digit = d: int | 0 <= d <= 9

  /** An Integer object holds one int64_t. */
  type Int64 = v: int | Int64Min <= v <= Int64Max

  function Pow10(k: nat): (r: nat)
    ensures r >= 1
  {
    if k == 0 then 1 else 10 * Pow10(k - 1)
  }

  /** The decimal value of a digit sequence, most significant digit first. */
  function DecimalValue(ds: seq<Digit>): nat {
    if |ds| == 0 then 0 else DecimalValue(ds[..|ds| - 1]) * 10 + ds[|ds| - 1]
  }

  /** ABSMAX: 2^63 for a negative literal and INT64_MAX otherwise. */
  function AbsMax(negative: bool): int {
    if negative then Int64Max + 1 else Int64Max
  }

  /** The conversion of a uint64_t to int64_t on a two's complement machine. */
  function ToSigned(u: int): (r: Int64)
    requires 0 <= u < U64
    ensures r % U64 == u
  {
    if u <= Int64Max then u else u - U64
  }

  /** The loop of integer_from_digits AS WRITTEN, on the digits not yet
      consumed (it walks from the last digit to the first). Every product,
      sum and difference is taken modulo 2^64. */
  function AccumulateAsWritten(negative: bool, ds: seq<Digit>, absval: int, multipleby: int): (r: Option<int>)
    requires 0 <= absval < U64 && 0 <= multipleby < U64
    ensures r.Some? ==> 0 <= r.value < U64
    decreases |ds|
  {
    if |ds| == 0 then Some(absval)
    else
      var term := ds[|ds| - 1] * multipleby % U64;
      if absval > (AbsMax(negative) - term) % U64 then None
      else AccumulateAsWritten(negative, ds[..|ds| - 1], (absval + term) % U64, multipleby * 10 % U64)
  }

  /** integer_from_digits as written: the stored int64_t, or None when the
      assert fails. */
  function FromDigitsAsWritten(negative: bool, ds: seq<Digit>): (r: Option<Int64>)
    requires |ds| > 0
  {
    var absval :- AccumulateAsWritten(negative, ds, 0, 1);
    Some(ToSigned(if negative then (U64 - absval) % U64 else absval))
  }

  /** The value a literal denotes: the decimal value, negated for '-'. */
  function SignedValue(negative: bool, ds: seq<Digit>): int {
    if negative then -(DecimalValue(ds) as int) else DecimalValue(ds)
  }

  /** integer_from_digits with the evidently intended bound check: the
      magnitude must not exceed ABSMAX, and the stored value is the signed
      decimal value of the digits. */
  function FromDigits(negative: bool, ds: seq<Digit>): (r: Option<Int64>)
    requires |ds| > 0
    ensures r.Some? <==> DecimalValue(ds) <= AbsMax(negative)
    ensures r.Some? ==> r.value == SignedValue(negative, ds)
  {
    var v := DecimalValue(ds);
    if v > AbsMax(negative) then None
    else Some(if negative then -(v as int) else v)
  }

  lemma Pow10Bound(k: nat)
    requires k <= 19
    ensures Pow10(k) <= Pow10(19) == 10_000_000_000_000_000_000
    decreases 19 - k
  {
    Pow10Value();
    if k < 19 {
      Pow10Bound(k + 1);
    }
  }

  lemma Pow10Value()
    ensures Pow10(19) == 10_000_000_000_000_000_000
  {
    assert Pow10(1) == 10;
    assert Pow10(2) == 100;
    assert Pow10(3) == 1000;
    assert Pow10(4) == 10000;
    assert Pow10(5) == 100000;
    assert Pow10(6) == 1000000;
    assert Pow10(7) == 10000000;
    assert Pow10(8) == 100000000;
    assert Pow10(9) == 1000000000;
    assert Pow10(10) == 10000000000;
    assert Pow10(11) == 100000000000;
    assert Pow10(12) == 1000000000000;
    assert Pow10(13) == 10000000000000;
    assert Pow10(14) == 100000000000000;
    assert Pow10(15) == 1000000000000000;
    assert Pow10(16) == 10000000000000000;
    assert Pow10(17) == 100000000000000000;
    assert Pow10(18) == 1000000000000000000;
  }

  lemma Pow10Mono(i: nat, j: nat)
    requires i <= j
    ensures Pow10(i) <= Pow10(j)
    decreases j - i
  {
    if i < j {
      Pow10Mono(i + 1, j);
    }
  }

  /** One step of the loop below 10^19: no product, difference or sum
      wraps. */
  lemma NoWrapStep(negative: bool, d: Digit, p: nat, absval: nat)
    requires p <= 1_000_000_000_000_000_000 && absval <= AbsMax(negative)
    ensures d * p % U64 == d * p
    ensures (AbsMax(negative) - d * p) % U64 == AbsMax(negative) - d * p
    ensures p * 10 % U64 == p * 10
    ensures absval + d * p <= AbsMax(negative) ==> (absval + d * p) % U64 == absval + d * p
  {
  }

  /** The magnitude a digit sequence contributes at place value 10^k. */
  function Scaled(ds: seq<Digit>, k: nat): (r: nat)
    ensures k == 0 ==> r == DecimalValue(ds)
  {
    DecimalValue(ds) * Pow10(k)
  }

  /** What the last digit of `ds` adds at place value 10^k. */
  function LastTerm(ds: seq<Digit>, k: nat): (r: nat)
    requires |ds| > 0
  {
    ds[|ds| - 1] * Pow10(k)
  }

  /** Dropping the last digit moves the rest one place up. */
  lemma ScaledStep(ds: seq<Digit>, k: nat)
    requires |ds| > 0
    ensures Scaled(ds, k) == Scaled(ds[..|ds| - 1], k + 1) + LastTerm(ds, k)
  {
    var p := DecimalValue(ds[..|ds| - 1]);
    var d := ds[|ds| - 1];
    var q := Pow10(k);
    assert DecimalValue(ds) == p * 10 + d;
    assert Pow10(k + 1) == 10 * q;
    hide DecimalValue, Pow10;
    calc {
      (p * 10 + d) * q;
      p * (10 * q) + d * q;
    }
  }

  /** The place values the loop meets before 10^19. */
  lemma PlaceBound(k: nat)
    requires k <= 18
    ensures Pow10(k) <= 1_000_000_000_000_000_000 && Pow10(k + 1) == Pow10(k) * 10
  {
    Pow10Bound(18);
    Pow10Mono(k, 18);
  }

  /** One iteration of the loop at place value 10^k, k <= 18. */
  lemma AccumulateStepNoWrap(negative: bool, ds: seq<Digit>, absval: nat, k: nat)
    requires |ds| > 0 && k <= 18 && absval <= AbsMax(negative)
    ensures Pow10(k) < U64 && Pow10(k + 1) < U64
    ensures AccumulateAsWritten(negative, ds, absval, Pow10(k))
      == if absval + LastTerm(ds, k) > AbsMax(negative) then None
         else AccumulateAsWritten(negative, ds[..|ds| - 1], absval + LastTerm(ds, k), Pow10(k + 1))
  {
    PlaceBound(k);
    NoWrapStep(negative, ds[|ds| - 1], Pow10(k), absval);
    hide Pow10, DecimalValue;
  }

  /** The outcome the intended check gives for a magnitude. */
  function Checked(negative: bool, total: int): Option<int> {
    if total <= AbsMax(negative) then Some(total) else None
  }

  /** While the place value has not reached 10^19 nothing wraps, and each
      assert fails exactly when the running sum would pass ABSMAX. */
  lemma {:induction false} AccumulateNoWrap(negative: bool, ds: seq<Digit>, absval: nat, k: nat)
    requires |ds| + k <= 19 && absval <= AbsMax(negative)
    requires Pow10(k) < U64
    ensures AccumulateAsWritten(negative, ds, absval, Pow10(k)) == Checked(negative, absval + Scaled(ds, k))
    decreases |ds|
  {
    if |ds| > 0 {
      var prefix := ds[..|ds| - 1];
      hide *;
      AccumulateStepNoWrap(negative, ds, absval, k);
      ScaledStep(ds, k);
      var term := LastTerm(ds, k);
      if absval + term <= AbsMax(negative) {
        AccumulateNoWrap(negative, prefix, absval + term, k + 1);
      }
    }
  }

  /** For at most 19 digits the code as written computes the intended value
      and rejects exactly the out-of-range magnitudes. */
  lemma AsWrittenAgreesUpTo19Digits(negative: bool, ds: seq<Digit>)
    requires 0 < |ds| <= 19
    ensures FromDigitsAsWritten(negative, ds) == FromDigits(negative, ds)
  {
    AccumulateNoWrap(negative, ds, 0, 0);
    var v := DecimalValue(ds);
    if v <= AbsMax(negative) && negative && v > 0 {
      assert (U64 - v) % U64 == U64 - v;
    }
  }

  function Zeros(n: nat): (r: seq<Digit>)
    ensures |r| == n && forall i :: 0 <= i < n ==> r[i] == 0
  {
    if n == 0 then [] else Zeros(n - 1) + [0]
  }

  /** A place value the loop can reach without wrapping. */
  function Place(k: nat): (r: nat)
    requires k <= 19
    ensures r == Pow10(k) && r < U64
  {
    Pow10Bound(k);
    Pow10(k)
  }

  /** Trailing zeros only advance the place value. */
  lemma {:induction false} TrailingZeros(negative: bool, pre: seq<Digit>, n: nat, k: nat)
    requires k + n <= 19
    ensures AccumulateAsWritten(negative, pre + Zeros(n), 0, Place(k))
         == AccumulateAsWritten(negative, pre, 0, Place(k + n))
    decreases n
  {
    if n > 0 {
      ZeroStep(negative, pre, n, k);
      TrailingZeros(negative, pre, n - 1, k + 1);
    } else {
      assert pre + Zeros(n) == pre;
    }
  }

  /** A trailing zero only moves the place value up. */
  lemma ZeroStep(negative: bool, pre: seq<Digit>, n: nat, k: nat)
    requires n > 0 && k + n <= 19
    ensures AccumulateAsWritten(negative, pre + Zeros(n), 0, Place(k))
         == AccumulateAsWritten(negative, pre + Zeros(n - 1), 0, Place(k + 1))
  {
    var ds := pre + Zeros(n);
    ZerosSplit(pre, n, k);
    assert AbsMax(negative) >= 0;
    AccumulateStepNoWrap(negative, ds, 0, k);
  }

  lemma ZerosSplit(pre: seq<Digit>, n: nat, k: nat)
    requires n > 0
    ensures var ds := pre + Zeros(n);
      |ds| > 0 && ds[..|ds| - 1] == pre + Zeros(n - 1) && LastTerm(ds, k) == 0
  {
    var ds := pre + Zeros(n);
    assert ds[..|ds| - 1] == pre + Zeros(n - 1);
    assert ds[|ds| - 1] == 0;
  }

  /** The single leading digit 1 at place value 10^19: its term does not
      wrap, but ABSMAX - 10^19 does, so the assert lets it through. */
  lemma OneAtPlace19()
    ensures AccumulateAsWritten(false, [1], 0, 10_000_000_000_000_000_000) == Some(10_000_000_000_000_000_000)
  {
    var ten19 := 10_000_000_000_000_000_000;
    var one: seq<Digit> := [1];
    assert one[..0] == [];
    assert one[0] * ten19 % U64 == ten19;
    assert (AbsMax(false) - ten19) % U64 == AbsMax(false) - ten19 + U64;
  }

  /** Finding: twenty digits "10000000000000000000" (10^19, above INT64_MAX)
      pass the assert, because ABSMAX - 10^19 wraps to a huge unsigned
      number, and the object stores 10^19 - 2^64. The corrected check
      rejects the literal. */
  lemma WrapCounterexample()
    ensures FromDigitsAsWritten(false, [1] + Zeros(19)) == Some(-8_446_744_073_709_551_616)
    ensures FromDigits(false, [1] + Zeros(19)) == None
  {
    TrailingZeros(false, [1], 19, 0);
    Pow10Value();
    assert Pow10(0) == 1;
    OneAtPlace19();
    assert ToSigned(10_000_000_000_000_000_000) == -8_446_744_073_709_551_616;
    assert DecimalValue([1] + Zeros(19)) == 10_000_000_000_000_000_000 by {
      DecimalValueAppendAll([1], Zeros(19));
      ZerosValue(19);
      assert DecimalValue([1]) == 1 by {
        assert [1][..0] == [];
      }
    }
  }

  lemma {:induction false} ZerosValue(n: nat)
    ensures DecimalValue(Zeros(n)) == 0
  {
    if n > 0 {
      assert Zeros(n)[..n - 1] == Zeros(n - 1);
      ZerosValue(n - 1);
    }
  }

  /** Appending digits shifts the value of the prefix. */
  lemma {:induction false} DecimalValueAppendAll(a: seq<Digit>, b: seq<Digit>)
    ensures DecimalValue(a + b) == DecimalValue(a) * Pow10(|b|) + DecimalValue(b)
    decreases |b|
  {
    if |b| > 0 {
      var b' := b[..|b| - 1];
      assert (a + b)[..|a + b| - 1] == a + b';
      DecimalValueAppendAll(a, b');
      assert (a + b)[|a + b| - 1] == b[|b| - 1];
      AppendArith(DecimalValue(a), DecimalValue(b'), Pow10(|b'|), b[|b| - 1]);
    } else {
      assert a + b == a;
    }
  }

  lemma AppendArith(x: int, y: int, p: int, d: int)
    ensures (x * p + y) * 10 + d == x * (10 * p) + (y * 10 + d)
  {
  }

  /** Leading zeros do not change the value. */
  lemma LeadingZero(ds: seq<Digit>)
    ensures DecimalValue([0] + ds) == DecimalValue(ds)
  {
    DecimalValueAppendAll([0], ds);
    assert [0][..0] == [];
  }

  /** The digits of a literal: every char must be '0'..'9' (asserted). */
  function Digits(s: seq<int>): (r: Option<seq<Digit>>)
    ensures r.Some? <==> forall i :: 0 <= i < |s| ==> '0' as int <= s[i] <= '9' as int
    ensures r.Some? ==> |r.value| == |s| && forall i :: 0 <= i < |s| ==> r.value[i] == s[i] - '0' as int
  {
    if |s| == 0 then Some([])
    else if !('0' as int <= s[0] <= '9' as int) then None
    else
      var rest :- Digits(s[1..]);
      Some([s[0] - '0' as int] + rest)
  }

  /** integerobject_newfromustr: the length (sign included) must be 1..24,
      at least one digit must follow a '-', and every other char must be a
      digit; the value is the signed decimal value, within ABSMAX. */
  function NewFromUstr(u: seq<int>): (r: Option<Int64>)
    ensures r.Some? ==> 1 <= |u| < 25
    ensures r.Some? <==>
      1 <= |u| < 25 && var negative := u[0] == '-' as int;
      var body := if negative then u[1..] else u;
      |body| >= 1 && Digits(body).Some? && DecimalValue(Digits(body).value) <= AbsMax(negative)
    ensures r.Some? ==> var negative := u[0] == '-' as int;
      r.value == SignedValue(negative, Digits(if negative then u[1..] else u).value)
  {
    if !(1 <= |u| < 25) then None
    else
      var negative := u[0] == '-' as int;
      var body := if negative then u[1..] else u;
      if |body| < 1 then None
      else
        var ds :- Digits(body);
        FromDigits(negative, ds)
  }

  /** integerobject_newfromcharptr on the chars of a C string: here it is
      the digit count after an optional '-' that must be 1..24, so a '-'
      and 24 digits pass where NewFromUstr rejects them. */
  function NewFromCharPtr(s: seq<int>): (r: Option<Int64>)
    ensures var negative := |s| > 0 && s[0] == '-' as int;
      var body := if negative then s[1..] else s;
      r.Some? <==> 1 <= |body| < 25 && Digits(body).Some? && DecimalValue(Digits(body).value) <= AbsMax(negative)
    ensures r.Some? ==> var negative := s[0] == '-' as int;
      r.value == SignedValue(negative, Digits(if negative then s[1..] else s).value)
  {
    var negative := |s| > 0 && s[0] == '-' as int;
    var body := if negative then s[1..] else s;
    if !(1 <= |body| < 25) then None
    else
      var ds :- Digits(body);
      FromDigits(negative, ds)
  }

  /** integerobject_newfromustr as the code stands: the same checks, then
      integer_from_digits as written, which can store a wrapped value from
      20 digits on (WrapCounterexample). */
  function NewFromUstrAsWritten(u: seq<int>): (r: Option<Int64>)
    ensures r.Some? ==> 1 <= |u| < 25 && Digits(if u[0] == '-' as int then u[1..] else u).Some?
  {
    if !(1 <= |u| < 25) then None
    else
      var negative := u[0] == '-' as int;
      var body := if negative then u[1..] else u;
      if |body| < 1 then None
      else
        var ds :- Digits(body);
        FromDigitsAsWritten(negative, ds)
  }

  /** Up to 19 digits the literal conversion as written is NewFromUstr. */
  lemma UstrAsWrittenAgrees(u: seq<int>)
    requires 1 <= |u| && |if u[0] == '-' as int then u[1..] else u| <= 19
    ensures NewFromUstrAsWritten(u) == NewFromUstr(u)
  {
    var body := if u[0] == '-' as int then u[1..] else u;
    if |u| < 25 && |body| >= 1 && Digits(body).Some? {
      AsWrittenAgreesUpTo19Digits(u[0] == '-' as int, Digits(body).value);
    }
  }

  /** The literal "10000000000000000000": the conversion as written stores
      10^19 - 2^64, where the corrected one rejects it. */
  lemma UstrWraps()
    ensures var u := ['1' as int] + seq(19, _ => '0' as int);
      NewFromUstrAsWritten(u) == Some(-8_446_744_073_709_551_616) && NewFromUstr(u) == None
  {
    var u := ['1' as int] + seq(19, _ => '0' as int);
    assert Digits(u).Some?;
    assert Digits(u).value == [1] + Zeros(19);
    WrapCounterexample();
  }

  /** "0" and "-0" both give 0, and a leading zero is ignored. */
  lemma ZeroLiterals()
    ensures NewFromCharPtr(['0' as int]) == Some(0)
    ensures NewFromCharPtr(['-' as int, '0' as int]) == Some(0)
    ensures NewFromCharPtr(['-' as int, '0' as int, '1' as int]) == Some(-1)
  {
    assert [0][..0] == [];
    assert ['0' as int][1..] == [];
    var z := Digits(['0' as int]);
    assert z.Some?;
    assert z.value == [0];
    assert DecimalValue([0]) == 0;
    assert ['-' as int, '0' as int][1..] == ['0' as int];
    assert ['-' as int, '0' as int, '1' as int][1..] == ['0' as int, '1' as int];
    assert Digits(['0' as int, '1' as int]).value == [0, 1];
    assert [0, 1][..1] == [0];
  }
}
