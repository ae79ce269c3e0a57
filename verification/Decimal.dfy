/** Decimal int64 text: the parser of src/ngx_auth_webauthn_credential.c and
    the printf conversions it must undo. */
module Decimal {
  import opened Prelude

  predicate IsDigit(c: char) { '0' <= c <= '9' }

  function DigitValue(c: char): nat
    requires IsDigit(c)
  {
    c as int - '0' as int
  }

  predicate AllDigits(s: string) {
    forall i :: 0 <= i < |s| ==> IsDigit(s[i])
  }

  /** The number a digit string denotes, most significant digit first. */
  function Value(s: string): nat
    requires AllDigits(s)
  {
    if s == [] then 0 else Value(s[..|s| - 1]) * 10 + DigitValue(s[|s| - 1])
  }

  /** An optional minus sign and one or more digits. */
  predicate IsDecimal(s: string) {
    s != [] && if s[0] == '-' then |s| > 1 && AllDigits(s[1..]) else AllDigits(s)
  }

  function DecimalValue(s: string): int
    requires IsDecimal(s)
  {
    var v: int := if s[0] == '-' then Value(s[1..]) else Value(s);
    if s[0] == '-' then -v else v
  }

  /** What Atoi64 accepts and returns. */
  function ParseInt64(s: string): Option<int> {
    if IsDecimal(s) && INT64_MIN <= DecimalValue(s) <= INT64_MAX
    then Some(DecimalValue(s))
    else None
  }

  lemma {:induction false} ValueGrows(s: string, k: nat)
    requires AllDigits(s) && k <= |s|
    ensures Value(s[..k]) <= Value(s)
    decreases |s|
  {
    if k < |s| {
      var init := s[..|s| - 1];
      assert init[..k] == s[..k];
      ValueGrows(init, k);
    } else {
      assert s[..k] == s;
    }
  }

  lemma EmptyValue()
    ensures Value([]) == 0
  {
  }

  lemma ValueSnoc(s: string, k: nat)
    requires k < |s| && AllDigits(s[..k]) && IsDigit(s[k])
    ensures AllDigits(s[..k + 1]) && Value(s[..k + 1]) == Value(s[..k]) * 10 + DigitValue(s[k])
  {
    assert s[..k + 1][..k] == s[..k];
  }

  /** The accumulator loop. `uint64` makes the absence of overflow and of
      underflow in `limit - digit` a proof obligation. Negating magnitude 2^63
      wraps, as the two's-complement machine does. */
  method Atoi64(s: string) returns (r: Option<int>)
    ensures r == ParseInt64(s)
  {
    hide Value, AsInt64;
    if |s| == 0 {
      return None;
    }
    var i := 0;
    var neg := false;
    if s[0] == '-' {
      neg := true;
      i := 1;
      if |s| == 1 {
        return None;
      }
    }
    ghost var digits := s[i..];
    ghost var start := i;
    assert Value([]) == 0 by { EmptyValue(); }
    assert digits[..0] == [];
    var limit: uint64 := if neg then 0x8000_0000_0000_0000 else 0x7fff_ffff_ffff_ffff;
    var acc: uint64 := 0;
    while i < |s|
      invariant start <= i <= |s|
      invariant AllDigits(digits[..i - start])
      invariant Value(digits[..i - start]) == acc as int
      invariant acc <= limit
    {
      var c := s[i];
      assert c == digits[i - start];
      if c < '0' || c > '9' {
        return None;
      }
      var d := (c as int - '0' as int) as uint64;
      ghost var upTo := digits[..i - start + 1];
      ValueSnoc(digits, i - start);
      if acc > (limit - d) / 10 {
        if AllDigits(digits) {
          ValueGrows(digits, |upTo|);
        }
        return None;
      }
      acc := acc * 10 + d;
      i := i + 1;
    }
    assert digits[..i - start] == digits;
    Magnitude(acc as int);
    var a := AsInt64(acc as int);
    r := Some(if neg then AsInt64(-a) else a);
  }

  lemma Magnitude(n: int)
    requires 0 <= n <= INT64_MAX + 1
    ensures AsInt64(-AsInt64(n)) == -n
  {
  }

  /** The digits printf writes for a non-negative number. */
  function Digits(n: nat): (s: string)
    ensures s != [] && AllDigits(s)
    ensures |s| > 1 ==> s[0] != '0'
  {
    if n < 10 then [('0' as int + n) as char]
    else Digits(n / 10) + [('0' as int + n % 10) as char]
  }

  /** `%d`, `%lu`, `%lld`, `%T`. */
  function Print(v: int): string {
    if v < 0 then "-" + Digits(-v) else Digits(v)
  }

  lemma {:induction false} ValueOfDigits(n: nat)
    ensures Value(Digits(n)) == n
  {
    if n >= 10 {
      ValueOfDigits(n / 10);
      assert Digits(n)[..|Digits(n)| - 1] == Digits(n / 10);
    }
  }

  /** Parsing inverts printing on every int64. */
  lemma ParsePrint(v: int)
    requires INT64_MIN <= v <= INT64_MAX
    ensures ParseInt64(Print(v)) == Some(v)
  {
    hide Value, Digits;
    var n := if v < 0 then -v else v;
    ValueOfDigits(n);
    if v < 0 {
      assert Print(v)[1..] == Digits(n);
    }
  }

  function Pow10(k: nat): nat {
    if k == 0 then 1 else 10 * Pow10(k - 1)
  }

  lemma {:induction false} DigitsLength(n: nat, k: nat)
    requires k > 0 && n < Pow10(k)
    ensures |Digits(n)| <= k
  {
    if n >= 10 {
      assert k > 1 by { assert Pow10(1) == 10; }
      DigitsLength(n / 10, k - 1);
    }
  }

  /** Every int64 prints in at most 20 chars, so it fits the 24-byte buffers of
      the credential code and what the response sizes set aside. */
  lemma PrintLength(v: int)
    requires INT64_MIN <= v <= INT64_MAX
    ensures |Print(v)| <= 20
  {
    var n := if v < 0 then -v else v;
    assert Pow10(4) == 10000;
    assert Pow10(8) == 1_0000_0000 by { assert Pow10(6) == 100_0000; }
    assert Pow10(19) == 1000_0000_0000_0000_0000 by {
      assert Pow10(10) == 100_0000_0000;
      assert Pow10(12) == 1_0000_0000_0000;
      assert Pow10(14) == 100_0000_0000_0000;
      assert Pow10(16) == 1_0000_0000_0000_0000;
      assert Pow10(18) == 100_0000_0000_0000_0000;
    }
    DigitsLength(n, 19);
  }

  /** By example, the digits have their everyday meaning. */
  lemma DecimalExamples()
    ensures ParseInt64("-128") == Some(-128)
    ensures Print(1024) == "1024"
  {
    var s := "-128";
    assert s[1..] == "128";
    ThreeDigits("128");
    assert Digits(1) == "1" && Digits(10) == "10" && Digits(102) == "102";
  }

  lemma ThreeDigits(d: string)
    requires |d| == 3 && AllDigits(d)
    ensures Value(d) == DigitValue(d[0]) * 100 + DigitValue(d[1]) * 10 + DigitValue(d[2])
  {
    hide Value;
    EmptyValue();
    assert d[..0] == [] && d[..3] == d;
    ValueSnoc(d, 0);
    ValueSnoc(d, 1);
    ValueSnoc(d, 2);
  }
}
