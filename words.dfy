/** Fixed-width machine integers of the C implementation, and the decimal
    rendering that `%lu` gives them. */
module Words {

  /** 2^64, the modulus of `uint64_t` arithmetic. */
  const U64: int := 0x1_0000_0000_0000_0000

  newtype u64 = x: int | 0 <= x < 0x1_0000_0000_0000_0000
  newtype i64 = x: int | -0x8000_0000_0000_0000 <= x < 0x8000_0000_0000_0000

  /** C's conversion of an integer value to `uint64_t`: reduction modulo 2^64. */
  function Wrap(x: int): (r: u64)
    ensures 0 <= x < U64 ==> r as int == x
    ensures exists k: int {:trigger k * U64} :: x == r as int + k * U64
  {
    var r := x % U64;
    assert x == r + (x / U64) * U64;
    r as u64
  }

  /** Reducing an operand first does not change the wrapped result. */
  lemma WrapAdd(a: int, b: int)
    ensures Wrap(Wrap(a) as int + b) == Wrap(a + b)
  {
    var q := a / U64;
    assert a == Wrap(a) as int + q * U64;
    ModShift(Wrap(a) as int + b, q);
  }

  /** `uint64_t` addition of two `uint64_t` values: the exact sum, less 2^64
      when it does not fit. */
  function Add64(a: u64, b: u64): u64
  {
    var t := a as int + b as int;
    (if t < U64 then t else t - U64) as u64
  }

  /** C's conversion of an `int64_t` to `uint64_t`: a negative value `v`
      becomes `2^64 + v`. */
  function ToU64(v: i64): u64
  {
    if v < 0 then (v as int + U64) as u64 else v as u64
  }

  /** `Add64` is addition modulo 2^64. */
  lemma Add64IsWrap(a: u64, b: u64)
    ensures Add64(a, b) == Wrap(a as int + b as int)
  {
    if a as int + b as int >= U64 {
      ModShift(a as int + b as int - U64, 1);
    }
  }

  /** `ToU64` is reduction modulo 2^64. */
  lemma ToU64IsWrap(v: i64)
    ensures ToU64(v) == Wrap(v as int)
  {
    if v < 0 {
      ModShift(v as int, 1);
    }
  }

  lemma ModShift(x: int, q: int)
    ensures (x + q * U64) % U64 == x % U64
  {
    var r := x % U64;
    var d := x / U64;
    assert x == d * U64 + r;
    assert x + q * U64 == (d + q) * U64 + r;
    assert 0 <= r < U64;
  }

  function Pow2(n: nat): (r: nat)
    ensures r >= 1
  {
    if n == 0 then 1 else 2 * Pow2(n - 1)
  }

  lemma {:induction false} Pow2Monotone(m: nat, n: nat)
    requires m <= n
    ensures Pow2(m) <= Pow2(n)
  {
    if m < n {
      Pow2Monotone(m, n - 1);
    }
  }

  lemma Pow2Is16()
    ensures Pow2(16) == 0x1_0000
  {
    assert Pow2(8) == 0x100;
    Pow2Add(8, 8);
  }

  lemma {:induction false} Pow2Is64()
    ensures Pow2(64) == U64
  {
    assert Pow2(32) == 0x1_0000_0000 by {
      Pow2Is16();
      Pow2Add(16, 16);
    }
    Pow2Add(32, 32);
  }

  lemma Pow2Below64(n: nat)
    requires n < 64
    ensures Pow2(n) < U64
  {
    Pow2Is64();
    Pow2Monotone(n, 63);
  }

  lemma {:induction false} Pow2Add(m: nat, n: nat)
    ensures Pow2(m + n) == Pow2(m) * Pow2(n)
  {
    if n > 0 {
      Pow2Add(m, n - 1);
    }
  }

  /** The character of a decimal digit. */
  function DigitChar(d: nat): (c: char)
    requires d < 10
    ensures '0' <= c <= '9' && c as int - '0' as int == d
  {
    (d + '0' as int) as char
  }

  /** `%lu`: the shortest decimal numeral of `n`, most significant digit first. */
  function Decimal(n: nat): (s: string)
    decreases n
  {
    if n < 10 then [DigitChar(n)] else Decimal(n / 10) + [DigitChar(n % 10)]
  }

  /** Reads a decimal numeral back; the inverse that pins `Decimal` down. */
  function ParseDecimal(s: string): nat
  {
    if s == [] then 0
    else
      var d := s[|s| - 1] as int - '0' as int;
      ParseDecimal(s[..|s| - 1]) * 10 + (if 0 <= d < 10 then d else 0)
  }

  predicate IsDigits(s: string)
  {
    forall k :: 0 <= k < |s| ==> '0' <= s[k] <= '9'
  }

  /** `Decimal` is a numeral of `n`: non-empty, digits only, no leading zero,
      and it reads back as `n`. */
  lemma {:induction false} DecimalRoundTrip(n: nat)
    ensures |Decimal(n)| >= 1 && IsDigits(Decimal(n))
    ensures Decimal(n)[0] == '0' <==> n == 0
    ensures ParseDecimal(Decimal(n)) == n
  {
    if n >= 10 {
      DecimalRoundTrip(n / 10);
      var s := Decimal(n / 10) + [DigitChar(n % 10)];
      assert s[..|s| - 1] == Decimal(n / 10);
      assert s[0] == Decimal(n / 10)[0];
    }
  }
}
