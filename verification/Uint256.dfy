/** 256-bit integers as 32 big-endian bytes (Uint256.cpp) and the byte-loop `mulDiv` over a 512-bit
    intermediate (Uint256Math.cpp), proved against exact arithmetic. */
module Uint256 {
  import opened Results
  import opened FixedPoint

  type byte = x: int | 0 <= x < 256

  const SIZE: nat := 32

  /** The number that big-endian bytes stand for. */
  function Value(bytes: seq<byte>): nat {
    if bytes == [] then 0 else Value(bytes[..|bytes| - 1]) * 256 + bytes[|bytes| - 1]
  }

  function Pow256(n: nat): (r: nat)
    ensures r > 0
  {
    if n == 0 then 1 else 256 * Pow256(n - 1)
  }

  lemma {:induction false} ValueBound(bytes: seq<byte>)
    ensures Value(bytes) < Pow256(|bytes|)
  {
    if bytes != [] {
      ValueBound(bytes[..|bytes| - 1]);
    }
  }

  /** Equally long byte strings stand for the same number only if they are the same. */
  lemma {:induction false} ValueInjective(a: seq<byte>, b: seq<byte>)
    requires |a| == |b| && Value(a) == Value(b)
    ensures a == b
  {
    if a != [] {
      var n := |a| - 1;
      assert Value(a) == Value(a[..n]) * 256 + a[n] && Value(b) == Value(b[..n]) * 256 + b[n];
      ValueInjective(a[..n], b[..n]);
      assert a == a[..n] + [a[n]] && b == b[..n] + [b[n]];
    }
  }

  /** Leading bytes weigh in at the length of what follows them. */
  lemma {:induction false} ValueConcat(a: seq<byte>, b: seq<byte>)
    ensures Value(a + b) == Value(a) * Pow256(|b|) + Value(b)
  {
    if b == [] {
      assert a + b == a;
    } else {
      var n := |b| - 1;
      assert (a + b)[..|a + b| - 1] == a + b[..n];
      ValueConcat(a, b[..n]);
      Regroup(Value(a), Pow256(n), Value(b[..n]));
    }
  }

  lemma Regroup(x: nat, p: nat, rest: nat)
    ensures (x * p + rest) * 256 == x * (256 * p) + rest * 256
  {
  }

  lemma WordSize()
    ensures Pow256(SIZE) == MAX_UINT256 + 1
  {
    assert Pow256(4) == 0x1_0000_0000;
    assert Pow256(8) == 256 * 256 * 256 * 256 * Pow256(4);
    assert Pow256(12) == 256 * 256 * 256 * 256 * Pow256(8);
    assert Pow256(16) == 256 * 256 * 256 * 256 * Pow256(12);
    assert Pow256(20) == 256 * 256 * 256 * 256 * Pow256(16);
    assert Pow256(24) == 256 * 256 * 256 * 256 * Pow256(20);
    assert Pow256(28) == 256 * 256 * 256 * 256 * Pow256(24);
    assert Pow256(32) == 256 * 256 * 256 * 256 * Pow256(28);
  }

  lemma {:induction false} PowMono(m: nat, n: nat)
    requires m <= n
    ensures Pow256(m) <= Pow256(n)
  {
    if m < n {
      PowMono(m, n - 1);
    }
  }

  /** Shifts the bytes into a checked 256-bit accumulator, whose overflow exception is unreachable. */
  method FromBytes(bytes: seq<byte>) returns (r: Result<nat>)
    requires |bytes| == SIZE
    ensures r == Success(Value(bytes)) && Value(bytes) <= MAX_UINT256
  {
    WordSize();
    var result: nat := 0;
    for i := 0 to |bytes|
      invariant result == Value(bytes[..i])
    {
      PrefixBound(bytes, i);
      result := Fit(result * 256).value;
      result := Fit(result + bytes[i]).value;
    }
    assert bytes[..SIZE] == bytes;
    ValueBound(bytes);
    return Success(result);
  }

  /** A word's prefix and its extension by one byte both fit in the word. */
  lemma PrefixBound(bytes: seq<byte>, i: nat)
    requires i < |bytes| == SIZE
    ensures Value(bytes[..i + 1]) == Value(bytes[..i]) * 256 + bytes[i] <= MAX_UINT256
  {
    assert bytes[..i + 1][..i] == bytes[..i];
    ValueBound(bytes[..i + 1]);
    PowMono(i + 1, SIZE);
    WordSize();
  }

  /** Fills the 32 bytes from the last to the first. */
  method ToBytes(value: nat) returns (r: seq<byte>)
    requires value <= MAX_UINT256
    ensures |r| == SIZE && Value(r) == value
  {
    WordSize();
    r := FillBytes(value, SIZE);
  }

  method FillBytes(value: nat, size: nat) returns (r: seq<byte>)
    requires value < Pow256(size)
    ensures |r| == size && Value(r) == value
  {
    var result := new byte[size];
    var remaining: nat := value;
    var i := size;
    while i > 0
      invariant 0 <= i <= size
      invariant value == remaining * Pow256(size - i) + Value(result[i..])
      invariant remaining < Pow256(i)
    {
      ghost var tail := result[i..];
      i := i - 1;
      result[i] := remaining % 256;
      ShiftByte(remaining, Pow256(size - i - 1), Pow256(i));
      assert result[i..] == [remaining % 256] + tail;
      ValueConcat([remaining % 256], tail);
      remaining := remaining / 256;
    }
    assert result[0..] == result[..];
    return result[..];
  }

  lemma ShiftByte(remaining: nat, weight: nat, bound: nat)
    requires remaining < 256 * bound
    ensures remaining / 256 < bound
    ensures remaining * weight == remaining / 256 * (256 * weight) + remaining % 256 * weight
  {
    var q, b := remaining / 256, remaining % 256;
    assert remaining == q * 256 + b;
    assert (q * 256 + b) * weight == q * (256 * weight) + b * weight;
  }

  /** Reading back what was written gives the same word, and the bytes written are the only ones that do. */
  method WriteAndRead(value: nat, bytes: seq<byte>) returns (written: seq<byte>, read: Result<nat>)
    requires value <= MAX_UINT256 && |bytes| == SIZE
    ensures read == Success(value)
    ensures written == bytes <==> Value(bytes) == value
  {
    written := ToBytes(value);
    read := FromBytes(written);
    if Value(bytes) == value {
      ValueInjective(written, bytes);
    }
  }

  // The 512-bit intermediate -----------------------------------------------------------------

  const WIDE_MODULUS: nat := (MAX_UINT256 + 1) * (MAX_UINT256 + 1)

  /** Arithmetic of the unchecked 512-bit type wraps. */
  function Wrap(x: nat): nat {
    x % WIDE_MODULUS
  }

  lemma WrapKeeps(x: nat)
    requires x < WIDE_MODULUS
    ensures Wrap(x) == x
  {
  }

  lemma WordsAreNarrow(x: nat)
    requires x <= MAX_UINT256
    ensures x < WIDE_MODULUS
  {
  }

  /** The wide accumulator wraps, but never does here. */
  method ToWide(value: nat) returns (r: nat)
    requires value <= MAX_UINT256
    ensures r == value
  {
    hide Wrap;
    var bytes := ToBytes(value);
    r := 0;
    for i := 0 to |bytes|
      invariant r == Value(bytes[..i])
    {
      PrefixBound(bytes, i);
      WordsAreNarrow(r * 256 + bytes[i]);
      WrapKeeps(r * 256);
      WrapKeeps(r * 256 + bytes[i]);
      r := Wrap(r * 256);
      r := Wrap(r + bytes[i]);
    }
    assert bytes[..SIZE] == bytes;
  }

  method FromWide(value: nat) returns (r: Result<nat>)
    requires value < WIDE_MODULUS
    ensures r == Fit(value)
  {
    var maximum := MAX_UINT256;
    if value > maximum {
      return Failure(Overflow);
    }
    var bytes := ToBytes(value);
    r := FromBytes(bytes);
  }

  lemma ProductFits(left: nat, right: nat)
    requires left <= MAX_UINT256 && right <= MAX_UINT256
    ensures left * right + 1 < WIDE_MODULUS
  {
    MulMono(left, MAX_UINT256, right);
    MulMono(right, MAX_UINT256, MAX_UINT256);
    assert left * right <= MAX_UINT256 * MAX_UINT256;
  }

  lemma QuotientFits(product: nat, divisor: nat)
    requires divisor > 0
    ensures product / divisor <= product
  {
    var q := product / divisor;
    assert product == divisor * q + product % divisor;
    MulMono(1, divisor, q);
  }

  /** The exact floor of the full product, or the exception for a zero denominator or a result beyond 256 bits. */
  method ComputeMulDivDown(left: nat, right: nat, denominator: nat) returns (r: Result<nat>)
    requires left <= MAX_UINT256 && right <= MAX_UINT256 && denominator <= MAX_UINT256
    ensures r == MulDivDown(left, right, denominator)
  {
    hide Wrap;
    if denominator == 0 {
      return Failure(DivisionByZero);
    }
    var x := ToWide(left);
    var y := ToWide(right);
    var d := ToWide(denominator);
    ProductFits(left, right);
    WrapKeeps(x * y);
    var product := Wrap(x * y);
    QuotientFits(product, d);
    r := FromWide(product / d);
  }

  /** The exact ceiling of the full product, or the same exceptions. */
  method ComputeMulDivUp(left: nat, right: nat, denominator: nat) returns (r: Result<nat>)
    requires left <= MAX_UINT256 && right <= MAX_UINT256 && denominator <= MAX_UINT256
    ensures r == MulDivUp(left, right, denominator)
  {
    hide Wrap;
    if denominator == 0 {
      return Failure(DivisionByZero);
    }
    var x := ToWide(left);
    var y := ToWide(right);
    ProductFits(left, right);
    WrapKeeps(x * y);
    var product := Wrap(x * y);
    var divisor := ToWide(denominator);
    var quotient := product / divisor;
    QuotientFits(product, divisor);
    var rounded := quotient + (if product % divisor == 0 then 0 else 1);
    WrapKeeps(rounded);
    r := FromWide(Wrap(rounded));
  }

  /** What the two methods compute, without division: the greatest number of denominators within the product,
      the least number covering it, and the exception exactly when that number needs more than 256 bits. */
  lemma MulDivMeaning(left: nat, right: nat, denominator: nat, q: nat)
    requires denominator > 0
    ensures MulDivDown(left, right, denominator) == Success(q) <==>
              q <= MAX_UINT256 && q * denominator <= left * right < (q + 1) * denominator
    ensures MulDivUp(left, right, denominator) == Success(q) <==>
              q <= MAX_UINT256 && left * right <= q * denominator < left * right + denominator
    ensures MulDivDown(left, right, denominator).Failure? <==> left * right >= (MAX_UINT256 + 1) * denominator
    ensures MulDivUp(left, right, denominator).Failure? <==> left * right > MAX_UINT256 * denominator
  {
    hide Floor, Ceil;
    var n, d := left * right, denominator;
    var f, c := Floor(left, right, d), Ceil(left, right, d);
    FloorBounds(left, right, d);
    CeilBounds(left, right, d);
    assert (q + 1) * d == q * d + d && (c - 1 + 1) * d == c * d && (c - 1) * d == c * d - d;
    if q * d <= n < (q + 1) * d {
      FloorGreatest(left, right, d, q);
      MulCancel(f, q, d);
    }
    if n <= q * d < n + d {
      CeilLeast(left, right, d, q);
      assert q * d < c * d + d == (c + 1) * d;
      MulCancel(q, c, d);
    }
    if n >= (MAX_UINT256 + 1) * d {
      FloorGreatest(left, right, d, MAX_UINT256 + 1);
    } else {
      MulCancel(f, MAX_UINT256, d);
    }
    if n <= MAX_UINT256 * d {
      CeilLeast(left, right, d, MAX_UINT256);
    } else if c <= MAX_UINT256 {
      MulMono(c, MAX_UINT256, d);
    }
  }
}
