/** 32-bit multiplication with a 64-bit result, from 16-bit halves. */
module WideMultiplication {

  const HALF := 0x1_0000
  const WORD := 0x1_0000_0000

  predicate IsWord(w: int) {
    0 <= w < WORD
  }

  /** The two's complement number that a word stands for. */
  function Signed(w: int): (v: int)
    requires IsWord(w)
    ensures -0x8000_0000 <= v <= 0x7FFF_FFFF && (v - w) % WORD == 0
  {
    if w >= 0x8000_0000 then w - WORD else w
  }

  /** The two's complement number that two words stand for. */
  function Signed64(hi: int, lo: int): int
    requires IsWord(hi) && IsWord(lo)
  {
    Signed(hi) * WORD + lo
  }

  lemma ProductBound(a: int, b: int, m: int, n: int)
    requires 0 <= a <= m && 0 <= b <= n
    ensures 0 <= a * b <= m * n
  {
    assert a * b <= m * b;
    assert m * b <= m * n;
  }

  /** The schoolbook identity. */
  lemma Halves(a: int, b: int, a1: int, a2: int, b1: int, b2: int)
    requires a == a2 * HALF + a1 && b == b2 * HALF + b1
    ensures a * b == a2 * b2 * WORD + (a1 * b2 + a2 * b1) * HALF + a1 * b1
  {
    assert a * b == a2 * HALF * (b2 * HALF) + a2 * HALF * b1 + a1 * (b2 * HALF) + a1 * b1;
    assert a2 * HALF * (b2 * HALF) == a2 * b2 * WORD;
  }

  lemma Remainder(h: int, t: int)
    requires 0 <= t < WORD
    ensures (h * WORD + t) % WORD == t
  {
  }

  /** Shifting a word up by half a word keeps its low half. */
  lemma ShiftedWord(r: int)
    requires 0 <= r < WORD
    ensures r * HALF % WORD == r % HALF * HALF
  {
    var h, l := r / HALF, r % HALF;
    assert r == h * HALF + l;
    assert r * HALF == h * WORD + l * HALF;
    Remainder(h, l * HALF);
  }

  /** Adding the low half of `r`, shifted up, to `x`, and counting the carry. */
  method AddShifted(x: int, r: int) returns (y: int, carry: int)
    requires IsWord(x) && 0 <= r < WORD
    ensures IsWord(y) && carry in {0, 1} && x + r % HALF * HALF == carry * WORD + y
  {
    ShiftedWord(r);
    y := (x + r * HALF % WORD) % WORD;
    carry := if y < x then 1 else 0;
  }

  /** Adding up the four half products. */
  method AddProducts(r1: int, r2: int, r3: int, r4: int, ghost p: int) returns (hi: int, lo: int)
    requires IsWord(r1) && IsWord(r2) && IsWord(r3) && IsWord(r4)
    requires p == r4 * WORD + (r2 + r3) * HALF + r1 && p < WORD * WORD
    ensures IsWord(hi) && IsWord(lo) && hi * WORD + lo == p
  {
    var carry, x, y, c;
    x, carry := AddShifted(r1, r2);
    y, c := AddShifted(x, r3);
    carry := carry + c;
    lo := y;
    hi := (r4 + r2 / HALF + r3 / HALF + carry) % WORD;
    assert r2 == r2 / HALF * HALF + r2 % HALF && r3 == r3 / HALF * HALF + r3 % HALF;
    assert (r4 + r2 / HALF + r3 / HALF + carry) * WORD + lo == p;
  }

  method UMul(a: int, b: int) returns (hi: int, lo: int)
    requires IsWord(a) && IsWord(b)
    ensures IsWord(hi) && IsWord(lo) && hi * WORD + lo == a * b
  {
    var a1, a2 := a % HALF, a / HALF;
    var b1, b2 := b % HALF, b / HALF;
    ProductBound(a1, b1, HALF - 1, HALF - 1);
    ProductBound(a1, b2, HALF - 1, HALF - 1);
    ProductBound(a2, b1, HALF - 1, HALF - 1);
    ProductBound(a2, b2, HALF - 1, HALF - 1);
    ProductBound(a, b, WORD - 1, WORD - 1);
    Halves(a, b, a1, a2, b1, b2);
    hi, lo := AddProducts(a1 * b1, a1 * b2, a2 * b1, a2 * b2, a * b);
  }

  /** Two's complement of a 64-bit number. */
  method Neg64(hi: int, lo: int) returns (hi': int, lo': int)
    requires IsWord(hi) && IsWord(lo)
    ensures IsWord(hi') && IsWord(lo')
    ensures hi' * WORD + lo' == if hi == lo == 0 then 0 else WORD * WORD - (hi * WORD + lo)
  {
    lo' := (WORD - 1 - lo + 1) % WORD;
    var carry := if lo' == 0 then 1 else 0;
    hi' := (WORD - 1 - hi + carry) % WORD;
  }

  /** The word for the magnitude of a negative number. */
  function Magnitude(w: int): (m: int)
    requires IsWord(w) && Signed(w) < 0
    ensures m == -Signed(w) && 0 < m <= 0x8000_0000
  {
    (WORD - w) % WORD
  }

  lemma SignedOfNegation(hi: int, lo: int, hi': int, lo': int)
    requires IsWord(hi) && IsWord(lo) && IsWord(hi') && IsWord(lo') && hi * WORD + lo <= 0x8000_0000 * 0x7FFF_FFFF
    requires hi' * WORD + lo' == if hi == lo == 0 then 0 else WORD * WORD - (hi * WORD + lo)
    ensures Signed64(hi', lo') == -(hi * WORD + lo)
  {
  }

  lemma NegatedProducts(x: int, y: int)
    ensures -x * y == -(x * y) == x * -y && -x * -y == x * y
  {
  }

  method Mul(a: int, b: int) returns (hi: int, lo: int)
    requires IsWord(a) && IsWord(b)
    ensures IsWord(hi) && IsWord(lo) && Signed64(hi, lo) == Signed(a) * Signed(b)
  {
    if Signed(a) < 0 {
      if Signed(b) < 0 {
        ProductBound(Magnitude(a), Magnitude(b), 0x8000_0000, 0x8000_0000);
        NegatedProducts(Magnitude(a), Magnitude(b));
        hi, lo := UMul(Magnitude(a), Magnitude(b));
      } else {
        ProductBound(Magnitude(a), b, 0x8000_0000, 0x7FFF_FFFF);
        NegatedProducts(Magnitude(a), b);
        hi, lo := UMul(Magnitude(a), b);
        ghost var h, l := hi, lo;
        hi, lo := Neg64(hi, lo);
        SignedOfNegation(h, l, hi, lo);
      }
    } else if Signed(b) < 0 {
      ProductBound(a, Magnitude(b), 0x7FFF_FFFF, 0x8000_0000);
      NegatedProducts(a, Magnitude(b));
      hi, lo := UMul(a, Magnitude(b));
      ghost var h, l := hi, lo;
      hi, lo := Neg64(hi, lo);
      SignedOfNegation(h, l, hi, lo);
    } else {
      ProductBound(a, b, 0x7FFF_FFFF, 0x7FFF_FFFF);
      hi, lo := UMul(a, b);
    }
  }
}
