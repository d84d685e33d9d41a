/** Bignums: sign and magnitude in the bytes of a bytevector, in either byte order. */
module Bignums {

  const BASE := 0x1_0000
  const WORD := 0x1_0000_0000
  const LENGTH_LIMIT := 0x100_0000
  const MAX_BIGNUM_BIGITS := 8000000
  const BIGNUM_POSITIVE := 0
  const BIGNUM_NEGATIVE := 1
  const FIXNUM_MAX := 0x1FFF_FFFF
  const FIXNUM_MIN := -0x2000_0000

  // ---- Numbers as digits.

  /** The number with digits `d` in base `base`, the least significant first. */
  function Denotes(base: nat, d: seq<nat>): nat {
    if d == [] then 0 else d[0] + base * Denotes(base, d[1..])
  }

  predicate DigitsBelow(base: nat, d: seq<nat>) {
    forall i | 0 <= i < |d| :: d[i] < base
  }

  lemma {:induction false} DenotesAppend(base: nat, d: seq<nat>, x: nat)
    ensures Denotes(base, d + [x]) == Denotes(base, d) + Power(base, |d|) * x
    decreases |d|
  {
    if d == [] {
      assert Denotes(base, [x]) == x + base * Denotes(base, []);
    } else {
      assert (d + [x])[1..] == d[1..] + [x];
      DenotesAppend(base, d[1..], x);
      var p, q := Power(base, |d| - 1), Denotes(base, d[1..]);
      assert base * (q + p * x) == base * q + base * p * x;
    }
  }

  function Power(base: nat, n: nat): nat {
    if n == 0 then 1 else base * Power(base, n - 1)
  }

  lemma {:induction false} DenotesZeros(base: nat, d: seq<nat>)
    requires forall i | 0 <= i < |d| :: d[i] == 0
    ensures Denotes(base, d) == 0
    decreases |d|
  {
    if d != [] {
      DenotesZeros(base, d[1..]);
    }
  }

  /** Without leading zeros, the digits of a number are unique. */
  lemma {:induction false} DigitsAreUnique(base: nat, d: seq<nat>, e: seq<nat>)
    requires 2 <= base && DigitsBelow(base, d) && DigitsBelow(base, e) && Denotes(base, d) == Denotes(base, e)
    requires (d != [] ==> d[|d| - 1] != 0) && (e != [] ==> e[|e| - 1] != 0)
    ensures d == e
    decreases |d|
  {
    if d == [] {
      if e != [] {
        DenotesPositive(base, e);
        assert false;
      }
    } else if e == [] {
      DenotesPositive(base, d);
      assert false;
    } else {
      var q, r := Denotes(base, d[1..]), Denotes(base, e[1..]);
      SameQuotient(base, d[0], q, e[0], r);
      DigitsAreUnique(base, d[1..], e[1..]);
      assert d == [d[0]] + d[1..] && e == [e[0]] + e[1..];
    }
  }

  lemma {:induction false} DenotesPositive(base: nat, d: seq<nat>)
    requires 2 <= base && d != [] && d[|d| - 1] != 0
    ensures Denotes(base, d) > 0
    decreases |d|
  {
    if |d| > 1 {
      DenotesPositive(base, d[1..]);
    }
  }

  lemma SmallerQuotient(base: nat, x: nat, q: nat, y: nat, r: nat)
    requires x < base
    ensures q < r ==> x + base * q < y + base * r
  {
    if q < r {
      assert base * (q + 1) <= base * r;
    }
  }

  lemma SameQuotient(base: nat, x: nat, q: nat, y: nat, r: nat)
    requires x < base && y < base && x + base * q == y + base * r
    ensures x == y && q == r
  {
    SmallerQuotient(base, x, q, y, r);
    SmallerQuotient(base, y, r, x, q);
  }

  // ---- Bytes.

  predicate Bytes(s: seq<int>) {
    forall i | 0 <= i < |s| :: 0 <= s[i] < 256
  }

  function UInt16(big: bool, s: seq<int>, i: nat): (v: int)
    requires Bytes(s) && 2 * i + 1 < |s|
    ensures 0 <= v < BASE
  {
    if big then s[2 * i] * 256 + s[2 * i + 1] else s[2 * i] + s[2 * i + 1] * 256
  }

  function UInt32(big: bool, s: seq<int>, i: nat): (v: int)
    requires Bytes(s) && 4 * i + 3 < |s|
    ensures 0 <= v < WORD
  {
    if big then ((s[4 * i] * 256 + s[4 * i + 1]) * 256 + s[4 * i + 2]) * 256 + s[4 * i + 3]
    else s[4 * i] + 256 * (s[4 * i + 1] + 256 * (s[4 * i + 2] + 256 * s[4 * i + 3]))
  }

  // ---- Fields of a bignum.

  predicate IsBignum(big: bool, s: seq<int>) {
    Bytes(s) && 4 <= |s| && |s| == 4 + 4 * Length(big, s)
  }

  /** The number of data words. */
  function Length(big: bool, s: seq<int>): nat
    requires Bytes(s) && 4 <= |s|
  {
    UInt32(big, s, 0) % LENGTH_LIMIT
  }

  function SignOffset(big: bool): nat {
    if big then 0 else 3
  }

  predicate IsPositive(big: bool, s: seq<int>)
    requires 4 <= |s|
  {
    s[SignOffset(big)] == BIGNUM_POSITIVE
  }

  /** Where digit `i` lies, counted in 16-bit units. */
  function DigitIndex(big: bool, i: nat): nat {
    if big then (if i % 2 == 0 then i + 3 else i + 1) else i + 2
  }

  function Digit(big: bool, s: seq<int>, i: nat): nat
    requires IsBignum(big, s) && i < 2 * Length(big, s)
  {
    UInt16(big, s, DigitIndex(big, i))
  }

  function Digits(big: bool, s: seq<int>): (d: seq<nat>)
    requires IsBignum(big, s)
    ensures |d| == 2 * Length(big, s)
  {
    seq(2 * Length(big, s), i requires 0 <= i < 2 * Length(big, s) => Digit(big, s, i))
  }

  function DataWords(big: bool, s: seq<int>): seq<nat>
    requires IsBignum(big, s)
  {
    seq(Length(big, s), i requires 0 <= i < Length(big, s) => UInt32(big, s, i + 1))
  }

  /** In both byte orders, two digits make up a word of the machine. */
  lemma DigitsOfWord(big: bool, s: seq<int>, k: nat)
    requires IsBignum(big, s) && k < Length(big, s)
    ensures UInt32(big, s, k + 1) == Digit(big, s, 2 * k) + BASE * Digit(big, s, 2 * k + 1)
  {
  }

  lemma {:induction false} PairsDenote(d: seq<nat>, w: seq<nat>)
    requires |d| == 2 * |w| && forall k | 0 <= k < |w| :: w[k] == d[2 * k] + BASE * d[2 * k + 1]
    ensures Denotes(BASE, d) == Denotes(WORD, w)
    decreases |w|
  {
    if w != [] {
      assert d[1..][1..] == d[2..];
      forall k | 0 <= k < |w| - 1 ensures w[1..][k] == d[2..][2 * k] + BASE * d[2..][2 * k + 1] {
        assert w[k + 1] == d[2 * (k + 1)] + BASE * d[2 * (k + 1) + 1];
      }
      PairsDenote(d[2..], w[1..]);
      var q := Denotes(BASE, d[2..]);
      assert Denotes(BASE, d) == d[0] + BASE * (d[1] + BASE * q);
    }
  }

  /** The magnitude is what the data words denote, in either byte order. */
  lemma DigitsDenoteWords(big: bool, s: seq<int>)
    requires IsBignum(big, s)
    ensures Denotes(BASE, Digits(big, s)) == Denotes(WORD, DataWords(big, s))
  {
    forall k | 0 <= k < Length(big, s)
      ensures DataWords(big, s)[k] == Digits(big, s)[2 * k] + BASE * Digits(big, s)[2 * k + 1]
    {
      DigitsOfWord(big, s, k);
    }
    PairsDenote(Digits(big, s), DataWords(big, s));
  }

  function Value(big: bool, s: seq<int>): int
    requires IsBignum(big, s)
  {
    WithSign(IsPositive(big, s), Denotes(BASE, Digits(big, s)))
  }

  function WithSign(positive: bool, magnitude: nat): int {
    var m: int := magnitude;
    if positive then m else -m
  }

  // ---- Storing.

  method SetUInt16(big: bool, b: array<int>, i: nat, v: int)
    requires Bytes(b[..]) && 2 * i + 1 < b.Length && 0 <= v < BASE
    modifies b
    ensures Bytes(b[..]) && UInt16(big, b[..], i) == v
    ensures forall k | 0 <= k < b.Length && k != 2 * i && k != 2 * i + 1 :: b[k] == old(b[k])
  {
    b[2 * i], b[2 * i + 1] := if big then v / 256 else v % 256, if big then v % 256 else v / 256;
  }

  method SetUInt32(big: bool, b: array<int>, i: nat, v: int)
    requires Bytes(b[..]) && 4 * i + 3 < b.Length && 0 <= v < WORD
    modifies b
    ensures Bytes(b[..]) && UInt32(big, b[..], i) == v
    ensures forall k | 0 <= k < b.Length && !(4 * i <= k < 4 * i + 4) :: b[k] == old(b[k])
  {
    var b0, b1, b2, b3 := v % 256, v / 256 % 256, v / 0x1_0000 % 256, v / 0x100_0000;
    assert v == b0 + 256 * (b1 + 256 * (b2 + 256 * b3));
    if big {
      b[4 * i], b[4 * i + 1], b[4 * i + 2], b[4 * i + 3] := b3, b2, b1, b0;
    } else {
      b[4 * i], b[4 * i + 1], b[4 * i + 2], b[4 * i + 3] := b0, b1, b2, b3;
    }
  }

  /** The length goes into the low 24 bits of the first word, behind the sign that is there. */
  method SetLengthInBigits(big: bool, b: array<int>, bigitc: nat)
    requires Bytes(b[..]) && 4 <= b.Length && (bigitc + 1) / 2 < LENGTH_LIMIT
    modifies b
    ensures Bytes(b[..]) && Length(big, b[..]) == (bigitc + 1) / 2
    ensures IsPositive(big, b[..]) == old(IsPositive(big, b[..]))
    ensures UInt32(big, b[..], 0) == (if IsPositive(big, b[..]) then 0 else 0x0100_0000) + (bigitc + 1) / 2
    ensures forall k | 4 <= k < b.Length :: b[k] == old(b[k])
  {
    var sign := if b[SignOffset(big)] == BIGNUM_POSITIVE then BIGNUM_POSITIVE else BIGNUM_NEGATIVE;
    SetUInt32(big, b, 0, sign * LENGTH_LIMIT + (bigitc + 1) / 2);
    SignByte(big, b[..], sign, (bigitc + 1) / 2);
  }

  /** The sign byte is the high byte of the first word. */
  lemma SignByte(big: bool, s: seq<int>, sign: int, length: nat)
    requires Bytes(s) && 4 <= |s| && UInt32(big, s, 0) == sign * LENGTH_LIMIT + length && length < LENGTH_LIMIT
    ensures s[SignOffset(big)] == sign && Length(big, s) == length
  {
  }

  /** Setting the sign leaves the length. */
  method SetSign(big: bool, b: array<int>, positive: bool)
    requires Bytes(b[..]) && 4 <= b.Length
    modifies b
    ensures Bytes(b[..]) && IsPositive(big, b[..]) == positive && Length(big, b[..]) == old(Length(big, b[..]))
    ensures UInt32(big, b[..], 0) == (if positive then 0 else 0x0100_0000) + Length(big, b[..])
    ensures forall k | 4 <= k < b.Length :: b[k] == old(b[k])
  {
    b[SignOffset(big)] := if positive then BIGNUM_POSITIVE else BIGNUM_NEGATIVE;
    SignIsHighByte(big, b[..]);
    SignDoesNotInterfere(big, old(b[..]), b[..]);
  }

  lemma SignIsHighByte(big: bool, s: seq<int>)
    requires Bytes(s) && 4 <= |s|
    ensures UInt32(big, s, 0) == 0x0100_0000 * s[SignOffset(big)] + Length(big, s)
  {
    var x := if big then (s[1] * 256 + s[2]) * 256 + s[3] else s[0] + 256 * (s[1] + 256 * s[2]);
    assert UInt32(big, s, 0) == x + LENGTH_LIMIT * s[SignOffset(big)];
  }

  lemma SignDoesNotInterfere(big: bool, s: seq<int>, t: seq<int>)
    requires Bytes(s) && Bytes(t) && |s| == |t| >= 4
    requires forall k | 0 <= k < 4 && k != SignOffset(big) :: t[k] == s[k]
    ensures Length(big, t) == Length(big, s)
  {
    SignIsHighByte(big, s);
    SignIsHighByte(big, t);
  }

  /** A bignum with room for `bigitc` digits, all of them 0. */
  method AllocBignum(big: bool, bigitc: nat) returns (b: array<int>)
    requires (bigitc + 1) / 2 < LENGTH_LIMIT
    ensures fresh(b) && IsBignum(big, b[..]) && Length(big, b[..]) == (bigitc + 1) / 2 && IsPositive(big, b[..])
    ensures b.Length == 4 + 4 * ((bigitc + 1) / 2) && forall k | 4 <= k < b.Length :: b[k] == 0
  {
    var length := (bigitc * 2 + 3) / 4 * 4;
    b := new int[length + 4](_ => 0);
    SetLengthInBigits(big, b, bigitc);
  }

  /** Store digit `i`; the other digits and the header stay. */
  method BignumSet(big: bool, b: array<int>, i: nat, v: int)
    requires IsBignum(big, b[..]) && i < 2 * Length(big, b[..]) && 0 <= v < BASE
    modifies b
    ensures IsBignum(big, b[..]) && Length(big, b[..]) == old(Length(big, b[..]))
            && IsPositive(big, b[..]) == old(IsPositive(big, b[..]))
    ensures Digits(big, b[..]) == old(Digits(big, b[..]))[i := v] && b[..4] == old(b[..4])
  {
    ghost var s := b[..];
    SetUInt16(big, b, DigitIndex(big, i), v);
    SameHeader(big, s, b[..]);
    forall j | 0 <= j < 2 * Length(big, s) && j != i ensures Digit(big, b[..], j) == Digit(big, s, j) {
      DigitsApart(big, i, j);
    }
    assert Digit(big, b[..], i) == v;
  }

  lemma SameHeader(big: bool, s: seq<int>, t: seq<int>)
    requires Bytes(s) && Bytes(t) && |s| == |t| >= 4 && forall k | 0 <= k < 4 :: t[k] == s[k]
    ensures Length(big, t) == Length(big, s) && IsPositive(big, t) == IsPositive(big, s)
  {
  }

  lemma DigitsApart(big: bool, i: nat, j: nat)
    requires i != j
    ensures DigitIndex(big, i) != DigitIndex(big, j) && DigitIndex(big, i) >= 2 && DigitIndex(big, j) >= 2
  {
  }

  // ---- Making numbers.

  /** Digits needed for `value`. */
  function DigitCount(value: nat): nat {
    if value == 0 then 0 else 1 + DigitCount(value / BASE)
  }

  lemma {:induction false} CountBounds(value: nat, n: nat)
    requires value < Power(BASE, n)
    ensures DigitCount(value) <= n
    decreases n
  {
    if value > 0 {
      assert value / BASE < Power(BASE, n - 1);
      CountBounds(value / BASE, n - 1);
    }
  }

  /** `done` digits of `value` have been stored, `left` is the rest. */
  ghost predicate Stored(d: seq<nat>, done: nat, value: nat, left: nat) {
    && done <= |d| && value == Denotes(BASE, d[..done]) + Power(BASE, done) * left
    && DigitCount(value) == done + DigitCount(left)
    && (forall i | done <= i < |d| :: d[i] == 0)
  }

  lemma StoreNext(d: seq<nat>, done: nat, value: nat, left: nat)
    requires Stored(d, done, value, left) && left > 0 && done < |d|
    ensures Stored(d[done := left % BASE], done + 1, value, left / BASE)
    ensures left / BASE == 0 ==> d[done := left % BASE][done] != 0
  {
    var d' := d[done := left % BASE];
    assert d'[..done + 1] == d[..done] + [left % BASE];
    DenotesAppend(BASE, d[..done], left % BASE);
    Distribute(Power(BASE, done), BASE, left / BASE, left % BASE);
    assert left == BASE * (left / BASE) + left % BASE;
  }

  lemma Distribute(p: nat, b: nat, q: nat, r: nat)
    ensures p * (b * q + r) == b * p * q + p * r
  {
  }

  lemma StoredAll(d: seq<nat>, done: nat, value: nat)
    requires Stored(d, done, value, 0)
    ensures Denotes(BASE, d) == value
  {
    assert d == d[..done] + d[done..];
    DenotesPadding(BASE, d[..done], d[done..]);
  }

  lemma {:induction false} DenotesPadding(base: nat, d: seq<nat>, zeros: seq<nat>)
    requires forall i | 0 <= i < |zeros| :: zeros[i] == 0
    ensures Denotes(base, d + zeros) == Denotes(base, d)
    decreases |d|
  {
    if d == [] {
      assert d + zeros == zeros;
      DenotesZeros(base, zeros);
    } else {
      assert (d + zeros)[1..] == d[1..] + zeros;
      DenotesPadding(base, d[1..], zeros);
    }
  }

  /** No leading zero words. */
  ghost predicate Normal(big: bool, s: seq<int>)
    requires IsBignum(big, s)
  {
    Length(big, s) > 0 ==> UInt32(big, s, Length(big, s)) != 0
  }

  /** The bignum for a 64-bit magnitude. */
  method MakeBignum(big: bool, magnitude: nat, positive: bool) returns (b: array<int>)
    requires magnitude < WORD * WORD
    ensures fresh(b) && IsBignum(big, b[..]) && IsPositive(big, b[..]) == positive && Normal(big, b[..])
    ensures Value(big, b[..]) == WithSign(positive, magnitude)
  {
    hide Bytes, IsBignum, Digits, Denotes, DigitCount;
    var bigitc := CountDigits(magnitude);
    b := AllocBignum(big, bigitc);
    SetSign(big, b, positive);
    StillBignum(big, b[..], bigitc);
    StoreDigits(big, b, bigitc, magnitude);
    TopWord(big, b[..], bigitc);
  }

  /** Store the digits of `magnitude`. */
  method StoreDigits(big: bool, b: array<int>, bigitc: nat, magnitude: nat)
    requires IsBignum(big, b[..]) && Length(big, b[..]) == (bigitc + 1) / 2 && bigitc == DigitCount(magnitude)
    requires forall i | 0 <= i < |Digits(big, b[..])| :: Digits(big, b[..])[i] == 0
    modifies b
    ensures IsBignum(big, b[..]) && Length(big, b[..]) == (bigitc + 1) / 2
    ensures IsPositive(big, b[..]) == old(IsPositive(big, b[..])) && Denotes(BASE, Digits(big, b[..])) == magnitude
    ensures bigitc > 0 ==> Digits(big, b[..])[bigitc - 1] != 0
  {
    hide Bytes, Digits, IsPositive, Length, Stored, Denotes, DigitCount, Power;
    var value: nat, i: nat := magnitude, 0;
    NoneStored(Digits(big, b[..]), magnitude);
    while i < bigitc
      invariant 0 <= i <= bigitc && IsBignum(big, b[..]) && Length(big, b[..]) == (bigitc + 1) / 2
      invariant IsPositive(big, b[..]) == old(IsPositive(big, b[..])) && Stored(Digits(big, b[..]), i, magnitude, value)
      invariant i > 0 && value == 0 ==> Digits(big, b[..])[i - 1] != 0
    {
      MoreToStore(Digits(big, b[..]), i, magnitude, value);
      StoreNext(Digits(big, b[..]), i, magnitude, value);
      BignumSet(big, b, i, value % BASE);
      value, i := value / BASE, i + 1;
    }
    NothingLeft(Digits(big, b[..]), i, magnitude, value);
    StoredAll(Digits(big, b[..]), i, magnitude);
  }

  lemma NoneStored(d: seq<nat>, value: nat)
    requires forall i | 0 <= i < |d| :: d[i] == 0
    ensures Stored(d, 0, value, value)
  {
    assert d[..0] == [];
  }

  lemma MoreToStore(d: seq<nat>, done: nat, value: nat, left: nat)
    requires Stored(d, done, value, left) && done < DigitCount(value)
    ensures left > 0
  {
  }

  lemma NothingLeft(d: seq<nat>, done: nat, value: nat, left: nat)
    requires Stored(d, done, value, left) && done == DigitCount(value)
    ensures left == 0
  {
  }

  /** A bignum without digits so far. */
  lemma StillBignum(big: bool, s: seq<int>, bigitc: nat)
    requires Bytes(s) && |s| == 4 + 4 * ((bigitc + 1) / 2) && Length(big, s) == (bigitc + 1) / 2
    requires forall k | 4 <= k < |s| :: s[k] == 0
    ensures IsBignum(big, s) && forall i | 0 <= i < |Digits(big, s)| :: Digits(big, s)[i] == 0
  {
    hide Length;
    forall i | 0 <= i < 2 * Length(big, s) ensures Digit(big, s, i) == 0 {
      var k := 2 * DigitIndex(big, i);
      assert s[k] == 0 && s[k + 1] == 0;
    }
  }

  /** The top word holds the top digit. */
  lemma TopWord(big: bool, s: seq<int>, bigitc: nat)
    requires IsBignum(big, s) && Length(big, s) == (bigitc + 1) / 2
    requires bigitc > 0 ==> Digits(big, s)[bigitc - 1] != 0
    ensures Normal(big, s)
  {
    if bigitc > 0 {
      DigitsOfWord(big, s, (bigitc - 1) / 2);
      assert Digits(big, s)[bigitc - 1] == Digit(big, s, bigitc - 1);
    }
  }

  method CountDigits(value: nat) returns (bigitc: nat)
    requires value < WORD * WORD
    ensures bigitc == DigitCount(value) <= 4
  {
    bigitc := 0;
    var v: nat := value;
    while v != 0
      invariant DigitCount(value) == bigitc + DigitCount(v)
    {
      bigitc := bigitc + 1;
      v := v / BASE;
    }
    assert Power(BASE, 4) == WORD * WORD;
    CountBounds(value, 4);
  }

  /** The bignum for digits given as 16-bit two's complement numbers, if there are not too many. */
  method MakeBignumFromShorts(big: bool, bigits: seq<int>, positive: bool) returns (ok: bool, b: array<int>)
    requires forall i | 0 <= i < |bigits| :: -0x8000 <= bigits[i] < 0x8000
    ensures ok == (|bigits| <= MAX_BIGNUM_BIGITS)
    ensures ok ==> fresh(b) && IsBignum(big, b[..])
    ensures ok ==> Value(big, b[..]) == WithSign(positive, Denotes(BASE, Unsigned(bigits)))
    ensures ok ==>
              (Normal(big, b[..]) <==>
               |bigits| == 0 || bigits[|bigits| - 1] != 0 || (|bigits| % 2 == 0 && bigits[|bigits| - 2] != 0))
  {
    hide Bytes, Digits, Denotes, IsPositive, Unsigned, Normal;
    b := new int[0];
    ok := |bigits| <= MAX_BIGNUM_BIGITS;
    if ok {
      var bigitc := |bigits|;
      b := AllocBignum(big, bigitc);
      SetSign(big, b, positive);
      StillBignum(big, b[..], bigitc);
      StoreShorts(big, b, bigits);
      Padded(Digits(big, b[..]), Unsigned(bigits));
      TopWordExactly(big, b[..], bigits);
    }
  }

  /** The digits 1, 0, 0, 0 give a bignum for 1 whose top word is 0. */
  method LeadingZeroWord(big: bool) returns (b: array<int>)
    ensures fresh(b) && IsBignum(big, b[..]) && Value(big, b[..]) == 1 && !Normal(big, b[..])
  {
    var ok;
    hide Normal, IsBignum, Value;
    ok, b := MakeBignumFromShorts(big, [1, 0, 0, 0], true);
    OneDenotes();
  }

  lemma OneDenotes()
    ensures Denotes(BASE, Unsigned([1, 0, 0, 0])) == 1
  {
    var u := Unsigned([1, 0, 0, 0]);
    assert u == [1] + [0, 0, 0];
    DenotesPadding(BASE, [1], [0, 0, 0]);
    assert Denotes(BASE, [1]) == 1;
  }

  method StoreShorts(big: bool, b: array<int>, bigits: seq<int>)
    requires forall i | 0 <= i < |bigits| :: -0x8000 <= bigits[i] < 0x8000
    requires IsBignum(big, b[..]) && Length(big, b[..]) == (|bigits| + 1) / 2
    requires forall k | 0 <= k < |Digits(big, b[..])| :: Digits(big, b[..])[k] == 0
    modifies b
    ensures IsBignum(big, b[..]) && Length(big, b[..]) == (|bigits| + 1) / 2
            && IsPositive(big, b[..]) == old(IsPositive(big, b[..]))
    ensures forall k | 0 <= k < |Digits(big, b[..])| :: Digits(big, b[..])[k] == if k < |bigits| then
            Unsigned(bigits)[k] else 0
  {
    hide Bytes, Digits, IsPositive, Length;
    for i := 0 to |bigits|
      invariant IsBignum(big, b[..]) && Length(big, b[..]) == (|bigits| + 1) / 2
      invariant IsPositive(big, b[..]) == old(IsPositive(big, b[..]))
      invariant forall k | 0 <= k < |Digits(big, b[..])| :: Digits(big, b[..])[k] == if k < i then
                Unsigned(bigits)[k] else 0
    {
      var bigit := bigits[i];
      BignumSet(big, b, i, if bigit < 0 then 65535 - (-(bigit + 1)) else bigit);
    }
  }

  lemma Padded(d: seq<nat>, u: seq<nat>)
    requires |u| <= |d| && forall k | 0 <= k < |d| :: d[k] == if k < |u| then u[k] else 0
    ensures Denotes(BASE, d) == Denotes(BASE, u)
  {
    var zeros: seq<nat> := seq(|d| - |u|, _ => 0);
    assert d == u + zeros;
    DenotesPadding(BASE, u, zeros);
  }

  /** The top word is not zero exactly if one of its digits is not. */
  lemma TopWordExactly(big: bool, s: seq<int>, bigits: seq<int>)
    requires forall i | 0 <= i < |bigits| :: -0x8000 <= bigits[i] < 0x8000
    requires IsBignum(big, s) && Length(big, s) == (|bigits| + 1) / 2
    requires forall k | 0 <= k < |Digits(big, s)| :: Digits(big, s)[k] == if k < |bigits| then Unsigned(bigits)[k]
             else 0
    ensures Normal(big, s) <==>
            |bigits| == 0 || bigits[|bigits| - 1] != 0 || (|bigits| % 2 == 0 && bigits[|bigits| - 2] != 0)
  {
    hide Bytes, Unsigned, UInt16, UInt32, DigitIndex;
    if |bigits| > 0 {
      var k := (|bigits| - 1) / 2;
      DigitsOfWord(big, s, k);
      assert Digits(big, s)[2 * k] == Digit(big, s, 2 * k) && Digits(big, s)[2 * k + 1] == Digit(big, s, 2 * k + 1);
      UnsignedZero(bigits);
    }
  }

  lemma UnsignedZero(bigits: seq<int>)
    requires forall i | 0 <= i < |bigits| :: -0x8000 <= bigits[i] < 0x8000
    ensures forall i | 0 <= i < |bigits| :: Unsigned(bigits)[i] == 0 <==> bigits[i] == 0
  {
  }

  /** The digits that 16-bit two's complement numbers stand for. */
  function Unsigned(bigits: seq<int>): (d: seq<nat>)
    requires forall i | 0 <= i < |bigits| :: -0x8000 <= bigits[i] < 0x8000
    ensures |d| == |bigits| && forall i | 0 <= i < |d| :: d[i] < BASE && (d[i] - bigits[i]) % BASE == 0
  {
    seq(|bigits|, i requires 0 <= i < |bigits| => if bigits[i] < 0 then BASE + bigits[i] else bigits[i])
  }

  /** A number as an object: a fixnum, or the bytes of a bignum. */
  datatype SObject = Fixnum(value: int) | Bignum(bytes: seq<int>)

  /** A signed 32-bit word can hold `x`. */
  predicate InWord(x: int) {
    -0x8000_0000 <= x < 0x8000_0000
  }

  /** `o` is the one object for the number `x`: a fixnum if `x` fits a word whose last two bits are the
      tag, and otherwise a bignum without leading zeros. */
  ghost predicate Represents(big: bool, o: SObject, x: int) {
    match o
    case Fixnum(value) => value == x && InWord(4 * x)
    case Bignum(s) => IsBignum(big, s) && Value(big, s) == x && Normal(big, s) && !InWord(4 * x)
  }

  /** From a C# int: the magnitude is computed in 64 bits. */
  method MakeNumberInt(big: bool, num: int) returns (o: SObject)
    requires -0x8000_0000 <= num <= 0x7FFF_FFFF
    ensures Represents(big, o, num)
  {
    if FIXNUM_MIN <= num <= FIXNUM_MAX {
      o := Fixnum(num);
    } else {
      var b;
      if num < 0 {
        b := MakeBignum(big, -num, false);
      } else {
        b := MakeBignum(big, num, true);
      }
      o := Bignum(b[..]);
    }
  }

  /** From a C# uint or ulong. */
  method MakeNumberUnsigned(big: bool, num: nat) returns (o: SObject)
    requires num < WORD * WORD
    ensures Represents(big, o, num)
  {
    if num <= FIXNUM_MAX {
      o := Fixnum(num);
    } else {
      var b := MakeBignum(big, num, true);
      o := Bignum(b[..]);
    }
  }

  /** From a C# long: one is added before negation and again after it, so that no step leaves the
      range of its type. */
  method MakeNumberLong(big: bool, num: int) returns (o: SObject)
    requires -0x8000_0000_0000_0000 <= num <= 0x7FFF_FFFF_FFFF_FFFF
    ensures Represents(big, o, num)
  {
    if FIXNUM_MIN <= num <= FIXNUM_MAX {
      o := Fixnum(num);
    } else {
      var b;
      if num < 0 {
        var negated := -(num + 1);
        assert 0 <= negated <= 0x7FFF_FFFF_FFFF_FFFF;
        b := MakeBignum(big, negated + 1, false);
      } else {
        b := MakeBignum(big, num, true);
      }
      o := Bignum(b[..]);
    }
  }

  /** In either byte order there is at most one length, sign and list of words for a number. */
  lemma RepresentationIsUnique(big: bool, s: seq<int>, big': bool, t: seq<int>)
    requires IsBignum(big, s) && IsBignum(big', t) && Normal(big, s) && Normal(big', t)
    requires Value(big, s) == Value(big', t) != 0
    ensures DataWords(big, s) == DataWords(big', t) && IsPositive(big, s) == IsPositive(big', t)
  {
    DigitsDenoteWords(big, s);
    DigitsDenoteWords(big', t);
    DigitsAreUnique(WORD, DataWords(big, s), DataWords(big', t));
  }
}
