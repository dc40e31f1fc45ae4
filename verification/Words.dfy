/** 32-bit unsigned words as naturals, with the bitwise operators the sources apply to them. */
module Words {

  function Pow2(i: nat): (p: nat)
    ensures p > 0
  {
    if i == 0 then 1 else 2 * Pow2(i - 1)
  }

  const WORD: nat := 0x1_0000_0000

  /** The value of bit i of w. */
  predicate Bit(w: nat, i: nat) {
    if i == 0 then w % 2 == 1 else Bit(w / 2, i - 1)
  }

  function Or(a: nat, b: nat): nat {
    if a == 0 && b == 0 then 0
    else (if a % 2 == 1 || b % 2 == 1 then 1 else 0) + 2 * Or(a / 2, b / 2)
  }

  function And(a: nat, b: nat): nat {
    if a == 0 && b == 0 then 0
    else (if a % 2 == 1 && b % 2 == 1 then 1 else 0) + 2 * And(a / 2, b / 2)
  }

  function Xor(a: nat, b: nat): nat {
    if a == 0 && b == 0 then 0
    else (if a % 2 != b % 2 then 1 else 0) + 2 * Xor(a / 2, b / 2)
  }

  /** Unary minus on uint32_t. */
  function Negate(w: nat): nat
    requires w < WORD
  {
    (WORD - w) % WORD
  }

  lemma {:induction false} BitOfOr(a: nat, b: nat, i: nat)
    ensures Bit(Or(a, b), i) <==> Bit(a, i) || Bit(b, i)
  {
    if a == 0 && b == 0 { ZeroHasNoBits(i); }
    else if i > 0 { BitOfOr(a / 2, b / 2, i - 1); }
  }

  lemma {:induction false} BitOfXor(a: nat, b: nat, i: nat)
    ensures Bit(Xor(a, b), i) <==> Bit(a, i) != Bit(b, i)
  {
    XorParts(a, b);
    if a == 0 && b == 0 {
      ZeroHasNoBits(i);
    } else if i > 0 {
      hide Xor;
      BitOfXor(a / 2, b / 2, i - 1);
    }
  }

  lemma XorParts(a: nat, b: nat)
    ensures Xor(a, b) / 2 == Xor(a / 2, b / 2) && (Xor(a, b) % 2 == 1 <==> a % 2 != b % 2)
  {}

  lemma {:induction false} OrBound(a: nat, b: nat, n: nat)
    requires a < Pow2(n) && b < Pow2(n)
    ensures Or(a, b) < Pow2(n)
  {
    if n > 0 { OrBound(a / 2, b / 2, n - 1); }
  }

  lemma {:induction false} XorBound(a: nat, b: nat, n: nat)
    requires a < Pow2(n) && b < Pow2(n)
    ensures Xor(a, b) < Pow2(n)
  {
    if n > 0 { XorBound(a / 2, b / 2, n - 1); }
  }

  lemma {:induction false} ZeroHasNoBits(i: nat)
    ensures !Bit(0, i)
  {
    if i > 0 { ZeroHasNoBits(i - 1); }
  }

  lemma {:induction false} BitOfPow2(k: nat, i: nat)
    ensures Bit(Pow2(k), i) <==> i == k
  {
    if i > 0 && k > 0 { BitOfPow2(k - 1, i - 1); }
    else if i > 0 { ZeroHasNoBits(i - 1); }
  }

  lemma {:induction false} Pow2Monotone(i: nat, j: nat)
    requires i < j
    ensures Pow2(i) < Pow2(j)
  {
    if i + 1 < j { Pow2Monotone(i, j - 1); }
  }

  lemma WordIsPow2()
    ensures Pow2(32) == WORD
  {
    assert Pow2(8) == 256;
    assert Pow2(16) == 256 * Pow2(8);
    assert Pow2(24) == 256 * Pow2(16);
    assert Pow2(32) == 256 * Pow2(24);
  }

  lemma {:induction false} AndComplement(u: nat, n: nat)
    requires u < Pow2(n)
    ensures And(u, Pow2(n) - 1 - u) == 0
  {
    if n > 0 { AndComplement(u / 2, n - 1); }
  }

  /** Masking w with its negation in n-bit arithmetic leaves exactly its least set bit. */
  lemma {:induction false} LowBit(w: nat, n: nat) returns (k: nat)
    requires 0 < w < Pow2(n)
    ensures k < n && And(w, Pow2(n) - w) == Pow2(k) && Bit(w, k)
    ensures forall i: nat | i < k :: !Bit(w, i)
  {
    if w % 2 == 1 {
      k := 0;
      AndComplement(w / 2, n - 1);
    } else {
      k := LowBit(w / 2, n - 1);
      k := k + 1;
    }
  }

  /** tmp&(-tmp) on uint32_t. */
  lemma IsolateLowBit(w: nat) returns (k: nat)
    requires 0 < w < WORD
    ensures k < 32 && And(w, Negate(w)) == Pow2(k) && Bit(w, k)
    ensures forall i: nat | i < k :: !Bit(w, i)
  {
    WordIsPow2();
    k := LowBit(w, 32);
  }

  /** num2pos_table: the index of the only bit of a byte-sized power of two, 255 (that is, -1) elsewhere. */
  function PositionTable(n: nat): nat
    requires n < 256
  {
    if n == 1 then 0 else if n == 2 then 1 else if n == 4 then 2 else if n == 8 then 3
    else if n == 16 then 4 else if n == 32 then 5 else if n == 64 then 6 else if n == 128 then 7
    else 255
  }

  lemma ShiftByte(k: nat)
    ensures Pow2(k) >= 256 <==> k >= 8
    ensures k >= 8 ==> Pow2(k) / 256 == Pow2(k - 8)
    ensures k < 8 ==> PositionTable(Pow2(k)) == k
  {
    assert Pow2(8) == 256;
    if k < 8 {
      Pow2Monotone(k, 8);
      assert Pow2(1) == 2 && Pow2(2) == 4 && Pow2(3) == 8 && Pow2(4) == 16 && Pow2(5) == 32 && Pow2(6) == 64
             && Pow2(7) == 128;
    } else {
      Pow2Split(k - 8, 8);
    }
  }

  /** Shifting left by a bit. */
  lemma BitOfDouble(x: nat, i: nat)
    ensures Bit(2 * x, i) <==> i > 0 && Bit(x, i - 1)
  {
    assert 2 * x / 2 == x && 2 * x % 2 == 0;
  }

  lemma {:induction false} BitOfShiftBy(x: nat, n: nat, i: nat)
    ensures Bit(Pow2(n) * x, i) <==> i >= n && Bit(x, i - n)
  {
    if n > 0 {
      var y := Pow2(n - 1) * x;
      DoubleProduct(Pow2(n - 1), x);
      BitOfDouble(y, i);
      if i > 0 { BitOfShiftBy(x, n - 1, i - 1); }
    }
  }

  lemma DoubleProduct(p: nat, x: nat)
    ensures 2 * p * x == 2 * (p * x)
  {}

  /** Half of what remains of a word when it is cut to n bits. */
  lemma HalfOfCut(x: nat, m: nat)
    requires m > 0
    ensures x % (2 * m) / 2 == x / 2 % m && x % (2 * m) % 2 == x % 2
  {
    var q, r := x / 2 / m, x / 2 % m;
    CutIs(x, m, q, 2 * r + x % 2);
  }

  lemma CutIs(x: nat, m: nat, q: nat, r: nat)
    requires m > 0 && x == 2 * (m * q) + r && r < 2 * m
    ensures x % (2 * m) == r
  {
    DoubleProduct(m, q);
    ModUnique(x, 2 * m, q, r);
  }

  lemma ModUnique(x: nat, m: nat, q: nat, r: nat)
    requires m > 0 && x == m * q + r && r < m
    ensures x % m == r
  {
    var d := x / m - q;
    assert m * d == r - x % m;
    Multiple(m, d);
  }

  lemma Multiple(m: nat, d: int)
    ensures d >= 1 ==> m * d >= m
    ensures d <= -1 ==> m * d <= 0 - m
  {}

  /** Cutting a word to n bits. */
  lemma {:induction false} BitOfCut(x: nat, n: nat, i: nat)
    ensures Bit(x % Pow2(n), i) <==> i < n && Bit(x, i)
  {
    if n == 0 {
      ZeroHasNoBits(i);
    } else {
      HalfOfCut(x, Pow2(n - 1));
      if i > 0 { BitOfCut(x / 2, n - 1, i - 1); }
    }
  }

  lemma {:induction false} Pow2Split(i: nat, j: nat)
    ensures Pow2(i + j) == Pow2(i) * Pow2(j)
  {
    if j > 0 { Pow2Split(i, j - 1); }
  }

  /** num2pos: the index of the only set bit of a power of two. */
  method Num2Pos(num: nat, ghost k: nat) returns (ret: nat)
    requires num == Pow2(k)
    ensures ret == k
  {
    var n := num;
    ret := 0;
    ShiftByte(k);
    while n >= 256
      invariant ret <= k && n == Pow2(k - ret)
      decreases k - ret
    {
      ShiftByte(k - ret);
      ret := ret + 8;
      n := n / 256;
    }
    ShiftByte(k - ret);
    ret := ret + PositionTable(n);
  }
}
