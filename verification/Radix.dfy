/** Base-256 digits and prefixes of fixed-width keys. */
module Radix {

  function Pow256(k: nat): (p: nat)
    ensures p > 0
  {
    if k == 0 then 1 else 256 * Pow256(k - 1)
  }

  lemma Pow256Values()
    ensures Pow256(1) == 256 && Pow256(2) == 0x1_0000 && Pow256(4) == 0x1_0000_0000
  {
    assert Pow256(3) == 0x100_0000;
  }

  lemma Rotated(a: nat, b: nat)
    ensures 256 * (a * b) == a * (256 * b)
  {}

  lemma {:induction false} Pow256Split(i: nat, j: nat)
    ensures Pow256(i + j) == Pow256(i) * Pow256(j)
  {
    if j > 0 {
      Pow256Split(i, j - 1);
      Rotated(Pow256(i), Pow256(j - 1));
    }
  }

  /** k / d, by repeated subtraction. */
  function Div(k: nat, d: nat): nat
    requires d > 0
  {
    if k < d then 0 else 1 + Div(k - d, d)
  }

  function Mod(k: nat, d: nat): nat
    requires d > 0
  {
    if k < d then k else Mod(k - d, d)
  }

  lemma {:induction false} DivMod(k: nat, d: nat) returns (q: nat, r: nat)
    requires d > 0
    ensures q == Div(k, d) && r == Mod(k, d) && k == d * q + r && r < d
  {
    if k < d {
      q, r := 0, k;
    } else {
      q, r := DivMod(k - d, d);
      q := q + 1;
    }
  }

  lemma {:induction false} MulMonotone(d: nat, x: nat, y: nat)
    requires x <= y
    ensures d * x <= d * y
    ensures x < y ==> d * x + d <= d * y
  {
    if x < y { MulMonotone(d, x, y - 1); }
  }

  lemma DivUnique(k: nat, d: nat, q: nat, r: nat)
    requires d > 0 && k == d * q + r && r < d
    ensures Div(k, d) == q && Mod(k, d) == r
  {
    var p, s := DivMod(k, d);
    if p < q { MulMonotone(d, p, q); }
    if q < p { MulMonotone(d, q, p); }
  }

  lemma Regroup(a: nat, b: nat, q: nat, r: nat)
    ensures a * (b * q + r) == (a * b) * q + a * r
  {}

  lemma RegroupBound(a: nat, b: nat, r: nat, s: nat)
    requires r < b && s < a
    ensures a * r + s < a * b
  {
    MulMonotone(a, r + 1, b);
  }

  lemma TwoDigits(k: nat, a: nat, b: nat, u: nat, s: nat, q: nat, r: nat)
    requires k == a * u + s && u == b * q + r && s < a && r < b
    ensures k == (a * b) * q + (a * r + s) && a * r + s < a * b
  {
    Regroup(a, b, q, r);
    RegroupBound(a, b, r, s);
  }

  lemma DivTwice(k: nat, a: nat, b: nat, c: nat)
    requires a > 0 && b > 0 && c > 0 && c == a * b
    ensures Div(k, c) == Div(Div(k, a), b)
  {
    var u, s := DivMod(k, a);
    var q, r := DivMod(u, b);
    TwoDigits(k, a, b, u, s, q, r);
    DivUnique(k, c, q, a * r + s);
  }

  lemma DivMonotone(k: nat, l: nat, d: nat)
    requires k <= l && d > 0
    ensures Div(k, d) <= Div(l, d)
  {
    var p, _ := DivMod(k, d);
    var q, _ := DivMod(l, d);
    if q < p { MulMonotone(d, q, p); }
  }

  lemma DivBound(k: nat, d: nat, n: nat)
    requires d > 0 && k < d * n
    ensures Div(k, d) < n
  {
    var q, _ := DivMod(k, d);
    if n <= q { MulMonotone(d, n, q); }
  }

  lemma DivByByte(k: nat)
    ensures Div(k, 256) == k / 256 && Mod(k, 256) == k % 256
  {
    DivUnique(k, 256, k / 256, k % 256);
  }

  /** The number made of the first i bytes of the d-byte key k, that is, k shifted right by d - i bytes. */
  function Prefix(k: nat, d: nat, i: nat): nat
    requires i <= d
  {
    Div(k, Pow256(d - i))
  }

  lemma PrefixAll(k: nat, d: nat)
    ensures Prefix(k, d, d) == k
  {
    DivUnique(k, 1, k, 0);
  }

  lemma PrefixNone(k: nat, d: nat)
    requires k < Pow256(d)
    ensures Prefix(k, d, 0) == 0
  {
    DivUnique(k, Pow256(d), 0, k);
  }

  lemma PrefixParent(k: nat, d: nat, i: nat)
    requires i < d
    ensures Prefix(k, d, i) == Prefix(k, d, i + 1) / 256
  {
    DivTwice(k, Pow256(d - i - 1), 256, Pow256(d - i));
    DivByByte(Prefix(k, d, i + 1));
  }

  lemma PrefixBound(k: nat, d: nat, i: nat)
    requires i <= d && k < Pow256(d)
    ensures Prefix(k, d, i) < Pow256(i)
  {
    Pow256Split(d - i, i);
    DivBound(k, Pow256(d - i), Pow256(i));
  }

  lemma PrefixMonotone(k: nat, l: nat, d: nat, i: nat)
    requires k <= l && i <= d
    ensures Prefix(k, d, i) <= Prefix(l, d, i)
  {
    DivMonotone(k, l, Pow256(d - i));
  }

  lemma Pow256Monotone(i: nat, j: nat)
    requires i <= j
    ensures Pow256(i) <= Pow256(j)
    decreases j - i
  {
    if i < j { Pow256Monotone(i + 1, j); }
  }

  /** Shifting an i-byte prefix left by a byte stays within a wider key, so the key type never truncates it. */
  lemma ShiftFits(p: nat, i: nat, d: nat)
    requires i < d && p < Pow256(i)
    ensures 256 * p + 255 < Pow256(i + 1) <= Pow256(d)
    ensures Mod(p * 256, Pow256(d)) == 256 * p
  {
    Pow256Monotone(i + 1, d);
    DivUnique(p * 256, Pow256(d), 0, p * 256);
  }

  /** The key as addItem shifts it: the bytes after the first i, moved to the top of the key. */
  function Rest(k: nat, d: nat, i: nat): nat
    requires i <= d
  {
    Mod(k, Pow256(d - i)) * Pow256(i)
  }

  lemma RestStart(k: nat, d: nat)
    requires k < Pow256(d)
    ensures Rest(k, d, 0) == k
  {
    DivUnique(k, Pow256(d), 0, k);
  }

  /** The digits of k around place n: k == (256 * q + t) * n + r. */
  lemma Digit(k: nat, n: nat) returns (q: nat, t: nat, r: nat)
    requires n > 0
    ensures q == Div(k, 256 * n) && 256 * q + t == Div(k, n) && r == Mod(k, n) && t < 256 && r < n
    ensures Mod(k, 256 * n) == n * t + r
  {
    var p, p' := DivMod(k, n);
    r := p';
    q, t := DivMod(p, 256);
    TwoDigits(k, n, 256, p, r, q, t);
    DivUnique(k, 256 * n, q, n * t + r);
  }

  lemma ScaleDigit(n: nat, t: nat, r: nat, m: nat)
    requires n > 0 && m > 0 && r < n
    ensures n * m > 0 && Div((n * t + r) * m, n * m) == t && Mod((n * t + r) * m, n * m) == r * m
  {
    MulMonotone(m, r + 1, n);
    assert m * (r + 1) == r * m + m && m * n == n * m;
    assert (n * t + r) * m == (n * m) * t + r * m;
    DivUnique((n * t + r) * m, n * m, t, r * m);
  }

  lemma RestDigit(k: nat, n: nat, m: nat)
    requires n > 0 && m > 0
    ensures Div(k, n) == 256 * Div(k, 256 * n) + Div(Mod(k, 256 * n) * m, n * m)
    ensures Div(Mod(k, 256 * n) * m, n * m) < 256
  {
    var q, t, r := Digit(k, n);
    ScaleDigit(n, t, r, m);
  }

  lemma RestShift(k: nat, n: nat, m: nat)
    requires n > 0 && m > 0
    ensures Mod(Mod(k, 256 * n) * m * 256, n * (256 * m)) == Mod(k, n) * (256 * m)
  {
    var q, t, r := Digit(k, n);
    ScaleDigit(n, t, r, 256 * m);
    Regroup(n * t + r, m, 256, 0);
  }

  /** The top byte of the shifted key is byte i of the key, and shifting it out by a byte drops just that byte. */
  lemma RestStep(k: nat, d: nat, i: nat)
    requires i < d
    ensures Prefix(k, d, i + 1) == 256 * Prefix(k, d, i) + Div(Rest(k, d, i), Pow256(d - 1))
    ensures Div(Rest(k, d, i), Pow256(d - 1)) < 256
    ensures Mod(Rest(k, d, i) * 256, Pow256(d)) == Rest(k, d, i + 1)
  {
    var n, m := Pow256(d - i - 1), Pow256(i);
    Pow256Split(d - i - 1, i);
    Pow256Split(d - i - 1, i + 1);
    RestDigit(k, n, m);
    RestShift(k, n, m);
  }
}
