/** From an address pattern of a filter to a range of addresses. */
module IpPatterns {
  import opened Radix
  import opened Words

  /** A number as atoi reads it. */
  type int31 = n: nat | n < 0x8000_0000

  /** One part of a pattern: an asterisk or a number. */
  datatype Octet = Any | Number(n: int31)

  /** Four parts, the most significant first. */
  type Pattern = p: seq<Octet> | |p| == 4 witness [Any, Any, Any, Any]

  /** Byte i of an address, the most significant first. */
  function ByteOf(ip: nat, i: nat): nat {
    if i == 0 then ip / 0x100_0000 else if i == 1 then ip / 0x1_0000 % 256 else if i == 2 then ip / 256 % 256
        else ip % 256
  }

  ghost predicate Fits(ip: nat, p: Pattern) {
    forall i :: 0 <= i < 4 && p[i].Number? ==> ByteOf(ip, i) == p[i].n
  }

  /** What the loop of the filter computes from the first k parts; an asterisk stands for the given byte. */
  function Assemble(p: seq<Octet>, star: nat): nat {
    if p == [] then 0
    else
      var rest, last := Assemble(p[..|p| - 1], star), p[|p| - 1];
      Or(rest * 256 % WORD, if last.Any? then star else last.n)
  }

  /** The number for a part. */
  function PartOf(o: Octet, star: nat): nat {
    if o.Any? then star else o.n
  }

  /** A shift by a byte in 32 bits. */
  lemma BitOfByteShift(x: nat, i: nat)
    ensures Bit(x * 256 % WORD, i) <==> 8 <= i < 32 && Bit(x, i - 8)
  {
    hide Bit;
    assert Pow2(8) == 256 && Pow2(16) == 0x1_0000 && Pow2(24) == 0x100_0000 && Pow2(32) == WORD;
    BitOfShiftBy(x, 8, i);
    BitOfCut(256 * x, 32, i);
  }

  /** A bound of the range by bits, for any numbers: every part is shifted by a byte for each part behind it, and what
      leaves 32 bits is dropped. */
  lemma AssembleBits(p: Pattern, star: nat, i: nat)
    requires i < 32
    ensures Bit(Assemble(p, star), i) <==>
              || Bit(PartOf(p[3], star), i)
              || (i >= 8 && Bit(PartOf(p[2], star), i - 8))
              || (i >= 16 && Bit(PartOf(p[1], star), i - 16))
              || (i >= 24 && Bit(PartOf(p[0], star), i - 24))
  {
    hide Bit, Or;
    assert p[..4] == p;
    AssembleBit(p, 4, star, i);
    if i >= 8 { AssembleBit(p, 3, star, i - 8); }
    if i >= 16 { AssembleBit(p, 2, star, i - 16); }
    if i >= 24 { AssembleBit(p, 1, star, i - 24); }
  }

  lemma AssembleBit(p: Pattern, k: nat, star: nat, i: nat)
    requires 1 <= k <= 4 && i < 32
    ensures Bit(Assemble(p[..k], star), i) <==>
              Bit(PartOf(p[k - 1], star), i) || (i >= 8 && k > 1 && Bit(Assemble(p[..k - 1], star), i - 8))
  {
    hide Bit, Or;
    assert p[..k][..k - 1] == p[..k - 1];
    var rest := Assemble(p[..k - 1], star);
    BitOfOr(rest * 256 % WORD, PartOf(p[k - 1], star), i);
    BitOfByteShift(rest, i);
    if k == 1 && i >= 8 { ZeroHasNoBits(i - 8); }
  }

  /** ip_begin and ip_end of an address atom. */
  method ToRange(p: Pattern) returns (ipBegin: nat, ipEnd: nat)
    ensures ipBegin == Assemble(p, 0) && ipEnd == Assemble(p, 255)
  {
    ipBegin, ipEnd := 0, 0;
    var i := 0;
    while i < 4
      invariant 0 <= i <= 4 && ipBegin == Assemble(p[..i], 0) && ipEnd == Assemble(p[..i], 255)
    {
      assert p[..i + 1][..i] == p[..i];
      if p[i].Any? {
        OrZero(ipBegin * 256 % WORD);
        ipBegin := ipBegin * 256 % WORD;
        ipEnd := Or(ipEnd * 256 % WORD, 0xff);
      } else {
        ipBegin := Or(ipBegin * 256 % WORD, p[i].n);
        ipEnd := Or(ipEnd * 256 % WORD, p[i].n);
      }
      i := i + 1;
    }
    assert p[..4] == p;
  }

  lemma {:induction false} OrZero(w: nat)
    ensures Or(w, 0) == w
  {
    if w > 0 { OrZero(w / 2); }
  }

  lemma OrEven(half: nat, n: nat)
    ensures Or(2 * half, n) == 2 * Or(half, n / 2) + n % 2
  {}

  lemma Doubled(p: nat, y: nat)
    ensures 2 * p * y == 2 * (p * y)
  {}

  /** Filling in the free low bits of a shifted word. */
  lemma {:induction false} OrLow(y: nat, n: nat, k: nat)
    requires n < Pow2(k)
    ensures Or(Pow2(k) * y, n) == Pow2(k) * y + n
  {
    if k == 0 {
      OrZero(y);
    } else {
      var half := Pow2(k - 1) * y;
      OrLow(y, n / 2, k - 1);
      Doubled(Pow2(k - 1), y);
      OrEven(half, n);
    }
  }

  lemma OrByte(y: nat, n: nat)
    requires n < 256
    ensures Or(256 * y, n) == 256 * y + n
  {
    assert Pow2(8) == 256;
    OrLow(y, n, 8);
  }

  /** All numbers are bytes. */
  predicate Bytes(p: Pattern) {
    forall i :: 0 <= i < 4 && p[i].Number? ==> p[i].n < 256
  }

  function Fill(o: Octet, star: nat): nat {
    if o.Any? then star else o.n
  }

  /** With bytes for numbers the range bounds are the pattern with zeros or 255s for the asterisks. */
  lemma AssembledBytes(p: Pattern, star: nat)
    requires Bytes(p) && star < 256
    ensures Assemble(p, star)
            == 0x100_0000 * Fill(p[0], star) + 0x1_0000 * Fill(p[1], star) + 256 * Fill(p[2], star) + Fill(p[3], star)
  {
    hide Or;
    assert p[..1][..0] == [] && p[..2][..1] == p[..1] && p[..3][..2] == p[..2] && p[..4] == p;
    OrByte(0, Fill(p[0], star));
    assert Assemble(p[..1], star) == Fill(p[0], star);
    OrByte(Fill(p[0], star), Fill(p[1], star));
    assert Assemble(p[..2], star) == 256 * Fill(p[0], star) + Fill(p[1], star);
    OrByte(Assemble(p[..2], star), Fill(p[2], star));
    assert Assemble(p[..3], star) == 256 * Assemble(p[..2], star) + Fill(p[2], star);
    OrByte(Assemble(p[..3], star), Fill(p[3], star));
  }

  lemma Digits(ip: nat)
    requires ip < WORD
    ensures ip == 0x100_0000 * ByteOf(ip, 0) + 0x1_0000 * ByteOf(ip, 1) + 256 * ByteOf(ip, 2) + ByteOf(ip, 3)
    ensures ByteOf(ip, 0) < 256 && ByteOf(ip, 1) < 256 && ByteOf(ip, 2) < 256 && ByteOf(ip, 3) < 256
  {
    assert ip / 0x1_0000 == 256 * (ip / 0x100_0000) + ip / 0x1_0000 % 256;
    assert ip / 256 == 256 * (ip / 0x1_0000) + ip / 256 % 256;
  }

  /** No address that fits a pattern is outside its range. */
  lemma RangeCovers(p: Pattern, ip: nat)
    requires ip < WORD && Fits(ip, p)
    ensures Assemble(p, 0) <= ip <= Assemble(p, 255)
  {
    Digits(ip);
    assert Bytes(p);
    AssembledBytes(p, 0);
    AssembledBytes(p, 255);
  }

  /** Behind the first asterisk there are only asterisks. */
  predicate TrailingStars(p: Pattern) {
    forall i, j :: 0 <= i < j < 4 && p[i].Any? ==> p[j].Any?
  }

  ghost predicate Exact(p: Pattern) {
    forall ip: nat :: ip < WORD ==> (Assemble(p, 0) <= ip <= Assemble(p, 255) <==> Fits(ip, p))
  }

  /** The address with the given bytes. */
  function Address(a: nat, b: nat, c: nat, d: nat): nat {
    0x100_0000 * a + 0x1_0000 * b + 256 * c + d
  }

  lemma AddressBytes(a: nat, b: nat, c: nat, d: nat)
    requires a < 256 && b < 256 && c < 256 && d < 256
    ensures Address(a, b, c, d) < WORD
    ensures ByteOf(Address(a, b, c, d), 0) == a && ByteOf(Address(a, b, c, d), 1) == b
    ensures ByteOf(Address(a, b, c, d), 2) == c && ByteOf(Address(a, b, c, d), 3) == d
  {
    assert Address(a, b, c, d) / 0x1_0000 == 256 * a + b;
    assert Address(a, b, c, d) / 256 == 0x1_0000 * a + 256 * b + c;
  }

  /** If both bounds begin with the same digit, so does everything between them. */
  lemma SameDigit(base: nat, n: nat, lo: nat, hi: nat, b: nat, low: nat)
    requires lo < base && hi < base && low < base && base * n + lo <= base * b + low <= base * n + hi
    ensures b == n && lo <= low <= hi
  {
    if b < n { MulMonotone(base, b, n); }
    if n < b { MulMonotone(base, n, b); }
  }

  lemma TrailingFits(p: Pattern, ip: nat)
    requires Bytes(p) && TrailingStars(p) && ip < WORD && Assemble(p, 0) <= ip <= Assemble(p, 255)
    ensures Fits(ip, p)
  {
    hide Assemble, ByteOf;
    Digits(ip);
    AssembledBytes(p, 0);
    AssembledBytes(p, 255);
    if p[0].Number? {
      var low1 := 0x1_0000 * ByteOf(ip, 1) + 256 * ByteOf(ip, 2) + ByteOf(ip, 3);
      var lo1, hi1 := 0x1_0000 * Fill(p[1], 0) + 256 * Fill(p[2], 0) + Fill(p[3], 0),
          0x1_0000 * Fill(p[1], 255) + 256 * Fill(p[2], 255) + Fill(p[3], 255);
      SameDigit(0x100_0000, p[0].n, lo1, hi1, ByteOf(ip, 0), low1);
      if p[1].Number? {
        var low2 := 256 * ByteOf(ip, 2) + ByteOf(ip, 3);
        SameDigit(0x1_0000, p[1].n, 256 * Fill(p[2], 0) + Fill(p[3], 0), 256 * Fill(p[2], 255) + Fill(p[3], 255),
                  ByteOf(ip, 1), low2);
        if p[2].Number? {
          SameDigit(256, p[2].n, Fill(p[3], 0), Fill(p[3], 255), ByteOf(ip, 2), ByteOf(ip, 3));
        }
      }
    }
  }

  /** A number behind an asterisk is not enforced: some address in the range misses it. */
  lemma InnerStarMisses(p: Pattern, i: nat, j: nat) returns (ip: nat)
    requires Bytes(p) && i < j < 4 && p[i].Any? && p[j].Number?
    ensures ip < WORD && Assemble(p, 0) <= ip <= Assemble(p, 255) && !Fits(ip, p)
  {
    hide Assemble, ByteOf;
    AssembledBytes(p, 0);
    AssembledBytes(p, 255);
    var other := (p[j].n + 1) % 256;
    var d0 := if i == 0 then 1 else Fill(p[0], 0);
    var d1 := if i == 1 then 1 else if j == 1 then other else Fill(p[1], 0);
    var d2 := if i == 2 then 1 else if j == 2 then other else Fill(p[2], 0);
    var d3 := if j == 3 then other else Fill(p[3], 0);
    ip := Address(d0, d1, d2, d3);
    AddressBytes(d0, d1, d2, d3);
    assert ByteOf(ip, j) == other;
  }

  // ---- the range of a pattern whose numbers are not bytes ----

  /** Every bit of a is a bit of b. */
  ghost predicate Under(a: nat, b: nat) {
    forall i: nat :: Bit(a, i) ==> Bit(b, i)
  }

  lemma {:induction false} UnderIsLess(a: nat, b: nat)
    requires Under(a, b)
    ensures a <= b
  {
    if a > 0 {
      assert Bit(a, 0) ==> Bit(b, 0);
      forall i: nat ensures Bit(a / 2, i) ==> Bit(b / 2, i) {
        assert Bit(a, i + 1) ==> Bit(b, i + 1);
      }
      UnderIsLess(a / 2, b / 2);
    }
  }

  lemma UnderOr(a: nat, b: nat, c: nat, d: nat)
    requires Under(a, b) && Under(c, d)
    ensures Under(Or(a, c), Or(b, d))
  {
    forall i: nat ensures Bit(Or(a, c), i) ==> Bit(Or(b, d), i) {
      BitOfOr(a, c, i);
      BitOfOr(b, d, i);
    }
  }

  /** The bits of a number in two parts. */
  lemma {:induction false} BitOfParts(q: nat, r: nat, n: nat, i: nat)
    requires r < Pow2(n)
    ensures Bit(Pow2(n) * q + r, i) <==> if i < n then Bit(r, i) else Bit(q, i - n)
  {
    if n > 0 {
      var half := Pow2(n - 1) * q;
      assert Pow2(n) * q == 2 * half;
      assert (2 * half + r) / 2 == half + r / 2 && (2 * half + r) % 2 == r % 2;
      if i > 0 { BitOfParts(q, r / 2, n - 1, i - 1); }
    }
  }

  lemma {:induction false} HighBits(r: nat, n: nat, i: nat)
    requires r < Pow2(n) && n <= i
    ensures !Bit(r, i)
  {
    if n > 0 { HighBits(r / 2, n - 1, i - 1); } else { ZeroHasNoBits(i); }
  }

  /** The bits of a word shifted left by a byte. */
  lemma BitOfShift(x: nat, i: nat)
    ensures Bit(x * 256 % WORD, i) <==> 8 <= i < 32 && Bit(x, i - 8)
  {
    hide Bit;
    WordIsPow2();
    assert Pow2(8) == 256;
    BitOfParts(x, 0, 8, i);
    BitOfParts(x * 256 / WORD, x * 256 % WORD, 32, i);
    ZeroHasNoBits(i);
    if i >= 32 { HighBits(x * 256 % WORD, 32, i); }
  }

  lemma UnderShift(a: nat, b: nat)
    requires Under(a, b)
    ensures Under(a * 256 % WORD, b * 256 % WORD)
  {
    hide Bit;
    forall i: nat ensures Bit(a * 256 % WORD, i) ==> Bit(b * 256 % WORD, i) {
      BitOfShift(a, i);
      BitOfShift(b, i);
      if i >= 8 { assert Bit(a, i - 8) ==> Bit(b, i - 8); }
    }
  }

  /** The lower bound has no bit that the upper one lacks. */
  lemma {:induction false} BoundsOrdered(p: seq<Octet>)
    ensures Under(Assemble(p, 0), Assemble(p, 255)) && Assemble(p, 0) < WORD
  {
    hide Bit, Or;
    if p != [] {
      var rest, last := p[..|p| - 1], p[|p| - 1];
      BoundsOrdered(rest);
      UnderShift(Assemble(rest, 0), Assemble(rest, 255));
      LastUnder(last);
      UnderOr(Assemble(rest, 0) * 256 % WORD, Assemble(rest, 255) * 256 % WORD, Fill(last, 0), Fill(last, 255));
      WordIsPow2();
      OrBound(Assemble(rest, 0) * 256 % WORD, Fill(last, 0), 32);
    }
  }

  lemma LastUnder(o: Octet)
    ensures Under(Fill(o, 0), Fill(o, 255)) && Fill(o, 0) < WORD
  {
    forall i: nat ensures !Bit(0, i) { ZeroHasNoBits(i); }
  }

  /** A number that is not a byte fits no address, but the range is not empty. */
  lemma NoByteMisses(p: Pattern)
    requires !Bytes(p)
    ensures Assemble(p, 0) < WORD && Assemble(p, 0) <= Assemble(p, 255) && !Fits(Assemble(p, 0), p)
  {
    hide Assemble, ByteOf;
    BoundsOrdered(p);
    UnderIsLess(Assemble(p, 0), Assemble(p, 255));
    Digits(Assemble(p, 0));
  }

  /** The range of a pattern is exactly the addresses that fit it if its numbers are bytes and its asterisks trail, and
      only then. */
  lemma ExactPatterns(p: Pattern)
    ensures Exact(p) <==> Bytes(p) && TrailingStars(p)
  {
    hide Assemble, Fits;
    if !Bytes(p) {
      NoByteMisses(p);
    } else if !TrailingStars(p) {
      var i, j :| 0 <= i < j < 4 && p[i].Any? && p[j].Number?;
      var ip := InnerStarMisses(p, i, j);
    } else {
      forall ip: nat | ip < WORD ensures Assemble(p, 0) <= ip <= Assemble(p, 255) <==> Fits(ip, p) {
        if Fits(ip, p) { RangeCovers(p, ip); }
        if Assemble(p, 0) <= ip <= Assemble(p, 255) { TrailingFits(p, ip); }
      }
    }
  }

  /** The bounds are 32-bit numbers. */
  lemma AssembledFits(p: seq<Octet>, star: nat)
    requires star < 256
    ensures Assemble(p, star) < WORD
  {
    if p != [] {
      WordIsPow2();
      OrBound(Assemble(p[..|p| - 1], star) * 256 % WORD, Fill(p[|p| - 1], star), 32);
    }
  }
}
