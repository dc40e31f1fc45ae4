/** The fixed-size bitmap of a trie node. */
module Bitmaps {
  import opened Enumerate
  import opened Radix
  import opened Words

  /** The words hold exactly the bit set bits. */
  ghost predicate WordsHold(words: seq<nat>, bits: set<nat>) {
    && (forall x :: x in bits ==> x < 32 * |words|)
    && (forall w, b :: 0 <= w < |words| && 0 <= b < 32 ==> (32 * w + b in bits <==> Bit(words[w], b)))
    && (forall w :: 0 <= w < |words| ==> words[w] < WORD)
  }

  lemma PrefixLength(bits: set<nat>, m: nat, n: nat)
    requires m <= n
    ensures |Ascending(bits, m)| <= |Ascending(bits, n)|
  {
    AscendingPrefix(bits, m, n);
  }

  /** A set bit is counted once, so the enumeration fits an array with a cell per set bit. */
  lemma AscendingFits(bits: set<nat>, m: nat, n: nat)
    requires m <= n && forall x :: x in bits ==> x < n
    ensures |Ascending(bits, m)| <= |bits|
    ensures m < n && m in bits ==> |Ascending(bits, m)| < |bits|
  {
    hide Ascending;
    AscendingCountAll(bits, n);
    PrefixLength(bits, m, n);
    if m < n { PrefixLength(bits, m + 1, n); }
    AscendingStep(bits, m);
  }

  class Bitmap {
    var bitSize: nat
    var elemSize: nat
    var byteArray: array<nat>
    ghost var bits: set<nat>

    ghost predicate Valid()
      reads this, byteArray
    {
      && elemSize == byteArray.Length
      && bitSize == 32 * elemSize
      && WordsHold(byteArray[..], bits)
    }

    constructor (size: nat)
      requires size > 0
      ensures Valid() && bits == {} && fresh(byteArray)
      ensures size <= bitSize < size + 32
    {
      elemSize := (size + 31) / 32;
      byteArray := new nat[(size + 31) / 32](_ => 0);
      bitSize := (size + 31) / 32 * 32;
      bits := {};
      new;
      forall b: nat ensures !Bit(0, b) { ZeroHasNoBits(b); }
    }

    /** A position outside the bitmap is ignored. */
    method SetBit(bitPos: int)
      requires Valid()
      modifies this`bits, byteArray
      ensures Valid()
      ensures bits == if 0 <= bitPos < bitSize then old(bits) + {bitPos} else old(bits)
    {
      if bitPos < 0 || bitPos >= bitSize { return; }
      hide Bit, Or, Pow2;
      var w, location := bitPos / 32, bitPos % 32;
      OrMask(byteArray[w], location);
      byteArray[w] := Or(byteArray[w], Pow2(location));
      bits := bits + {bitPos};
    }

    method GetBit(bitPos: int) returns (r: bool)
      requires Valid()
      ensures r <==> bitPos in bits
    {
      if bitPos < 0 || bitPos >= bitSize { return false; }
      var location := bitPos % 32;
      r := ShiftRight(byteArray[bitPos / 32], location) % 2 == 1;
      BitIsShift(byteArray[bitPos / 32], location);
      assert bitPos == 32 * (bitPos / 32) + location;
    }

    /** Writes the positions of the set bits to pos in ascending order. */
    method GetOnePosition(pos: array<nat>)
      requires Valid() && |bits| <= pos.Length && pos != byteArray
      modifies pos
      ensures pos[..|bits|] == Ascending(bits, bitSize)
    {
      AscendingCountAll(bits, bitSize);
      var cnt: nat, i: nat := 0, 0;
      while i < elemSize
        invariant 0 <= i <= elemSize && cnt <= |bits|
        invariant pos[..cnt] == Ascending(bits, 32 * i)
      {
        cnt := WordPositions(pos, i, cnt);
        i := i + 1;
      }
    }

    /** One word of GetOnePosition: its set bits, lowest first, until none is left. */
    method WordPositions(pos: array<nat>, i: nat, start: nat) returns (cnt: nat)
      requires Valid() && |bits| <= pos.Length && pos != byteArray && i < elemSize
      requires start <= |bits| && pos[..start] == Ascending(bits, 32 * i)
      modifies pos
      ensures cnt <= |bits| && pos[..cnt] == Ascending(bits, 32 * i + 32)
    {
      hide Bit, And, Xor, Pow2, Negate, Ascending;
      cnt := start;
      var tmp: nat := byteArray[i];
      ghost var l: nat := 0;
      while tmp != 0
        invariant l <= 32 && tmp < WORD && cnt <= |bits|
        invariant forall b: nat | b < 32 :: Bit(tmp, b) <==> b >= l && Bit(byteArray[i], b)
        invariant pos[..cnt] == Ascending(bits, 32 * i + l)
        decreases 32 - l
      {
        ghost var k := IsolateLowBit(tmp);
        var low := And(tmp, Negate(tmp));
        NoBitsBetween(tmp, i, l, k);
        AscendingFits(bits, 32 * i + k, bitSize);
        AscendingStep(bits, 32 * i + k);
        var p := Num2Pos(low, k);
        pos[cnt] := 32 * i + p;
        cnt := cnt + 1;
        ClearBit(tmp, k);
        tmp := Xor(tmp, low);
        l := k + 1;
        AscendingFits(bits, 32 * i + l, bitSize);
      }
      forall b: nat ensures !Bit(0, b) { ZeroHasNoBits(b); }
      NoBitsBetween(tmp, i, l, 32);
    }

    /** Word i has no bit from l to k, so the enumeration does not grow there. */
    lemma NoBitsBetween(tmp: nat, i: nat, l: nat, k: nat)
      requires Valid() && i < elemSize && l <= k <= 32
      requires forall b: nat | b < 32 :: Bit(tmp, b) <==> b >= l && Bit(byteArray[i], b)
      requires forall b: nat | b < k :: !Bit(tmp, b)
      ensures Ascending(bits, 32 * i + k) == Ascending(bits, 32 * i + l)
    {
      forall x | 32 * i + l <= x < 32 * i + k ensures x !in bits {
        var b := x - 32 * i;
        assert !Bit(tmp, b);
        assert byteArray[..][i] == byteArray[i];
        assert 32 * i + b in bits <==> Bit(byteArray[..][i], b);
      }
      AscendingGap(bits, 32 * i + l, 32 * i + k);
    }

    /** The bytes the bitmap takes in a file. */
    function GetSizeOfFile(): nat
      reads this
    {
      4 + 4 * elemSize
    }
  }

  function ShiftRight(w: nat, n: nat): nat {
    Div(w, Pow2(n))
  }

  lemma {:induction false} BitIsShift(w: nat, i: nat)
    ensures ShiftRight(w, i) % 2 == 1 <==> Bit(w, i)
  {
    if i > 0 {
      BitIsShift(w / 2, i - 1);
      DivTwice(w, 2, Pow2(i - 1), Pow2(i));
      DivUnique(w, 2, w / 2, w % 2);
    } else {
      DivUnique(w, 1, w, 0);
    }
  }

  lemma OrMask(w: nat, k: nat)
    requires w < WORD && k < 32
    ensures Or(w, Pow2(k)) < WORD
    ensures forall b: nat :: Bit(Or(w, Pow2(k)), b) <==> Bit(w, b) || b == k
  {
    WordIsPow2();
    Pow2Monotone(k, 32);
    OrBound(w, Pow2(k), 32);
    forall b: nat ensures Bit(Or(w, Pow2(k)), b) <==> Bit(w, b) || b == k {
      BitOfOr(w, Pow2(k), b);
      BitOfPow2(k, b);
    }
  }

  lemma ClearBit(w: nat, k: nat)
    requires w < WORD && k < 32
    ensures Xor(w, Pow2(k)) < WORD
    ensures forall b: nat :: Bit(Xor(w, Pow2(k)), b) <==> (Bit(w, b) != (b == k))
  {
    WordIsPow2();
    Pow2Monotone(k, 32);
    XorBound(w, Pow2(k), 32);
    forall b: nat ensures Bit(Xor(w, Pow2(k)), b) <==> (Bit(w, b) != (b == k)) {
      BitOfXor(w, Pow2(k), b);
      BitOfPow2(k, b);
    }
  }
}
