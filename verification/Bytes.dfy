/** Bytes, little-endian integers and the sequential file the indexes are written to. */
module Bytes {
  import opened Radix

  type byte = x: int | 0 <= x < 256

  /** The k low-order bytes of n, least significant first. */
  function LE(n: nat, k: nat): (bs: seq<byte>)
    ensures |bs| == k
  {
    if k == 0 then [] else [n % 256] + LE(n / 256, k - 1)
  }

  function FromLE(bs: seq<byte>): nat {
    if bs == [] then 0 else bs[0] + 256 * FromLE(bs[1..])
  }

  lemma {:induction false} LERoundTrip(n: nat, k: nat)
    requires n < Pow256(k)
    ensures FromLE(LE(n, k)) == n
  {
    if k > 0 {
      LERoundTrip(n / 256, k - 1);
      assert LE(n, k)[1..] == LE(n / 256, k - 1);
    }
  }

  /** A uint32_t as written to a file. */
  function U32(n: nat): (bs: seq<byte>)
    ensures |bs| == 4
  {
    LE(n, 4)
  }

  /** A uint16_t as written to a file. */
  function U16(n: nat): (bs: seq<byte>)
    ensures |bs| == 2
  {
    LE(n, 2)
  }

  lemma U32RoundTrip(n: nat)
    requires n < 0x1_0000_0000
    ensures FromLE(U32(n)) == n
  {
    Pow256Values();
    LERoundTrip(n, 4);
  }

  lemma U16RoundTrip(n: nat)
    requires n < 0x1_0000
    ensures FromLE(U16(n)) == n
  {
    Pow256Values();
    LERoundTrip(n, 2);
  }

  lemma {:induction false} FromLEBound(bs: seq<byte>)
    ensures FromLE(bs) < Pow256(|bs|)
  {
    if bs != [] { FromLEBound(bs[1..]); }
  }

  /** The 32-bit number at position p, least significant byte first. */
  function Num32(data: seq<byte>, p: nat): nat
    requires p + 4 <= |data|
  {
    var b0: nat, b1: nat, b2: nat, b3: nat := data[p], data[p + 1], data[p + 2], data[p + 3];
    b0 + 0x100 * b1 + 0x1_0000 * b2 + 0x100_0000 * b3
  }

  /** The 16-bit number at position p, least significant byte first. */
  function Num16(data: seq<byte>, p: nat): nat
    requires p + 2 <= |data|
  {
    var b0: nat, b1: nat := data[p], data[p + 1];
    b0 + 0x100 * b1
  }

  /** The k-th of the 32-bit numbers from position p on. */
  function Word32(data: seq<byte>, p: nat, k: nat): nat
    requires p + 4 * k + 4 <= |data|
  {
    Num32(data, p + 4 * k)
  }

  lemma Num32Is(bs: seq<byte>)
    requires |bs| == 4
    ensures Num32(bs, 0) == FromLE(bs)
  {
    assert FromLE(bs) == bs[0] + 256 * FromLE(bs[1..]);
    assert FromLE(bs[1..]) == bs[1] + 256 * FromLE(bs[1..][1..]);
    assert bs[1..][1..] == bs[2..] && bs[2..][1..] == bs[3..] && bs[3..][1..] == [];
    assert FromLE(bs[2..]) == bs[2] + 256 * FromLE(bs[3..]);
    assert FromLE(bs[3..]) == bs[3] + 256 * FromLE([]);
  }

  lemma Num16Is(bs: seq<byte>)
    requires |bs| == 2
    ensures Num16(bs, 0) == FromLE(bs)
  {
    assert FromLE(bs) == bs[0] + 256 * FromLE(bs[1..]);
    assert FromLE(bs[1..]) == bs[1] + 256 * FromLE(bs[1..][1..]);
    assert bs[1..][1..] == [];
  }

  /** Where a number has been written as four bytes it stands. */
  lemma Num32At(data: seq<byte>, p: nat, n: nat)
    requires At(data, p, U32(n)) && n < 0x1_0000_0000
    ensures p + 4 <= |data| && Num32(data, p) == n
  {
    hide FromLE, U32;
    U32RoundTrip(n);
    Num32Is(U32(n));
    var bs := data[p..p + 4];
    assert data[p] == bs[0] && data[p + 1] == bs[1] && data[p + 2] == bs[2] && data[p + 3] == bs[3];
  }

  lemma Num16At(data: seq<byte>, p: nat, n: nat)
    requires At(data, p, U16(n)) && n < 0x1_0000
    ensures p + 2 <= |data| && Num16(data, p) == n
  {
    hide FromLE, U16;
    U16RoundTrip(n);
    Num16Is(U16(n));
    var bs := data[p..p + 2];
    assert data[p] == bs[0] && data[p + 1] == bs[1];
  }

  /** A part of what occurs in the data occurs there. */
  lemma AtPart(data: seq<byte>, p: nat, bs: seq<byte>, i: nat, n: nat)
    requires At(data, p, bs) && i + n <= |bs|
    ensures At(data, p + i, bs[i..i + n])
  {
    var found, part := data[p + i..p + i + n], bs[i..i + n];
    forall j | 0 <= j < |part| ensures found[j] == part[j] {
      assert data[p..p + |bs|][i + j] == bs[i + j];
    }
  }

  /** bs occurs in data at position p. */
  predicate At(data: seq<byte>, p: nat, bs: seq<byte>) {
    p + |bs| <= |data| && data[p..p + |bs|] == bs
  }

  lemma AtConcat(data: seq<byte>, p: nat, a: seq<byte>, m: nat, b: seq<byte>)
    requires m == p + |a|
    ensures At(data, p, a + b) <==> At(data, p, a) && At(data, m, b)
  {
    if p + |a| + |b| <= |data| {
      var d := data[p..p + |a| + |b|];
      assert d == data[p..p + |a|] + data[p + |a|..p + |a| + |b|];
      assert d[..|a|] == data[p..p + |a|] && d[|a|..] == data[p + |a|..p + |a| + |b|];
      assert (a + b)[..|a|] == a && (a + b)[|a|..] == b;
    }
  }

  lemma AtExtend(data: seq<byte>, more: seq<byte>, p: nat, bs: seq<byte>)
    requires At(data, p, bs)
    ensures At(data + more, p, bs)
  {
    assert (data + more)[p..p + |bs|] == data[p..p + |bs|];
  }

  /** The bytes fread finds at position p when asked for n. */
  function Available(data: seq<byte>, p: nat, n: nat): (bs: seq<byte>)
    ensures |bs| <= n
  {
    if p >= |data| then [] else if p + n <= |data| then data[p..p + n] else data[p..]
  }

  lemma AvailableAt(data: seq<byte>, p: nat, bs: seq<byte>)
    requires At(data, p, bs)
    ensures Available(data, p, |bs|) == bs
  {}

  /** A C stream: the bytes of the file and the read position. Writes append. */
  class Stream {
    var data: seq<byte>
    var pos: nat

    constructor (bytes: seq<byte>)
      ensures data == bytes && pos == 0
    {
      data, pos := bytes, 0;
    }

    /** fwrite on a file opened for writing. */
    method Write(bs: seq<byte>)
      modifies this`data
      ensures data == old(data) + bs
    {
      data := data + bs;
    }

    /** fread of n bytes; fewer at the end of the file. */
    method Read(n: nat) returns (bs: seq<byte>)
      modifies this`pos
      ensures bs == Available(data, old(pos), n) && pos == old(pos) + |bs|
    {
      bs := Available(data, pos, n);
      pos := pos + |bs|;
    }

    /** fseek with SEEK_SET. */
    method SeekSet(offset: nat)
      modifies this`pos
      ensures pos == offset
    {
      pos := offset;
    }

    /** fseek with SEEK_CUR. */
    method SeekCur(offset: nat)
      modifies this`pos
      ensures pos == old(pos) + offset
    {
      pos := pos + offset;
    }
  }
}
