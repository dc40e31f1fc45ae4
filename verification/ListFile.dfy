/** Value lists merged into query answers, and their image in an index file. */
module ListFiles {
  import opened Bytes
  import opened FlowLog
  import opened LinkLists
  import opened Radix
  import opened Words

  /** Merges the list into an answer; the walk over the chunks visits the elements in list order. */
  method MergeList(list: LinkList<Value>, ret: seq<Value>) returns (merged: seq<Value>)
    requires list.Valid()
    ensures merged == Merge(list.contents, ret)
  {
    if list.head == null { return ret; }
    hide LinkList.Valid, LinkList.Chunked, LinkList.Linked;
    merged := [];
    var curA := list.head;
    var idx: nat, idx2: nat := 0, 0;
    ghost var c: nat, k: nat := 0, 0;
    while curA != null || idx < |ret|
      invariant idx <= |ret| && k <= |list.contents|
      invariant Cursor(list, curA, idx2, c, k)
      invariant Merging(list.contents, ret, k, idx, merged)
      decreases |list.contents| - k + |ret| - idx
    {
      if curA == null || (idx < |ret| && curA.data[idx2].offset > ret[idx].offset) {
        MergingStep(list.contents, ret, k, idx, merged);
        merged := merged + [ret[idx]];
        idx := idx + 1;
      } else {
        MergingStep(list.contents, ret, k, idx, merged);
        merged := merged + [curA.data[idx2]];
        curA, idx2, c := Advance(list, curA, idx2, c, k);
        k := k + 1;
      }
    }
  }

  ghost predicate Merging(list: seq<Value>, answer: seq<Value>, k: nat, idx: nat, merged: seq<Value>)
    requires k <= |list| && idx <= |answer|
  {
    merged + Merge(list[k..], answer[idx..]) == Merge(list, answer)
  }

  lemma MergingStep(list: seq<Value>, answer: seq<Value>, k: nat, idx: nat, merged: seq<Value>)
    requires k <= |list| && idx <= |answer| && Merging(list, answer, k, idx, merged)
    ensures k == |list| && idx < |answer| ==> Merging(list, answer, k, idx + 1, merged + [answer[idx]])
    ensures k < |list| && idx < |answer| && list[k].offset > answer[idx].offset ==>
              Merging(list, answer, k, idx + 1, merged + [answer[idx]])
    ensures k < |list| && !(idx < |answer| && list[k].offset > answer[idx].offset) ==>
              Merging(list, answer, k + 1, idx, merged + [list[k]])
  {
    assert k < |list| ==> list[k..][1..] == list[k + 1..];
    assert idx < |answer| ==> answer[idx..][1..] == answer[idx + 1..];
  }

  /** The walk stands at slot j of chunk c, which is element k, or behind the last element. */
  ghost predicate Cursor(list: LinkList<Value>, cur: LinkNode?<Value>, j: nat, c: nat, k: nat)
    requires list.Valid()
    reads list, list.Repr
  {
    if cur == null then k == |list.contents|
    else c < |list.chunks| && cur == list.chunks[c] && j < cur.elemNum && k == CHUNK * c + j && k < |list.contents|
         && cur.data[j] == list.contents[k]
  }

  method Advance(list: LinkList<Value>, cur: LinkNode<Value>, j: nat, ghost c: nat, ghost k: nat)
      returns (cur': LinkNode?<Value>, j': nat, ghost c': nat)
    requires list.Valid() && Cursor(list, cur, j, c, k)
    ensures Cursor(list, cur', j', c', k + 1)
  {
    cur', j', c' := cur, j + 1, c;
    if j' >= cur.elemNum {
      assert c < |list.chunks| - 1 ==> cur.next == list.chunks[c + 1];
      assert c == |list.chunks| - 1 ==> cur == list.tail;
      cur', j', c' := cur.next, 0, c + 1;
    }
  }

  // ---- the list in a file: its length, then its values ----

  /** A value as the compiler lays it out: eight bytes, the last two padding. */
  function EncodeValue(v: Value): (bs: seq<byte>)
    ensures |bs| == 8
  {
    U32(v.offset) + U16(v.packetsNum) + U16(0)
  }

  function DecodeValue(bs: seq<byte>): Value
    requires |bs| == 8
  {
    FromLEBound(bs[..4]);
    FromLEBound(bs[4..6]);
    Pow256Values();
    Value(FromLE(bs[..4]), FromLE(bs[4..6]))
  }

  lemma ValueRoundTrip(v: Value)
    ensures DecodeValue(EncodeValue(v)) == v
  {
    hide U32, U16;
    U32RoundTrip(v.offset);
    U16RoundTrip(v.packetsNum);
    assert EncodeValue(v)[..4] == U32(v.offset) && EncodeValue(v)[4..6] == U16(v.packetsNum);
  }

  function EncodeValues(vs: seq<Value>): (bs: seq<byte>)
    ensures |bs| == 8 * |vs|
  {
    if vs == [] then [] else EncodeValues(vs[..|vs| - 1]) + EncodeValue(vs[|vs| - 1])
  }

  /** So many values take 2^32 bytes. */
  const SPAN: nat := 0x2000_0000

  /** The size of n values, which the source computes in 32 bits. */
  function ValueBytes(n: nat): (bytes: nat)
    ensures bytes == 8 * (n % SPAN) <= 8 * n
  {
    8 * n % WORD
  }

  /** The values that are written: those the computed size covers. */
  function WrittenValues(vs: seq<Value>): (bs: seq<byte>)
    ensures |bs| == ValueBytes(|vs|)
  {
    EncodeValues(vs)[..ValueBytes(|vs|)]
  }

  /** A list in a file: its length, then its values. */
  function EncodeList(vs: seq<Value>): (bs: seq<byte>)
    ensures |bs| == ListSize(vs)
  {
    U32(|vs|) + WrittenValues(vs)
  }

  function ListSize(vs: seq<Value>): nat {
    4 + ValueBytes(|vs|)
  }

  lemma {:induction false} EncodedValueAt(vs: seq<Value>, i: nat)
    requires i < |vs|
    ensures EncodeValues(vs)[8 * i..8 * i + 8] == EncodeValue(vs[i])
  {
    var init := vs[..|vs| - 1];
    assert EncodeValues(vs) == EncodeValues(init) + EncodeValue(vs[|vs| - 1]);
    if i < |vs| - 1 {
      EncodedValueAt(init, i);
      assert EncodeValues(vs)[8 * i..8 * i + 8] == EncodeValues(init)[8 * i..8 * i + 8];
    }
  }

  /** Writes the list and releases its chunks; the list is empty afterwards. */
  method WriteList(list: LinkList<Value>, fp: Stream) returns (ghost freed: seq<LinkNode<Value>>)
    requires list.Valid() && fp !in list.Repr
    modifies list, fp`data
    ensures list.Valid() && list.contents == [] && list.Repr == old(list.Repr)
    ensures fp.data == old(fp.data) + EncodeList(old(list.contents))
    ensures LaidOut(fp.data, |old(fp.data)|, old(list.contents))
    ensures freed == old(list.chunks)
  {
    ghost var before, contents := fp.data, list.contents;
    fp.Write(U32(list.nodeCount));
    var buffer;
    buffer, freed := CopyOut(list);
    fp.Write(WrittenValues(buffer[..]));
    list.Clear();
    AtItsEnd(before, EncodeList(contents));
    ListLaidOut(fp.data, |before|, contents);
  }

  lemma AtItsEnd(data: seq<byte>, bs: seq<byte>)
    ensures At(data + bs, |data|, bs)
  {}

  lemma ChunkFollows(list: LinkList<Value>, c: nat)
    requires list.Valid() && c < |list.chunks|
    ensures list.chunks[c].next == if c < |list.chunks| - 1 then list.chunks[c + 1] else null
    ensures CHUNK * c + list.chunks[c].elemNum == if c < |list.chunks| - 1 then CHUNK * (c + 1) else |list.contents|
    ensures CHUNK * c + list.chunks[c].elemNum <= |list.contents|
  {}

  lemma ListBounds(list: LinkList<Value>)
    requires list.Valid()
    ensures list.nodeCount == |list.contents| && (list.chunks == [] ==> list.contents == [])
    ensures list.head == if list.chunks == [] then null else list.chunks[0]
  {}

  method CopyOut(list: LinkList<Value>) returns (buffer: array<Value>, ghost freed: seq<LinkNode<Value>>)
    requires list.Valid()
    ensures fresh(buffer) && buffer[..] == list.contents && freed == list.chunks
  {
    hide LinkList.Valid, LinkList.Chunked, LinkList.Linked;
    ListBounds(list);
    buffer := new Value[list.nodeCount];
    var idx: nat := 0;
    freed := [];
    var ptr := list.head;
    while ptr != null
      invariant |freed| <= |list.chunks| && freed == list.chunks[..|freed|]
      invariant ptr == if |freed| < |list.chunks| then list.chunks[|freed|] else null
      invariant idx == if |freed| < |list.chunks| then CHUNK * |freed| else |list.contents|
      invariant idx <= |list.contents| && buffer[..idx] == list.contents[..idx]
      decreases |list.chunks| - |freed|
      modifies buffer
    {
      ghost var c := |freed|;
      ChunkFollows(list, c);
      CopyChunk(list, ptr, c, idx, buffer);
      idx := idx + ptr.elemNum;
      freed := freed + [ptr];
      ptr := ptr.next;
    }
  }

  method CopyChunk(list: LinkList<Value>, ptr: LinkNode<Value>, ghost c: nat, idx: nat, buffer: array<Value>)
    requires list.Valid() && c < |list.chunks| && ptr == list.chunks[c] && idx == CHUNK * c
    requires buffer.Length == |list.contents| && buffer !in list.Repr
    requires idx <= |list.contents| && buffer[..idx] == list.contents[..idx]
    modifies buffer
    ensures idx + ptr.elemNum <= |list.contents|
    ensures buffer[..idx + ptr.elemNum] == list.contents[..idx + ptr.elemNum]
  {
    var i: nat := 0;
    while i < ptr.elemNum
      invariant i <= ptr.elemNum && idx + ptr.elemNum <= |list.contents|
      invariant buffer[..idx + i] == list.contents[..idx + i]
    {
      assert ptr.data[i] == list.contents[idx + i];
      buffer[idx + i] := ptr.data[i];
      i := i + 1;
    }
  }

  lemma CountAt(data: seq<byte>, p: nat, vs: seq<Value>)
    requires At(data, p, EncodeList(vs))
    ensures At(data, p, U32(|vs|)) && At(data, p + 4, WrittenValues(vs))
  {
    hide At, U32, WrittenValues, ValueBytes;
    AtConcat(data, p, U32(|vs|), p + 4, WrittenValues(vs));
  }

  /** The layout of a list in a file: its length in four bytes, then for every value that is written its offset in four
      bytes, its packet count in two, and two more. */
  ghost predicate LaidOut(data: seq<byte>, p: nat, vs: seq<Value>) {
    && p + 4 + 8 * (|vs| % SPAN) <= |data|
    && (|vs| < WORD ==> Num32(data, p) == |vs|)
    && forall i :: 0 <= i < |vs| % SPAN ==>
         Num32(data, p + 4 + 8 * i) == vs[i].offset && Num16(data, p + 8 + 8 * i) == vs[i].packetsNum
  }

  lemma ValueLaidOut(data: seq<byte>, p: nat, v: Value)
    requires At(data, p, EncodeValue(v))
    ensures p + 8 <= |data| && Num32(data, p) == v.offset && Num16(data, p + 4) == v.packetsNum
  {
    hide At, U32, U16;
    AtConcat(data, p, U32(v.offset) + U16(v.packetsNum), p + 6, U16(0));
    AtConcat(data, p, U32(v.offset), p + 4, U16(v.packetsNum));
    Num32At(data, p, v.offset);
    Num16At(data, p + 4, v.packetsNum);
    Num16At(data, p + 6, 0);
  }

  /** A list's image is laid out like that. */
  lemma ListLaidOut(data: seq<byte>, p: nat, vs: seq<Value>)
    requires At(data, p, EncodeList(vs))
    ensures LaidOut(data, p, vs)
  {
    hide U32, EncodeValues, EncodeValue, Num32, Num16;
    CountAt(data, p, vs);
    if |vs| < WORD { Num32At(data, p, |vs|); }
    forall i | 0 <= i < |vs| % SPAN
      ensures p + 12 + 8 * i <= |data|
      ensures Num32(data, p + 4 + 8 * i) == vs[i].offset && Num16(data, p + 8 + 8 * i) == vs[i].packetsNum
    {
      EncodedValueAt(vs, i);
      AtPart(data, p + 4, WrittenValues(vs), 8 * i, 8);
      assert WrittenValues(vs)[8 * i..8 * i + 8] == EncodeValues(vs)[8 * i..8 * i + 8];
      ValueLaidOut(data, p + 4 + 8 * i, vs[i]);
    }
  }

  lemma DecodedAt(vs: seq<Value>, i: nat)
    requires i < |vs|
    ensures DecodeValue(EncodeValues(vs)[8 * i..8 * i + 8]) == vs[i]
  {
    EncodedValueAt(vs, i);
    ValueRoundTrip(vs[i]);
  }

  /** A list has been read as far as its values are in the file. */
  ghost predicate Restored(got: seq<Value>, vs: seq<Value>) {
    |got| == |vs| && forall i :: 0 <= i < |vs| % SPAN ==> got[i] == vs[i]
  }

  /** If the image of a list stands at the cursor, the list has been appended to the answer as far as its values are in
      the file, and the cursor has been moved behind it. */
  ghost predicate ListsRead(data: seq<byte>, cursor: nat, cursor': nat, ret: seq<Value>, ret': seq<Value>) {
    forall vs: seq<Value> | |vs| < WORD && At(data, cursor, EncodeList(vs)) ::
      ret <= ret' && Restored(ret'[|ret|..], vs) && cursor' == cursor + ListSize(vs)
          && (|vs| < SPAN ==> ret' == ret + vs)
  }

  lemma ListIsRead(data: seq<byte>, cursor: nat, cursor': nat, ret: seq<Value>, ret': seq<Value>, vs: seq<Value>)
    requires ListsRead(data, cursor, cursor', ret, ret') && |vs| < SPAN && At(data, cursor, EncodeList(vs))
    ensures ret' == ret + vs && cursor' == cursor + ListSize(vs)
  {
    hide At, EncodeList, Restored;
  }

  /** Appends the list at the cursor to an answer. Values that are not in the file are whatever the buffer held. */
  method ReadList(fp: Stream, ret: seq<Value>) returns (ret': seq<Value>)
    modifies fp`pos
    ensures ret <= ret' && ListsRead(fp.data, old(fp.pos), fp.pos, ret, ret')
    ensures old(fp.pos) >= |fp.data| ==> ret' == ret && fp.pos == old(fp.pos)
  {
    ghost var start := fp.pos;
    var head := fp.Read(4);
    var count := FromLE(head);
    var bytes := fp.Read(ValueBytes(count));
    var buffer := Decode(bytes, count);
    ret' := ret + buffer;
    assert ret'[|ret|..] == buffer;
    forall vs: seq<Value> | |vs| < WORD && At(fp.data, start, EncodeList(vs))
      ensures Restored(buffer, vs) && fp.pos == start + ListSize(vs) && (|vs| < SPAN ==> buffer == vs)
    {
      hide EncodeList, At, FromLE, DecodeValue, Restored;
      ReadAt(fp.data, start, vs);
      RestoredFrom(bytes, buffer, vs);
    }
  }

  /** What the two reads find at a list's image. */
  lemma ReadAt(data: seq<byte>, p: nat, vs: seq<Value>)
    requires |vs| < WORD && At(data, p, EncodeList(vs))
    ensures FromLE(Available(data, p, 4)) == |vs| && |Available(data, p, 4)| == 4
    ensures Available(data, p + 4, ValueBytes(|vs|)) == WrittenValues(vs)
  {
    hide At, U32, FromLE, EncodeList, WrittenValues, ValueBytes;
    CountAt(data, p, vs);
    U32RoundTrip(|vs|);
    AvailableAt(data, p, U32(|vs|));
    AvailableAt(data, p + 4, WrittenValues(vs));
  }

  lemma RestoredFrom(bytes: seq<byte>, buffer: seq<Value>, vs: seq<Value>)
    requires bytes == WrittenValues(vs) && |buffer| == |vs|
    requires forall i :: 0 <= i < |bytes| / 8 ==> buffer[i] == DecodeValue(bytes[8 * i..8 * i + 8])
    ensures Restored(buffer, vs) && (|vs| < SPAN ==> buffer == vs)
  {
    hide EncodeValues, DecodeValue;
    forall i | 0 <= i < |vs| % SPAN ensures buffer[i] == vs[i] {
      DecodedAt(vs, i);
      assert bytes[8 * i..8 * i + 8] == EncodeValues(vs)[8 * i..8 * i + 8];
    }
  }

  method Decode(bytes: seq<byte>, count: nat) returns (vs: seq<Value>)
    requires |bytes| <= 8 * count
    ensures |vs| == count
    ensures forall i :: 0 <= i < |bytes| / 8 ==> vs[i] == DecodeValue(bytes[8 * i..8 * i + 8])
  {
    var buffer := new Value[count];
    var i: nat := 0;
    while i < |bytes| / 8
      invariant i <= |bytes| / 8
      invariant forall j :: 0 <= j < i ==> buffer[j] == DecodeValue(bytes[8 * j..8 * j + 8])
    {
      buffer[i] := DecodeValue(bytes[8 * i..8 * i + 8]);
      i := i + 1;
    }
    vs := buffer[..];
  }

  /** A list written to a file is read back with all the values that were written, and as it was if it has fewer than
      2^29. */
  method WriteAndRead(list: LinkList<Value>) returns (vs: seq<Value>)
    requires list.Valid() && |list.contents| < WORD
    modifies list
    ensures Restored(vs, old(list.contents)) && list.contents == []
    ensures |old(list.contents)| < SPAN ==> vs == old(list.contents)
  {
    hide LinkList.Valid, EncodeList;
    var fp := new Stream([]);
    ghost var contents := list.contents;
    ghost var freed := WriteList(list, fp);
    assert fp.data == EncodeList(contents);
    vs := ReadList(fp, []);
    assert vs[0..] == vs;
  }

  lemma {:induction false} EncodedPart(vs: seq<Value>, k: nat)
    requires k <= |vs|
    ensures EncodeValues(vs)[..8 * k] == EncodeValues(vs[..k])
    decreases |vs|
  {
    if k < |vs| {
      var init := vs[..|vs| - 1];
      EncodedPart(init, k);
      assert EncodeValues(vs)[..8 * k] == EncodeValues(init)[..8 * k];
      assert init[..k] == vs[..k];
    } else {
      assert vs[..k] == vs;
    }
  }

  /** Lists of one length that agree as far as their values are written have the same image. */
  lemma SameImage(vs: seq<Value>, ws: seq<Value>)
    requires Restored(ws, vs)
    ensures EncodeList(vs) == EncodeList(ws)
  {
    EncodedPart(vs, |vs| % SPAN);
    EncodedPart(ws, |vs| % SPAN);
    assert vs[..|vs| % SPAN] == ws[..|vs| % SPAN];
  }

  /** The image of a list of n values determines it. */
  ghost predicate Determined(n: nat) {
    forall vs: seq<Value>, ws: seq<Value> :: |vs| == n == |ws| && EncodeList(vs) == EncodeList(ws) ==> vs == ws
  }

  /** No reader can restore what write2file writes unless the list has fewer than 2^29 values: of n values only n modulo
      2^29 are written. */
  lemma RestoredExactly(n: nat)
    ensures Determined(n) <==> n < SPAN
  {
    if n < SPAN {
      forall vs: seq<Value>, ws: seq<Value> | |vs| == n == |ws| && EncodeList(vs) == EncodeList(ws) ensures vs == ws {
        SameValues(vs, ws);
      }
    } else {
      var vs := seq(n, _ => Value(0, 0));
      var ws := vs[n - 1 := Value(1, 0)];
      SameImage(vs, ws);
      assert vs[n - 1] != ws[n - 1];
    }
  }

  lemma SameValues(vs: seq<Value>, ws: seq<Value>)
    requires |vs| == |ws| < SPAN && EncodeList(vs) == EncodeList(ws)
    ensures vs == ws
  {
    hide U32, EncodeValues, DecodeValue;
    assert EncodeValues(vs) == EncodeList(vs)[4..] && EncodeValues(ws) == EncodeList(ws)[4..];
    forall i | 0 <= i < |vs| ensures vs[i] == ws[i] {
      DecodedAt(vs, i);
      DecodedAt(ws, i);
    }
  }
}
