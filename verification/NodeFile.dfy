/** The image of a trie node in an index file: kind, slot count, bitmap, offsets and, for a leaf, its lists. */
module NodeFiles {
  import opened Bitmaps
  import opened Bytes
  import opened Enumerate
  import opened FlowLog
  import opened LinkLists
  import opened ListFiles
  import opened TrieNodes
  import opened Words

  function U32s(xs: seq<nat>): (bs: seq<byte>)
    ensures |bs| == 4 * |xs|
  {
    if xs == [] then [] else U32s(xs[..|xs| - 1]) + U32(xs[|xs| - 1])
  }

  lemma {:induction false} U32sPart(xs: seq<nat>, k: nat)
    requires k < |xs|
    ensures U32s(xs)[4 * k..4 * k + 4] == U32(xs[k])
  {
    hide U32;
    var init := xs[..|xs| - 1];
    if k < |xs| - 1 {
      U32sPart(init, k);
      assert U32s(xs)[4 * k..4 * k + 4] == U32s(init)[4 * k..4 * k + 4];
    }
  }

  lemma U32sSnoc(xs: seq<nat>, x: nat)
    ensures U32s(xs + [x]) == U32s(xs) + U32(x)
  {
    assert (xs + [x])[..|xs|] == xs;
  }

  /** The part of a node's image in front of the offsets. */
  function Header(leaf: bool, count: nat, words: seq<nat>): (bs: seq<byte>)
    ensures |bs| == 7 + 4 * |words|
  {
    [if leaf then 1 else 0] + U16(count) + U32(|words|) + U32s(words)
  }

  /** The values of a slot. */
  function Held(values: seq<seq<Value>>, slot: nat): seq<Value> {
    if slot < |values| then values[slot] else []
  }

  /** The total size of the lists of the given slots. */
  function ListsSize(slots: seq<nat>, values: seq<seq<Value>>): nat {
    if slots == [] then 0
    else ListsSize(slots[..|slots| - 1], values) + ListSize(Held(values, slots[|slots| - 1]))
  }

  /** The lists of the given slots, one after the other. */
  function Lists(slots: seq<nat>, values: seq<seq<Value>>): (bs: seq<byte>)
    ensures |bs| == ListsSize(slots, values)
  {
    if slots == [] then []
    else Lists(slots[..|slots| - 1], values) + EncodeList(Held(values, slots[|slots| - 1]))
  }

  /** The distance of every list from the first. */
  function ListOffsets(slots: seq<nat>, values: seq<seq<Value>>): (offs: seq<nat>)
    ensures |offs| == |slots|
  {
    if slots == [] then []
    else var init := slots[..|slots| - 1]; ListOffsets(init, values) + [ListsSize(init, values) % WORD]
  }

  /** The bytes a node takes in a file. */
  function NodeSize(leaf: bool, bits: set<nat>, values: seq<seq<Value>>): nat {
    39 + 4 * |bits| + if leaf then ListsSize(Ascending(bits, MAX_PER_NODE), values) else 0
  }

  lemma SizeSnoc(slots: seq<nat>, slot: nat, values: seq<seq<Value>>)
    ensures ListsSize(slots + [slot], values) == ListsSize(slots, values) + ListSize(Held(values, slot))
    ensures Lists(slots + [slot], values) == Lists(slots, values) + EncodeList(Held(values, slot))
    ensures ListOffsets(slots + [slot], values) == ListOffsets(slots, values) + [ListsSize(slots, values) % WORD]
  {
    assert (slots + [slot])[..|slots|] == slots;
  }

  /** Addition on uint32_t. */
  lemma WrapAdd(x: nat, y: nat)
    ensures (x % WORD + y % WORD) % WORD == (x + y) % WORD
    ensures (x % WORD + y) % WORD == (x + y) % WORD
  {}

  // ---- writing ----

  /** dump2file: the number of words, then the words. */
  method DumpBitmap(bitmap: Bitmap, fp: Stream)
    requires bitmap.Valid()
    modifies fp`data
    ensures fp.data == old(fp.data) + U32(bitmap.elemSize) + U32s(bitmap.byteArray[..])
  {
    fp.Write(U32(bitmap.elemSize));
    fp.Write(U32s(bitmap.byteArray[..]));
  }

  method WriteHeader(node: TrieNode, fp: Stream)
    requires node.Shape()
    modifies fp`data
    ensures fp.data == old(fp.data) + Header(node.isLeaf, node.elemCount, node.bitmap.byteArray[..])
  {
    hide U32, U16, U32s, Ascending;
    fp.Write([if node.isLeaf then 1 else 0]);
    fp.Write(U16(node.elemCount));
    DumpBitmap(node.bitmap, fp);
  }

  /** write2file of an inner node: setFileOffset has to be called first, every time. */
  method WriteInner(node: TrieNode, fp: Stream)
    requires node.Shape() && !node.isLeaf && node.fileOffArray != null && node.elemCount <= node.fileOffArray.Length
    modifies node`fileOffArray, fp`data
    ensures fp.data == old(fp.data) + Header(false, node.elemCount, node.bitmap.byteArray[..])
                       + U32s(old(node.fileOffArray[..node.elemCount]))
    ensures node.fileOffArray == null
  {
    hide Header, U32s;
    WriteHeader(node, fp);
    fp.Write(U32s(node.fileOffArray[..node.elemCount]));
    node.fileOffArray := null;
  }

  /** Writes one list of a leaf and releases its chunks; the other lists do not notice. */
  method WriteOneList(list: LinkList<Value>, fp: Stream,
                      ghost lists: seq<LinkList?<Value>>, ghost values: seq<seq<Value>>, ghost space: set<object>,
                          ghost pos: nat)
    requires ListsShow(lists, values, space) && pos < |lists| && lists[pos] == list && fp !in space
    modifies space, fp`data
    ensures ListsShow(lists, values[pos := []], space)
    ensures fp.data == old(fp.data) + EncodeList(values[pos])
  {
    hide LinkList.Valid, EncodeList;
    ghost var freed := WriteList(list, fp);
    forall b | 0 <= b < |lists| && lists[b] != null && b != pos
      ensures lists[b].Repr == old(lists[b].Repr) && lists[b].Repr !! list.Repr
      ensures lists[b].Valid() && lists[b].contents == values[b]
    {
      assert old(lists[b].Repr !! list.Repr);
    }
  }

  lemma Positions(node: TrieNode)
    requires node.Shape() && node.view.listed && node.view.accurate
    ensures node.bitPosition != null
            && node.elemCount == |Ascending(node.view.bits, MAX_PER_NODE)| <= node.bitPosition.Length
    ensures forall k :: 0 <= k < node.elemCount ==>
              node.bitPosition[k] == Ascending(node.view.bits, MAX_PER_NODE)[k] < MAX_PER_NODE
  {
    hide Ascending, Bitmap.Valid;
    AscendingIsSortedEnumeration(node.view.bits, MAX_PER_NODE);
    AscendingCountAllOf(node);
    forall k | 0 <= k < node.elemCount
      ensures node.bitPosition[k] == Ascending(node.view.bits, MAX_PER_NODE)[k] < MAX_PER_NODE
    {
      assert node.bitPosition[..node.elemCount][k] == Ascending(node.view.bits, MAX_PER_NODE)[k];
      assert Ascending(node.view.bits, MAX_PER_NODE)[k] in Ascending(node.view.bits, MAX_PER_NODE);
    }
  }

  lemma AscendingCountAllOf(node: TrieNode)
    requires node.Shape()
    ensures node.elemCount == |Ascending(node.view.bits, MAX_PER_NODE)| <= MAX_PER_NODE
  {
    hide Ascending;
    AscendingCountAll(node.view.bits, MAX_PER_NODE);
    AscendingLength(node.view.bits, MAX_PER_NODE);
  }

  lemma SlotInBits(bits: set<nat>, k: nat)
    requires k < |Ascending(bits, MAX_PER_NODE)|
    ensures Ascending(bits, MAX_PER_NODE)[k] in bits && Ascending(bits, MAX_PER_NODE)[k] < MAX_PER_NODE
  {
    hide Ascending;
    AscendingIsSortedEnumeration(bits, MAX_PER_NODE);
    assert Ascending(bits, MAX_PER_NODE)[k] in Ascending(bits, MAX_PER_NODE);
  }

  /** The size of the list in a taken slot. */
  method SizeOfSlot(node: TrieNode, slot: nat) returns (size: nat)
    requires node.Valid() && node.isLeaf && slot < MAX_PER_NODE && slot in node.view.bits
    ensures size == ListSize(Held(node.view.values, slot)) % WORD
  {
    hide TrieNode.Valid, LinkList.Valid, LinkList.Chunked, LinkList.Linked;
    LeafLists(node, slot);
    size := SizeOfList(node.resultArray[slot]);
  }

  lemma OffsetsStep(slots: seq<nat>, i: nat, values: seq<seq<Value>>)
    requires i < |slots|
    ensures U32s(ListOffsets(slots[..i + 1], values))
            == U32s(ListOffsets(slots[..i], values)) + U32(ListsSize(slots[..i], values) % WORD)
    ensures (ListsSize(slots[..i], values) % WORD + ListSize(Held(values, slots[i])) % WORD) % WORD
            == ListsSize(slots[..i + 1], values) % WORD
  {
    hide U32, U32s, ListOffsets, ListsSize, ListSize, Held, Lists;
    SizeSnoc(slots[..i], slots[i], values);
    assert slots[..i + 1] == slots[..i] + [slots[i]];
    U32sSnoc(ListOffsets(slots[..i], values), ListsSize(slots[..i], values) % WORD);
    WrapAdd(ListsSize(slots[..i], values), ListSize(Held(values, slots[i])));
  }

  /** The offsets of a leaf's lists, relative to the first list. */
  method WriteOffsets(node: TrieNode, fp: Stream)
    requires node.Valid() && node.isLeaf && node.view.listed && node.view.accurate && fp !in node.Repr
    modifies fp`data
    ensures node.Valid()
    ensures fp.data == old(fp.data) + U32s(ListOffsets(Ascending(node.view.bits, MAX_PER_NODE), node.view.values))
  {
    hide TrieNode.Valid, TrieNode.Shape, Ascending, U32, U32s, ListsSize, ListOffsets, ListSize, Held;
    node.HasShape();
    Positions(node);
    ghost var slots, values := Ascending(node.view.bits, MAX_PER_NODE), node.view.values;
    var offset: nat, i := 0, 0;
    OffsetsStart(values);
    while i < node.elemCount
      invariant node.Valid() && 0 <= i <= node.elemCount && offset == ListsSize(slots[..i], values) % WORD
      invariant fp.data == old(fp.data) + U32s(ListOffsets(slots[..i], values))
    {
      SlotInBits(node.view.bits, i);
      OffsetsStep(slots, i, values);
      fp.Write(U32(offset));
      var size := SizeOfSlot(node, node.bitPosition[i]);
      offset := (offset + size) % WORD;
      i := i + 1;
    }
    assert slots[..i] == slots;
  }

  lemma OffsetsStart(values: seq<seq<Value>>)
    ensures ListsSize([], values) == 0 && Lists([], values) == [] && U32s(ListOffsets([], values)) == []
  {}

  /** LinkList::getSizeOfFile. */
  method SizeOfList(list: LinkList<Value>) returns (size: nat)
    requires list.Valid()
    ensures size == ListSize(list.contents) % WORD
  {
    size := (4 + list.nodeCount * 8) % WORD;
    WrapAdd(list.nodeCount * 8, 4);
  }

  method WriteSlot(node: TrieNode, slot: nat, fp: Stream)
    requires node.Valid() && node.isLeaf && slot < MAX_PER_NODE && slot in node.view.bits && fp !in node.Repr
    modifies node.space, node`view, fp`data
    ensures node.Valid() && node.view == old(node.view).(values := old(node.view.values)[slot := []])
    ensures fp.data == old(fp.data) + EncodeList(old(node.view.values)[slot])
    ensures node.Repr == old(node.Repr) && node.space == old(node.space) && node.elemCount == old(node.elemCount)
  {
    hide LinkList.Valid, Bitmap.Valid, TrieNode.CacheFresh, ListsShow, EncodeList;
    WriteOneList(node.resultArray[slot], fp, node.resultArray[..], node.view.values, node.space, slot);
    node.view := node.view.(values := node.view.values[slot := []]);
  }

  /** The values once the lists of the given slots have been written, and emptied. */
  ghost predicate Drained(slots: seq<nat>, i: nat, before: seq<seq<Value>>, now: seq<seq<Value>>)
    requires i <= |slots|
  {
    |now| == |before| && forall b :: 0 <= b < |now| ==> now[b] == if b in slots[..i] then [] else before[b]
  }

  lemma DrainedStep(slots: seq<nat>, i: nat, before: seq<seq<Value>>, now: seq<seq<Value>>)
    requires i < |slots| && slots[i] < |now| && StrictlyAscending(slots) && Drained(slots, i, before, now)
    ensures now[slots[i]] == Held(before, slots[i])
    ensures Drained(slots, i + 1, before, now[slots[i] := []])
    ensures Lists(slots[..i + 1], before) == Lists(slots[..i], before) + EncodeList(now[slots[i]])
  {
    hide EncodeList, Lists, ListsSize, ListOffsets;
    assert slots[..i + 1] == slots[..i] + [slots[i]];
    SizeSnoc(slots[..i], slots[i], before);
  }

  lemma DrainedStart(slots: seq<nat>, before: seq<seq<Value>>)
    ensures Drained(slots, 0, before, before) && Lists(slots[..0], before) == []
  {}

  lemma DrainedAll(node: TrieNode, before: seq<seq<Value>>, now: seq<seq<Value>>)
    requires node.Valid() && node.isLeaf && |before| == MAX_PER_NODE
    requires forall b :: 0 <= b < MAX_PER_NODE && b !in node.view.bits ==> before[b] == []
    requires var slots := Ascending(node.view.bits, MAX_PER_NODE); Drained(slots, |slots|, before, now)
    ensures now == seq(MAX_PER_NODE, _ => [])
  {
    hide TrieNode.Valid, Ascending;
    AscendingIsSortedEnumeration(node.view.bits, MAX_PER_NODE);
    var slots := Ascending(node.view.bits, MAX_PER_NODE);
    assert slots[..|slots|] == slots;
  }

  lemma FreeSlotsHoldNothing(node: TrieNode)
    requires node.Valid() && node.isLeaf
    ensures |node.view.values| == MAX_PER_NODE
    ensures forall b :: 0 <= b < MAX_PER_NODE && b !in node.view.bits ==> node.view.values[b] == []
  {
    hide TrieNode.Valid;
    forall b | 0 <= b < MAX_PER_NODE && b !in node.view.bits ensures node.view.values[b] == [] {
      LeafLists(node, b);
    }
  }

  /** Writes the lists of a leaf, which are empty afterwards. */
  method WriteLists(node: TrieNode, fp: Stream)
    requires node.Valid() && node.isLeaf && node.view.listed && node.view.accurate && fp !in node.Repr
    modifies node.space, node`view, fp`data
    ensures node.Valid() && node.view == old(node.view).(values := seq(MAX_PER_NODE, _ => []))
    ensures fp.data == old(fp.data) + Lists(Ascending(old(node.view.bits), MAX_PER_NODE), old(node.view.values))
    ensures node.Repr == old(node.Repr)
  {
    hide TrieNode.Valid, TrieNode.Shape, Ascending, Lists, Drained, EncodeList;
    FreeSlotsHoldNothing(node);
    node.HasShape();
    ghost var slots, values := Ascending(node.view.bits, MAX_PER_NODE), node.view.values;
    AscendingIsSortedEnumeration(node.view.bits, MAX_PER_NODE);
    Positions(node);
    DrainedStart(slots, values);
    var i := 0;
    while i < node.elemCount
      invariant node.Valid() && 0 <= i <= node.elemCount == |slots| && Drained(slots, i, values, node.view.values)
      invariant node.view == old(node.view).(values := node.view.values)
      invariant fp.data == old(fp.data) + Lists(slots[..i], values)
      invariant node.Repr == old(node.Repr) && node.space == old(node.space)
      decreases |slots| - i
    {
      node.HasShape();
      Positions(node);
      SlotInBits(node.view.bits, i);
      FreeSlotsHoldNothing(node);
      DrainedStep(slots, i, values, node.view.values);
      WriteSlot(node, node.bitPosition[i], fp);
      i := i + 1;
    }
    DrainedAll(node, values, node.view.values);
    assert slots[..i] == slots;
  }

  /** write2file of a leaf. */
  method WriteLeaf(node: TrieNode, fp: Stream)
    requires node.Valid() && node.isLeaf && fp !in node.Repr
    modifies node`bitPosition, node`Repr, node.space, node`view, fp`data
    ensures node.Valid() && fresh(node.Repr - old(node.Repr)) && old(node.Repr) <= node.Repr
    ensures node.view == old(node.view).(listed := true, accurate := true, values := seq(MAX_PER_NODE, _ => []))
    ensures var slots := Ascending(old(node.view.bits), MAX_PER_NODE);
            fp.data == old(fp.data) + Header(true, |slots|, old(node.bitmap.byteArray[..]))
                       + U32s(ListOffsets(slots, old(node.view.values))) + Lists(slots, old(node.view.values))
  {
    hide TrieNode.Valid, TrieNode.Shape, Ascending, Lists, EncodeList, Header, U32s, ListOffsets;
    node.HasShape();
    AscendingCountAllOf(node);
    WriteHeader(node, fp);
    node.GetBitPosition();
    WriteOffsets(node, fp);
    WriteLists(node, fp);
  }

  // ---- sizes ----

  lemma SizeStep(slots: seq<nat>, i: nat, values: seq<seq<Value>>, start: nat)
    requires i < |slots|
    ensures ((start + ListsSize(slots[..i], values)) % WORD + ListSize(Held(values, slots[i])) % WORD) % WORD
            == (start + ListsSize(slots[..i + 1], values)) % WORD
  {
    hide ListSize, Held, Lists, ListOffsets, ListsSize;
    assert slots[..i + 1] == slots[..i] + [slots[i]];
    SizeSnoc(slots[..i], slots[i], values);
    WrapAdd(start + ListsSize(slots[..i], values), ListSize(Held(values, slots[i])));
  }

  lemma SizeStart(slots: seq<nat>, values: seq<seq<Value>>)
    ensures ListsSize(slots[..0], values) == 0
  {}

  /** A leaf with many slots: their positions are listed. */
  method DenseSize(node: TrieNode, start: nat) returns (size: nat)
    requires node.Valid() && node.isLeaf && node.view.accurate && start < WORD
    modifies node`bitPosition, node`view, node`Repr
    ensures node.Valid() && fresh(node.Repr - old(node.Repr)) && old(node.Repr) <= node.Repr
    ensures node.view == old(node.view).(listed := node.view.listed)
    ensures size == (start + ListsSize(Ascending(node.view.bits, MAX_PER_NODE), node.view.values)) % WORD
  {
    hide TrieNode.Valid, TrieNode.Shape, Ascending, ListsSize, ListSize, Held;
    AscendingCountAllOfValid(node);
    ghost var slots, values := Ascending(node.view.bits, MAX_PER_NODE), node.view.values;
    SizeStart(slots, values);
    size := start;
    var i := 0;
    while i < node.elemCount
      invariant node.Valid() && fresh(node.Repr - old(node.Repr)) && old(node.Repr) <= node.Repr
      invariant node.view == old(node.view).(listed := node.view.listed) && 0 <= i <= node.elemCount
      invariant size == (start + ListsSize(slots[..i], values)) % WORD
    {
      node.HasShape();
      SlotInBits(node.view.bits, i);
      SizeStep(slots, i, values, start);
      var pos := node.GetOnePosition(i);
      var listSize := SizeOfSlot(node, pos);
      size := (size + listSize) % WORD;
      i := i + 1;
    }
    assert slots[..i] == slots;
  }

  lemma AscendingCountAllOfValid(node: TrieNode)
    requires node.Valid()
    ensures node.elemCount == |Ascending(node.view.bits, MAX_PER_NODE)| == |node.view.bits| <= MAX_PER_NODE
  {
    hide TrieNode.Valid, TrieNode.Shape, Ascending;
    node.HasShape();
    AscendingCountAllOf(node);
  }

  /** A leaf with few slots: all bits are looked at. */
  method SparseSize(node: TrieNode, start: nat) returns (size: nat)
    requires node.Valid() && node.isLeaf && start < WORD
    ensures size == (start + ListsSize(Ascending(node.view.bits, MAX_PER_NODE), node.view.values)) % WORD
  {
    hide TrieNode.Valid, TrieNode.Shape, Ascending, ListsSize, ListSize, Held, Lists, ListOffsets;
    ghost var bits, values := node.view.bits, node.view.values;
    SizeStart([], values);
    NoneBelowZero(bits);
    size := start;
    var i: nat := 0;
    while i < MAX_PER_NODE
      invariant i <= MAX_PER_NODE && size == (start + ListsSize(Ascending(bits, i), values)) % WORD
    {
      AscendingStep(bits, i);
      var taken := node.HasChildren(i);
      if taken {
        SizeSnoc(Ascending(bits, i), i, values);
        WrapAdd(start + ListsSize(Ascending(bits, i), values), ListSize(Held(values, i)));
        var listSize := SizeOfSlot(node, i);
        size := (size + listSize) % WORD;
      }
      i := i + 1;
    }
  }

  lemma NoneBelowZero(bits: set<nat>)
    ensures Ascending(bits, 0) == []
  {}

  /** getSizeOfFile: the size of the node's image, as a 32-bit number. */
  method SizeOfFile(node: TrieNode) returns (size: nat)
    requires node.Valid() && node.view.accurate
    modifies node`bitPosition, node`view, node`Repr
    ensures node.Valid() && fresh(node.Repr - old(node.Repr)) && old(node.Repr) <= node.Repr
    ensures node.view == old(node.view).(listed := node.view.listed)
    ensures size == NodeSize(node.isLeaf, node.view.bits, node.view.values) % WORD
  {
    hide TrieNode.Valid, TrieNode.Shape, Ascending, ListsSize;
    AscendingCountAllOfValid(node);
    BitmapSize(node);
    size := 2 + 1;
    size := size + node.bitmap.GetSizeOfFile();
    size := size + node.elemCount * 4;
    if node.isLeaf {
      if node.elemCount >= MAX_PER_NODE / 2 {
        size := DenseSize(node, size);
      } else {
        size := SparseSize(node, size);
      }
    }
  }

  lemma BitmapSize(node: TrieNode)
    requires node.Valid()
    ensures node.bitmap.GetSizeOfFile() == 36
  {}

  // ---- reading ----

  /** A node's image without its lists is at position p: kind, taken slots, offsets. */
  ghost predicate NodeAt(data: seq<byte>, p: nat, leaf: bool, bits: set<nat>, offs: seq<nat>) {
    && |offs| == |bits| && (forall o :: o in offs ==> o < WORD)
    && exists words :: |words| == 8 && WordsHold(words, bits) && At(data, p, Header(leaf, |bits|, words) + U32s(offs))
  }

  /** The layout of a node's image without its lists: one byte for the kind, two for the number of slots, four for the
      number of words of the bitmap, the words, and four bytes for every offset. */
  ghost predicate NodeLaidOut(data: seq<byte>, p: nat, leaf: bool, bits: set<nat>, offs: seq<nat>) {
    && p + 39 + 4 * |offs| <= |data| && |offs| == |bits|
    && data[p] == (if leaf then 1 else 0) && Num16(data, p + 1) == |bits| && Num32(data, p + 3) == 8
    && BitsLaidOut(data, p + 7, bits) && NumbersLaidOut(data, p + 39, offs)
  }

  ghost predicate BitsLaidOut(data: seq<byte>, p: nat, bits: set<nat>)
    requires p + 32 <= |data|
  {
    forall w, b :: 0 <= w < 8 && 0 <= b < 32 ==> (32 * w + b in bits <==> Bit(Word32(data, p, w), b))
  }

  ghost predicate NumbersLaidOut(data: seq<byte>, p: nat, xs: seq<nat>)
    requires p + 4 * |xs| <= |data|
  {
    forall k :: 0 <= k < |xs| ==> Word32(data, p, k) == xs[k]
  }

  /** Words in a file. */
  lemma NumbersAreLaidOut(data: seq<byte>, p: nat, xs: seq<nat>)
    requires At(data, p, U32s(xs)) && forall x :: x in xs ==> x < WORD
    ensures p + 4 * |xs| <= |data| && NumbersLaidOut(data, p, xs)
  {
    hide U32s, Word32, At;
    AtInside(data, p, U32s(xs));
    forall k | 0 <= k < |xs| ensures Word32(data, p, k) == xs[k] {
      assert xs[k] in xs;
      NumberIsLaidOut(data, p, xs, k);
    }
  }

  lemma AtInside(data: seq<byte>, p: nat, bs: seq<byte>)
    requires At(data, p, bs)
    ensures p + |bs| <= |data|
  {}

  lemma NumberIsLaidOut(data: seq<byte>, p: nat, xs: seq<nat>, k: nat)
    requires At(data, p, U32s(xs)) && k < |xs| && xs[k] < WORD && p + 4 * |xs| <= |data|
    ensures Word32(data, p, k) == xs[k]
  {
    hide U32s, At, FromLE, Word32;
    U32sRoundTrip(xs, k);
    U32sSize(xs);
    WordIs(data, p, U32s(xs), k, xs[k]);
  }

  lemma U32sSize(xs: seq<nat>)
    ensures |U32s(xs)| == 4 * |xs|
  {}

  lemma WordIs(data: seq<byte>, p: nat, bs: seq<byte>, k: nat, x: nat)
    requires At(data, p, bs) && 4 * k + 4 <= |bs| && FromLE(bs[4 * k..4 * k + 4]) == x
    ensures p + 4 * k + 4 <= |data| && Word32(data, p, k) == x
  {
    hide FromLE, At, Num32;
    PartIsNumber(data, p, bs, 4 * k);
  }

  lemma PartIsNumber(data: seq<byte>, p: nat, bs: seq<byte>, i: nat)
    requires At(data, p, bs) && i + 4 <= |bs|
    ensures p + i + 4 <= |data| && Num32(data, p + i) == FromLE(bs[i..i + 4])
  {
    hide FromLE;
    AtPart(data, p, bs, i, 4);
    var part, found := bs[i..i + 4], data[p + i..p + i + 4];
    Num32Is(part);
    assert data[p + i] == found[0] && data[p + i + 1] == found[1] && data[p + i + 2] == found[2]
           && data[p + i + 3] == found[3];
  }

  /** A node's image is laid out like that. */
  lemma NodeIsLaidOut(data: seq<byte>, p: nat, leaf: bool, bits: set<nat>, offs: seq<nat>)
    requires NodeAt(data, p, leaf, bits, offs)
    ensures NodeLaidOut(data, p, leaf, bits, offs)
  {
    hide U32s, U32, U16, Num32, Num16, Header, Word32;
    var words :| |words| == 8 && WordsHold(words, bits) && At(data, p, Header(leaf, |bits|, words) + U32s(offs));
    AtParts(data, p, leaf, |bits|, words, offs);
    CountFits(bits, words);
    Num16At(data, p + 1, |bits|);
    Num32At(data, p + 3, 8);
    KindAt(data, p, if leaf then 1 else 0);
    hide At;
    NumbersAreLaidOut(data, p + 7, words);
    NumbersAreLaidOut(data, p + 39, offs);
  }

  lemma KindAt(data: seq<byte>, p: nat, kind: byte)
    requires At(data, p, [kind])
    ensures p < |data| && data[p] == kind
  {
    assert data[p..p + 1][0] == kind;
  }

  /** An in-memory copy of such an image. */
  ghost predicate Loaded(node: TrieNode, leaf: bool, bits: set<nat>, offs: seq<nat>)
    reads node, node.Repr, node.fileOffArray
  {
    && node.Shape() && node.isLeaf == leaf && node.view.bits == bits && node.view.accurate
    && node.fileOffArray != null && node.fileOffArray[..] == offs && |offs| == |bits|
  }

  lemma U32sRoundTrip(xs: seq<nat>, k: nat)
    requires k < |xs| && xs[k] < WORD
    ensures FromLE(U32s(xs)[4 * k..4 * k + 4]) == xs[k]
  {
    hide FromLE, U32;
    U32sPart(xs, k);
    U32RoundTrip(xs[k]);
  }

  /** fread of n words. */
  method ReadU32s(fp: Stream, n: nat, ghost xs: seq<nat>) returns (words: array<nat>)
    requires |xs| == n && (forall x :: x in xs ==> x < WORD) && At(fp.data, fp.pos, U32s(xs))
    modifies fp`pos
    ensures fresh(words) && words[..] == xs && fp.pos == old(fp.pos) + 4 * n
  {
    assert |U32s(xs)| == 4 * n;
    hide FromLE, U32s, U32;
    AvailableAt(fp.data, fp.pos, U32s(xs));
    var bytes := fp.Read(4 * n);
    words := new nat[n];
    var i := 0;
    while i < n
      invariant 0 <= i <= n && forall k :: 0 <= k < i ==> words[k] == xs[k]
      modifies words
    {
      assert xs[i] in xs;
      U32sRoundTrip(xs, i);
      words[i] := FromLE(bytes[4 * i..4 * i + 4]);
      i := i + 1;
    }
  }

  lemma AtParts(data: seq<byte>, p: nat, leaf: bool, count: nat, words: seq<nat>, offs: seq<nat>)
    requires |words| == 8 && At(data, p, Header(leaf, count, words) + U32s(offs))
    ensures At(data, p, [if leaf then 1 else 0]) && At(data, p + 1, U16(count)) && At(data, p + 3, U32(|words|))
    ensures At(data, p + 7, U32s(words)) && At(data, p + 39, U32s(offs))
  {
    hide At, U16, U32, U32s;
    var kind: seq<byte> := [if leaf then 1 else 0];
    AtConcat(data, p, Header(leaf, count, words), p + 39, U32s(offs));
    AtConcat(data, p, kind + U16(count) + U32(|words|), p + 7, U32s(words));
    AtConcat(data, p, kind + U16(count), p + 3, U32(|words|));
    AtConcat(data, p, kind, p + 1, U16(count));
  }

  /** readFromFile of a bitmap. */
  method ReadBitmap(bitmap: Bitmap, fp: Stream, ghost words: seq<nat>, ghost bits: set<nat>)
    requires |words| == 8 && WordsHold(words, bits) && At(fp.data, fp.pos, U32(|words|))
             && At(fp.data, fp.pos + 4, U32s(words))
    modifies bitmap, fp`pos
    ensures bitmap.Valid() && bitmap.bits == bits && bitmap.bitSize == MAX_PER_NODE && fresh(bitmap.byteArray)
    ensures fp.pos == old(fp.pos) + 36
  {
    hide FromLE, U32s, U32, At;
    AvailableAt(fp.data, fp.pos, U32(|words|));
    U32RoundTrip(|words|);
    var head := fp.Read(4);
    bitmap.elemSize := FromLE(head);
    bitmap.bitSize := bitmap.elemSize * 32;
    bitmap.byteArray := ReadU32s(fp, bitmap.elemSize, words);
    bitmap.bits := bits;
  }

  lemma CountFits(bits: set<nat>, words: seq<nat>)
    requires |words| == 8 && WordsHold(words, bits)
    ensures |bits| <= MAX_PER_NODE
  {
    BitsFit(bits);
  }

  /** readTrieNode: makes a node of the right kind and fills it from its image. */
  method ReadNode(fp: Stream, ghost leaf: bool, ghost bits: set<nat>, ghost offs: seq<nat>) returns (node: TrieNode)
    requires NodeAt(fp.data, fp.pos, leaf, bits, offs)
    modifies fp`pos
    ensures Loaded(node, leaf, bits, offs) && fresh(node) && fresh(node.Repr) && fresh(node.fileOffArray)
    ensures fp.pos == old(fp.pos) + 39 + 4 * |offs|
  {
    hide FromLE, U32s, U32, U16, At, Header, WordsHold, TrieNode.Valid, ListsShow;
    ghost var words :| |words| == 8 && WordsHold(words, bits)
        && At(fp.data, fp.pos, Header(leaf, |bits|, words) + U32s(offs));
    AtParts(fp.data, fp.pos, leaf, |bits|, words, offs);
    CountFits(bits, words);
    U16RoundTrip(|bits|);
    AvailableAt(fp.data, fp.pos, [if leaf then 1 else 0]);
    AvailableAt(fp.data, fp.pos + 1, U16(|bits|));
    var kind := fp.Read(1);
    node := new TrieNode(kind[0] != 0);
    node.HasShape();
    FillNode(node, fp, words, bits, offs);
  }

  /** readFromFile of a node. */
  method FillNode(node: TrieNode, fp: Stream, ghost words: seq<nat>, ghost bits: set<nat>, ghost offs: seq<nat>)
    requires node.Shape() && node.bitPosition == null && fp !in node.Repr
    requires |words| == 8 && WordsHold(words, bits) && |bits| == |offs| <= MAX_PER_NODE
             && (forall o :: o in offs ==> o < WORD)
    requires At(fp.data, fp.pos, U16(|bits|)) && At(fp.data, fp.pos + 2, U32(|words|))
    requires At(fp.data, fp.pos + 6, U32s(words)) && At(fp.data, fp.pos + 38, U32s(offs))
    modifies node, node.bitmap, fp`pos
    ensures Loaded(node, node.isLeaf, bits, offs) && fresh(node.Repr - old(node.Repr)) && fresh(node.fileOffArray)
    ensures fp.pos == old(fp.pos) + 38 + 4 * |offs|
  {
    hide FromLE, U32s, U32, U16, At, Header, WordsHold, ListsShow;
    U16RoundTrip(|bits|);
    AvailableAt(fp.data, fp.pos, U16(|bits|));
    var count := fp.Read(2);
    node.elemCount := FromLE(count);
    ReadBitmap(node.bitmap, fp, words, bits);
    node.fileOffArray := ReadU32s(fp, node.elemCount, offs);
    node.view := node.view.(bits := bits, accurate := true);
    node.Repr := node.Repr + {node.bitmap.byteArray};
  }
}
