/** Range queries on a trie written to a file. */
module TrieReads {
  import opened Bytes
  import opened Enumerate
  import opened FlowLog
  import opened ListFiles
  import opened NodeFiles
  import opened Radix
  import opened TrieImages
  import opened TrieLevels
  import opened TrieNodes
  import opened TriePaths
  import opened TrieWalks
  import opened TrieQueries
  import opened TrieWriters
  import opened Words

  /** No key has so many values that the size of its list leaves 32 bits. */
  predicate ShortLists(log: Log) {
    forall e :: e in log ==> |ValuesOf(log, e.key)| < SPAN
  }

  lemma ShortList(log: Log, key: nat)
    requires ShortLists(log)
    ensures |ValuesOf(log, key)| < SPAN
  {
    hide ValuesOf;
    ValuesOfNone(log, key);
  }

  /** A file of less than 4 GiB that holds the log's trie with whole lists. */
  ghost predicate Represents(data: seq<byte>, log: Log, d: nat, at: Places) {
    && Written(data, log, d, at) && Ended(|data|, log, d, at)
    && |data| < WORD && d >= 1 && KeysFit(log, d) && ShortLists(log)
  }

  /** The offsets in a node's image. */
  ghost function OffsetsOf(log: Log, d: nat, id: Id, at: Places): seq<nat> {
    if IsLeaf(d, id) then ListOffsets(SlotsOf(log, d, id), ListsOf(log, id))
        else ChildOffsets(SlotsOf(log, d, id), id, at)
  }

  /** The end of the part of a node's image that readTrieNode reads; a leaf's lists follow. */
  ghost function HeaderEnd(log: Log, d: nat, at: Places, id: Id): nat {
    PlaceOf(at, id) + 39 + 4 * |SlotsOf(log, d, id)|
  }

  lemma HeaderOf(data: seq<byte>, log: Log, d: nat, at: Places, id: Id)
    requires Represents(data, log, d, at) && id in NodeIds(log, d)
    ensures id in at && NodeAt(data, at[id], IsLeaf(d, id), BitsOf(log, d, id), OffsetsOf(log, d, id, at))
    ensures |OffsetsOf(log, d, id, at)| == |SlotsOf(log, d, id)| == |BitsOf(log, d, id)|
    ensures IsLeaf(d, id) ==> At(data, HeaderEnd(log, d, at, id), Lists(SlotsOf(log, d, id), ListsOf(log, id)))
  {
    hide NodeIds, NodeAt, At, BitsOf, SlotsOf, ListsOf, ListOffsets, Lists, ChildOffsets;
    BitsAreSlots(log, d, id);
    assert ImageAt(data, log, d, id, at);
  }

  lemma {:induction false} ListAt(data: seq<byte>, p: nat, slots: seq<nat>, lists: seq<seq<Value>>, k: nat)
    requires At(data, p, Lists(slots, lists)) && k < |slots|
    ensures At(data, p + ListsSize(slots[..k], lists), EncodeList(Held(lists, slots[k])))
    ensures p + ListsSize(slots[..k], lists) + ListSize(Held(lists, slots[k])) <= |data|
    decreases |slots|
  {
    hide EncodeList, Held;
    var init, last := slots[..|slots| - 1], slots[|slots| - 1];
    AtConcat(data, p, Lists(init, lists), p + ListsSize(init, lists), EncodeList(Held(lists, last)));
    if k < |slots| - 1 {
      ListAt(data, p, init, lists, k);
      assert init[..k] == slots[..k];
    }
  }

  /** What stands in the file for a node, byte by byte: kind, count, bitmap and offsets, and behind those of a leaf its
      lists. */
  lemma FileLayout(data: seq<byte>, log: Log, d: nat, at: Places, id: Id)
    requires Written(data, log, d, at) && id in at
    ensures NodeLaidOut(data, at[id], IsLeaf(d, id), BitsOf(log, d, id), OffsetsOf(log, d, id, at))
    ensures IsLeaf(d, id) ==>
              forall k :: 0 <= k < |SlotsOf(log, d, id)| ==>
                LaidOut(data, HeaderEnd(log, d, at, id) + ListsSize(SlotsOf(log, d, id)[..k], ListsOf(log, id)),
                        ValuesOf(log, 256 * id.prefix + SlotsOf(log, d, id)[k]))
  {
    hide NodeIds, NodeAt, At, BitsOf, ListsOf, ListOffsets, Lists, ListsSize, ChildOffsets, NodeLaidOut, LaidOut,
         ValuesOf,
         Ascending;
    assert ImageAt(data, log, d, id, at);
    NodeIsLaidOut(data, at[id], IsLeaf(d, id), BitsOf(log, d, id), OffsetsOf(log, d, id, at));
    if IsLeaf(d, id) {
      var slots, lists, p := SlotsOf(log, d, id), ListsOf(log, id), HeaderEnd(log, d, at, id);
      forall k | 0 <= k < |slots|
        ensures LaidOut(data, p + ListsSize(slots[..k], lists), ValuesOf(log, 256 * id.prefix + slots[k]))
      {
        ListAt(data, p, slots, lists, k);
        ListLaidOut(data, p + ListsSize(slots[..k], lists), Held(lists, slots[k]));
        HeldIs(log, d, id, k);
      }
    }
  }

  lemma HeldIs(log: Log, d: nat, id: Id, k: nat)
    requires k < |SlotsOf(log, d, id)|
    ensures Held(ListsOf(log, id), SlotsOf(log, d, id)[k]) == ValuesOf(log, 256 * id.prefix + SlotsOf(log, d, id)[k])
  {
    hide BitsOf, Ascending, ValuesOf;
    SlotInBits(BitsOf(log, d, id), k);
  }

  lemma {:induction false} ListOffsetAt(slots: seq<nat>, lists: seq<seq<Value>>, k: nat)
    requires k < |slots|
    ensures ListOffsets(slots, lists)[k] == ListsSize(slots[..k], lists) % WORD
  {
    hide ListsSize;
    if k < |slots| - 1 {
      ListOffsetAt(slots[..|slots| - 1], lists, k);
      assert slots[..|slots| - 1][..k] == slots[..k];
    }
  }

  /** Behind a leaf's header, its k-th offset leads exactly to its k-th list. */
  lemma ListOfSlot(data: seq<byte>, log: Log, d: nat, at: Places, id: Id, k: nat)
    requires Represents(data, log, d, at) && id in NodeIds(log, d) && id.level == d - 1 && k < |SlotsOf(log, d, id)|
    ensures OffsetsOf(log, d, id, at)[k] == ListsSize(SlotsOf(log, d, id)[..k], ListsOf(log, id))
    ensures var key := 256 * id.prefix + SlotsOf(log, d, id)[k];
            && SlotsOf(log, d, id)[k] < MAX_PER_NODE && ValuesOf(log, key) != [] && |ValuesOf(log, key)| < SPAN
            && ListsSize(SlotsOf(log, d, id)[..k + 1], ListsOf(log, id))
               == ListsSize(SlotsOf(log, d, id)[..k], ListsOf(log, id)) + ListSize(ValuesOf(log, key))
            && At(data, HeaderEnd(log, d, at, id) + ListsSize(SlotsOf(log, d, id)[..k], ListsOf(log, id)),
                  EncodeList(ValuesOf(log, key)))
  {
    hide NodeIds, ImageAt, Lists, ListsSize, ValuesOf, Written, HeaderEnd, EncodeList, At, NodeAt, ListOffsets;
    var slots, lists := SlotsOf(log, d, id), ListsOf(log, id);
    HeaderOf(data, log, d, at, id);
    SlotInBits(BitsOf(log, d, id), k);
    ListAt(data, HeaderEnd(log, d, at, id), slots, lists, k);
    ListOffsetAt(slots, lists, k);
    SizeSnoc(slots[..k], slots[k], lists);
    assert slots[..k + 1] == slots[..k] + [slots[k]];
    assert Held(lists, slots[k]) == ValuesOf(log, 256 * id.prefix + slots[k]);
    ShortList(log, 256 * id.prefix + slots[k]);
  }

  /** Nothing is logged for the keys between two neighbouring slots of a leaf. */
  lemma NothingInGap(log: Log, d: nat, id: Id, pos: nat, from: nat, to: nat)
    requires d >= 1 && id.level == d - 1 && StartsAt(SlotsOf(log, d, id), 256 * id.prefix, from, pos)
    requires 256 * id.prefix <= from && to <= 256 * id.prefix + MAX_PER_NODE
    requires pos < |SlotsOf(log, d, id)| ==> to <= 256 * id.prefix + SlotsOf(log, d, id)[pos]
    ensures forall k :: from <= k < to ==> ValuesOf(log, k) == []
  {
    hide NodeIds, ValuesOf, Ascending;
    var slots := SlotsOf(log, d, id);
    AscendingIsSortedEnumeration(BitsOf(log, d, id), MAX_PER_NODE);
    forall k: nat | from <= k < to ensures ValuesOf(log, k) == [] {
      var b := k - 256 * id.prefix;
      assert b in slots <==> b in BitsOf(log, d, id);
    }
  }

  /** Every leaf has a slot. */
  lemma LeafNotEmpty(log: Log, d: nat, id: Id)
    requires d >= 1 && KeysFit(log, d) && id in NodeIds(log, d) && id.level == d - 1 && id != ROOT
    ensures SlotsOf(log, d, id) != []
  {
    hide NodeIds, ValuesOf, Ascending, Prefix;
    NodeIdsMember(log, d, id);
    var e :| e in log && OnPath(id, e.key, d);
    PrefixParent(e.key, d, d - 1);
    PrefixAll(e.key, d);
    ValuesOfNone(log, e.key);
    AscendingIsSortedEnumeration(BitsOf(log, d, id), MAX_PER_NODE);
    assert e.key % 256 in BitsOf(log, d, id);
    assert e.key % 256 in SlotsOf(log, d, id);
  }

  /** getOnePosition on a node that has been read. */
  method LoadedPosition(node: TrieNode, pos: nat, ghost leaf: bool, ghost bits: set<nat>, ghost offs: seq<nat>)
      returns (p: nat)
    requires Loaded(node, leaf, bits, offs) && pos < node.elemCount
    modifies node`bitPosition, node`view, node`Repr
    ensures Loaded(node, leaf, bits, offs) && fresh(node.Repr - old(node.Repr)) && old(node.Repr) <= node.Repr
    ensures pos < |Ascending(bits, MAX_PER_NODE)| && p == Ascending(bits, MAX_PER_NODE)[pos]
  {
    hide TrieNode.Shape, TrieNode.Valid, Ascending;
    p := node.GetOnePosition(pos);
  }

  lemma LoadedCount(node: TrieNode, leaf: bool, bits: set<nat>, offs: seq<nat>)
    requires Loaded(node, leaf, bits, offs)
    ensures node.elemCount == |bits| == |Ascending(bits, MAX_PER_NODE)| == |offs| && node.isLeaf == leaf
            && node in node.Repr
    ensures node.fileOffArray != null && node.fileOffArray[..] == offs
  {
    hide Ascending;
    AscendingCountAllOf(node);
  }

  method FindStartLoaded(node: TrieNode, prefixValue: nat, lo: nat, ghost leaf: bool, ghost bits: set<nat>,
                         ghost offs: seq<nat>)
      returns (pos: nat)
    requires Loaded(node, leaf, bits, offs)
    modifies node`bitPosition, node`view, node`Repr
    ensures Loaded(node, leaf, bits, offs) && fresh(node.Repr - old(node.Repr)) && old(node.Repr) <= node.Repr
    ensures StartsAt(Ascending(bits, MAX_PER_NODE), prefixValue, lo, pos)
  {
    hide Loaded, Ascending;
    LoadedCount(node, leaf, bits, offs);
    ghost var slots := Ascending(bits, MAX_PER_NODE);
    AscendingIsSortedEnumeration(bits, MAX_PER_NODE);
    pos := 0;
    while pos < node.elemCount
      invariant Loaded(node, leaf, bits, offs) && fresh(node.Repr - old(node.Repr)) && old(node.Repr) <= node.Repr
      invariant pos <= |slots| && forall i :: 0 <= i < pos ==> prefixValue + slots[i] < lo
    {
      var p := LoadedPosition(node, pos, leaf, bits, offs);
      if prefixValue + p >= lo {
        break;
      }
      pos := pos + 1;
    }
  }

  /** The cursor is where the list in slot pos of the leaf begins. */
  ghost predicate Aligned(pos: nat, cursor: nat, log: Log, d: nat, at: Places, id: Id) {
    pos <= |SlotsOf(log, d, id)|
        && cursor == HeaderEnd(log, d, at, id) + ListsSize(SlotsOf(log, d, id)[..pos], ListsOf(log, id))
  }

  /** The values of a leaf's first j keys, in key order. */
  ghost function SlotValues(log: Log, d: nat, id: Id, j: nat): seq<Value>
    requires j <= |SlotsOf(log, d, id)|
  {
    if j == 0 then [] else SlotValues(log, d, id, j - 1) + ValuesOf(log, 256 * id.prefix + SlotsOf(log, d, id)[j - 1])
  }

  /** No key behind the leaf is logged. */
  ghost predicate NothingBehind(log: Log, prefix: nat) {
    forall k :: k >= 256 * prefix + MAX_PER_NODE ==> ValuesOf(log, k) == []
  }

  /** The end of a leaf's image. */
  ghost function ListsEnd(log: Log, d: nat, at: Places, id: Id): nat {
    HeaderEnd(log, d, at, id) + ListsSize(SlotsOf(log, d, id), ListsOf(log, id))
  }

  /** A leaf with no key behind it ends the file. */
  lemma TailOf(data: seq<byte>, log: Log, d: nat, at: Places, id: Id)
    requires Represents(data, log, d, at) && id in NodeIds(log, d) && id.level == d - 1 && NothingBehind(log, id.prefix)
    ensures ListsEnd(log, d, at, id) == |data|
  {
    hide NodeIds, ImageAt, BitsOf, SlotsOf, ValuesOf, ListsSize, FirstValues;
    var last :| Latest(NodeIds(log, d), last) && EndsAt(|data|, log, d, last, at);
    BitsAreSlots(log, d, id);
    if last != id {
      assert Before(id, last);
      NodeIdsMember(log, d, last);
      LeafNotEmpty(log, d, last);
      var key := FirstKey(log, d, last);
    } else {
      SizeOfLeaf(log, d, id);
    }
  }

  lemma SizeOfLeaf(log: Log, d: nat, id: Id)
    requires id.level == d - 1
    ensures SizeOf(log, d, id) == 39 + 4 * |SlotsOf(log, d, id)| + ListsSize(SlotsOf(log, d, id), ListsOf(log, id))
  {
    hide BitsOf, Ascending, ListsSize;
    BitsAreSlots(log, d, id);
  }

  /** The reading of r lists has begun at the first list of leaf q, with answer pre. As far as the leaf's lists go, or
      if the file ends with them, they are what has been read. */
  ghost predicate Following(log: Log, d: nat, at: Places, q: Id, size: nat, r: nat, cursor: nat, pre: seq<Value>,
                            answer: seq<Value>)
  {
    var k := |SlotsOf(log, d, q)|;
    if r <= k || ListsEnd(log, d, at, q) == size then
      Aligned(Min(r, k), cursor, log, d, at, q) && answer == pre + SlotValues(log, d, q, Min(r, k))
    else pre + SlotValues(log, d, q, k) <= answer
  }

  /** One more list. */
  lemma FollowStep(data: seq<byte>, log: Log, d: nat, at: Places, q: Id, r: nat, cursor: nat, cursor': nat,
                   pre: seq<Value>, answer: seq<Value>, answer': seq<Value>)
    requires Represents(data, log, d, at) && q in NodeIds(log, d) && q.level == d - 1 && answer <= answer'
    requires Following(log, d, at, q, |data|, r, cursor, pre, answer)
    requires ListsRead(data, cursor, cursor', answer, answer')
    requires cursor >= |data| ==> answer' == answer && cursor' == cursor
    ensures Following(log, d, at, q, |data|, r + 1, cursor', pre, answer')
  {
    hide Represents, NodeIds, SlotsOf, ValuesOf, ListsSize, EncodeList, At, ListSize, ListsRead;
    var slots := SlotsOf(log, d, q);
    if r < |slots| {
      hide HeaderEnd, Aligned;
      AlignedNext(data, log, d, at, q, r, cursor);
      ListIsRead(data, cursor, cursor', answer, answer', ValuesOf(log, 256 * q.prefix + slots[r]));
      assert SlotValues(log, d, q, r + 1) == SlotValues(log, d, q, r) + ValuesOf(log, 256 * q.prefix + slots[r]);
    } else {
      assert slots[..|slots|] == slots;
    }
  }

  /** The first j keys of a leaf are those up to a bound, if the bound has j keys below it. */
  lemma {:induction false} SlotValuesAre(log: Log, d: nat, id: Id, hi: nat)
    requires d >= 1 && id.level == d - 1 && 256 * id.prefix <= hi <= 256 * id.prefix + MAX_PER_NODE
    ensures StartsAt(SlotsOf(log, d, id), 256 * id.prefix, hi, KeyCount(log, 256 * id.prefix, hi))
    ensures SlotValues(log, d, id, KeyCount(log, 256 * id.prefix, hi)) == ByKey(log, 256 * id.prefix, hi)
    decreases hi
  {
    hide ValuesOf, SlotsOf;
    var lo, slots := 256 * id.prefix, SlotsOf(log, d, id);
    if hi > lo {
      var key, i := hi - 1, KeyCount(log, lo, hi - 1);
      SlotValuesAre(log, d, id, hi - 1);
      SlotIffLogged(log, d, id, key);
      if ValuesOf(log, key) != [] {
        SlotHere(log, d, id, i, key);
      } else {
        ByKeyGap(log, lo, key, hi);
      }
    }
  }

  lemma SlotIffLogged(log: Log, d: nat, id: Id, key: nat)
    requires d >= 1 && id.level == d - 1 && 256 * id.prefix <= key < 256 * id.prefix + MAX_PER_NODE
    ensures key - 256 * id.prefix in SlotsOf(log, d, id) <==> ValuesOf(log, key) != []
  {
    hide ValuesOf, Ascending, NodeIds;
    AscendingIsSortedEnumeration(BitsOf(log, d, id), MAX_PER_NODE);
  }

  /** The first slot from a taken key on is that key's. */
  lemma SlotHere(log: Log, d: nat, id: Id, i: nat, key: nat)
    requires StartsAt(SlotsOf(log, d, id), 256 * id.prefix, key, i) && key >= 256 * id.prefix
    requires key - 256 * id.prefix in SlotsOf(log, d, id)
    ensures i < |SlotsOf(log, d, id)| && 256 * id.prefix + SlotsOf(log, d, id)[i] == key
    ensures StartsAt(SlotsOf(log, d, id), 256 * id.prefix, key + 1, i + 1)
  {
    hide BitsOf, Ascending;
    AscendingIsSortedEnumeration(BitsOf(log, d, id), MAX_PER_NODE);
    var slots := SlotsOf(log, d, id);
    var j :| 0 <= j < |slots| && slots[j] == key - 256 * id.prefix;
  }

  /** The values of a leaf's first key. */
  ghost function FirstValues(log: Log, d: nat, id: Id): seq<Value> {
    if SlotsOf(log, d, id) == [] then [] else ValuesOf(log, 256 * id.prefix + SlotsOf(log, d, id)[0])
  }

  /** The end of a query at a leaf: reads list after list until the keys pass the end of the range. From a cursor at the
      leaf's own lists this gives the leaf's values in range. From among the lists of another leaf q it gives as many of
      that leaf's lists. */
  method ReadLists(fp: Stream, node: TrieNode, start: nat, prefixValue: nat, end: nat, ret: seq<Value>,
                   ghost log: Log, ghost d: nat, ghost id: Id, ghost at: Places, ghost from: nat,
                   ghost q: Id, ghost r: nat, ghost pre: seq<Value>)
      returns (ret': seq<Value>)
    requires Represents(fp.data, log, d, at) && id in NodeIds(log, d) && id.level == d - 1
             && prefixValue == 256 * id.prefix && q in NodeIds(log, d) && q.level == d - 1
    requires Loaded(node, true, BitsOf(log, d, id), OffsetsOf(log, d, id, at))
    requires StartsAt(SlotsOf(log, d, id), prefixValue, from, start) && prefixValue <= from && fp !in node.Repr
    modifies fp`pos, node`bitPosition, node`view, node`Repr
    ensures ret <= ret'
    ensures start == |SlotsOf(log, d, id)| ==> ret' == ret && fp.pos == old(fp.pos)
    ensures old(fp.pos) >= |fp.data| ==> ret' == ret && fp.pos >= |fp.data|
    ensures Aligned(start, old(fp.pos), log, d, at, id) ==>
              ret' == ret + ByKey(log, from, Min(end + 1, prefixValue + MAX_PER_NODE))
    ensures Following(log, d, at, q, |fp.data|, r, old(fp.pos), pre, ret) ==>
              Following(log, d, at, q, |fp.data|, r + KeyCount(log, from, Min(end + 1, prefixValue + MAX_PER_NODE)),
                        fp.pos,
                        pre, ret')
  {
    hide Loaded, Represents, BitsOf, OffsetsOf, SlotsOf, HeaderEnd, NodeIds, ListsSize, Following, Ascending, Aligned,
         ByKey,
         KeyCount, ValuesOf;
    ghost var bits, offs, slots, to := BitsOf(log, d, id), OffsetsOf(log, d, id, at), SlotsOf(log, d, id),
        Min(end + 1, prefixValue + MAX_PER_NODE);
    LoadedSlots(node, log, d, id, at);
    ret' := ret;
    ghost var cur: nat := from;
    ByKeyNone(log, from, from);
    KeyCountNone(log, from, from);
    NothingRead(ret, log, from);
    var pos := start;
    while pos < node.elemCount
      invariant Loaded(node, true, bits, offs) && node.elemCount == |slots| && fp !in node.Repr
      invariant start <= pos <= |slots| && ret <= ret' && (pos == start ==> ret' == ret && fp.pos == old(fp.pos))
      invariant from <= cur && (cur == from || cur <= to) && StartsAt(slots, prefixValue, cur, pos)
      invariant Aligned(start, old(fp.pos), log, d, at, id) ==>
                  Aligned(pos, fp.pos, log, d, at, id) && ret' == ret + ByKey(log, from, cur)
      invariant old(fp.pos) >= |fp.data| ==> ret' == ret && fp.pos >= |fp.data|
      invariant KeyCount(log, from, cur) == pos - start
      invariant Following(log, d, at, q, |fp.data|, r, old(fp.pos), pre, ret) ==>
                  Following(log, d, at, q, |fp.data|, r + pos - start, fp.pos, pre, ret')
    {
      var p := LoadedPosition(node, pos, true, bits, offs);
      SlotsAgree(log, d, id);
      if prefixValue + p > end {
        break;
      }
      ret', cur := ReadSlot(fp, p, ret', log, d, id, at, pos, from, cur, ret, q, r + pos - start, pre);
      pos := pos + 1;
    }
    if cur <= to {
      NothingInGap(log, d, id, pos, cur, to);
      ByKeyGap(log, from, cur, to);
      KeyCountGap(log, from, cur, to);
    } else {
      ByKeyNone(log, from, cur);
      ByKeyNone(log, from, to);
      KeyCountNone(log, from, to);
    }
  }

  lemma NothingRead(ret: seq<Value>, log: Log, from: nat)
    ensures ret == ret + ByKey(log, from, from)
  {}

  lemma SlotsAgree(log: Log, d: nat, id: Id)
    ensures SlotsOf(log, d, id) == Ascending(BitsOf(log, d, id), MAX_PER_NODE)
  {}

  lemma LoadedSlots(node: TrieNode, log: Log, d: nat, id: Id, at: Places)
    requires Loaded(node, IsLeaf(d, id), BitsOf(log, d, id), OffsetsOf(log, d, id, at))
    ensures node.elemCount == |SlotsOf(log, d, id)| && node.isLeaf == IsLeaf(d, id) && node in node.Repr
    ensures node.fileOffArray != null && node.fileOffArray[..] == OffsetsOf(log, d, id, at)
  {
    hide Loaded, BitsOf, OffsetsOf, Ascending;
    LoadedCount(node, IsLeaf(d, id), BitsOf(log, d, id), OffsetsOf(log, d, id, at));
  }

  /** Reads one list. */
  method ReadSlot(fp: Stream, p: nat, answer: seq<Value>, ghost log: Log, ghost d: nat, ghost id: Id, ghost at: Places,
                  ghost pos: nat, ghost from: nat, ghost cur: nat, ghost ret: seq<Value>,
                  ghost q: Id, ghost r: nat, ghost pre: seq<Value>)
      returns (answer': seq<Value>, ghost cur': nat)
    requires Represents(fp.data, log, d, at) && id in NodeIds(log, d) && id.level == d - 1
             && q in NodeIds(log, d) && q.level == d - 1
    requires pos < |SlotsOf(log, d, id)| && p == SlotsOf(log, d, id)[pos]
    requires 256 * id.prefix <= from <= cur && StartsAt(SlotsOf(log, d, id), 256 * id.prefix, cur, pos)
    modifies fp`pos
    ensures answer <= answer' && cur' == 256 * id.prefix + p + 1 && p < MAX_PER_NODE
    ensures StartsAt(SlotsOf(log, d, id), 256 * id.prefix, cur', pos + 1)
    ensures Aligned(pos, old(fp.pos), log, d, at, id) && answer == ret + ByKey(log, from, cur) ==>
              Aligned(pos + 1, fp.pos, log, d, at, id) && answer' == ret + ByKey(log, from, cur')
    ensures KeyCount(log, from, cur') == KeyCount(log, from, cur) + 1
    ensures Following(log, d, at, q, |fp.data|, r, old(fp.pos), pre, answer) ==>
              Following(log, d, at, q, |fp.data|, r + 1, fp.pos, pre, answer')
    ensures old(fp.pos) >= |fp.data| ==> answer' == answer && fp.pos >= |fp.data|
  {
    hide Represents, SlotsOf, HeaderEnd, NodeIds, ListsSize, Following, EncodeList, At, ValuesOf, ByKey, Aligned,
         ListSize,
         StartsAt, ListsRead, KeyCount;
    ghost var key, cursor := 256 * id.prefix + p, fp.pos;
    SlotBound(log, d, id, pos);
    KeysUpTo(log, d, id, pos, from, cur);
    NextStart(log, d, id, pos, cur);
    answer' := ReadList(fp, answer);
    cur' := key + 1;
    if Aligned(pos, cursor, log, d, at, id) {
      AlignedNext(fp.data, log, d, at, id, pos, cursor);
      ListIsRead(fp.data, cursor, fp.pos, answer, answer', ValuesOf(log, key));
    }
    if Following(log, d, at, q, |fp.data|, r, cursor, pre, answer) {
      FollowStep(fp.data, log, d, at, q, r, cursor, fp.pos, pre, answer, answer');
    }
  }

  /** A cursor at a slot's list is at the next slot's list once that list has been read. */
  lemma AlignedNext(data: seq<byte>, log: Log, d: nat, at: Places, id: Id, pos: nat, cursor: nat)
    requires Represents(data, log, d, at) && id in NodeIds(log, d) && id.level == d - 1 && pos < |SlotsOf(log, d, id)|
    requires Aligned(pos, cursor, log, d, at, id)
    ensures var list := ValuesOf(log, 256 * id.prefix + SlotsOf(log, d, id)[pos]);
            && |list| < SPAN && At(data, cursor, EncodeList(list))
               && Aligned(pos + 1, cursor + ListSize(list), log, d, at, id)
  {
    hide Represents, SlotsOf, HeaderEnd, NodeIds, ListsSize, EncodeList, At, ValuesOf, ListSize;
    ListOfSlot(data, log, d, at, id, pos);
  }

  /** The values up to a slot's key. */
  lemma KeysUpTo(log: Log, d: nat, id: Id, pos: nat, from: nat, cur: nat)
    requires d >= 1 && id.level == d - 1 && pos < |SlotsOf(log, d, id)| && 256 * id.prefix <= from <= cur
    requires StartsAt(SlotsOf(log, d, id), 256 * id.prefix, cur, pos)
    ensures var key := 256 * id.prefix + SlotsOf(log, d, id)[pos];
            && ByKey(log, from, key + 1) == ByKey(log, from, cur) + ValuesOf(log, key)
            && KeyCount(log, from, key + 1) == KeyCount(log, from, cur) + 1
  {
    hide SlotsOf, ValuesOf, ByKey, KeyCount;
    var key := 256 * id.prefix + SlotsOf(log, d, id)[pos];
    SlotBound(log, d, id, pos);
    NothingInGap(log, d, id, pos, cur, key);
    ByKeyGap(log, from, cur, key);
    ByKeyStep(log, from, key);
    SlotLogged(log, d, id, pos);
    KeyCountGap(log, from, cur, key);
    KeyCountStep(log, from, key);
  }

  lemma NextStart(log: Log, d: nat, id: Id, pos: nat, cur: nat)
    requires pos < |SlotsOf(log, d, id)| && StartsAt(SlotsOf(log, d, id), 256 * id.prefix, cur, pos)
    ensures StartsAt(SlotsOf(log, d, id), 256 * id.prefix, 256 * id.prefix + SlotsOf(log, d, id)[pos] + 1, pos + 1)
  {
    hide BitsOf, Ascending;
    AscendingIsSortedEnumeration(BitsOf(log, d, id), MAX_PER_NODE);
  }

  /** The start of a query at a leaf: finds the first slot in range and seeks to its list, relative to wherever the
      cursor is. Without such a slot it seeks by stray, the number that happens to stand behind the offset array. */
  method SeekLists(fp: Stream, node: TrieNode, prefixValue: nat, begin: nat, stray: u32,
                   ghost log: Log, ghost d: nat, ghost id: Id, ghost at: Places)
      returns (pos: nat)
    requires Represents(fp.data, log, d, at) && id in NodeIds(log, d) && id.level == d - 1
             && prefixValue == 256 * id.prefix
    requires Loaded(node, true, BitsOf(log, d, id), OffsetsOf(log, d, id, at)) && fp !in node.Repr
    modifies fp`pos, node`bitPosition, node`view, node`Repr
    ensures Loaded(node, true, BitsOf(log, d, id), OffsetsOf(log, d, id, at)) && fp !in node.Repr
    ensures StartsAt(SlotsOf(log, d, id), prefixValue, begin, pos) && pos <= |SlotsOf(log, d, id)|
    ensures pos < |SlotsOf(log, d, id)| && old(fp.pos) == HeaderEnd(log, d, at, id) ==>
              Aligned(pos, fp.pos, log, d, at, id)
    ensures pos < |SlotsOf(log, d, id)| ==>
              HasFrom(log, begin, id.prefix) && (!Straddled(log, begin) ==> fp.pos == old(fp.pos))
    ensures pos == |SlotsOf(log, d, id)| ==> fp.pos == old(fp.pos) + stray
    ensures fp.pos >= old(fp.pos)
  {
    hide Loaded, Represents, BitsOf, OffsetsOf, HeaderEnd, NodeIds, ListsSize, Ascending, ValuesOf, SlotsOf, Straddled,
         HasFrom, Aligned,
         NodeAt, At, EncodeList, ListSize, Lists, ListsOf;
    SlotsAgree(log, d, id);
    pos := FindStartLoaded(node, prefixValue, begin, true, BitsOf(log, d, id), OffsetsOf(log, d, id, at));
    LoadedSlots(node, log, d, id, at);
    HeaderOf(fp.data, log, d, at, id);
    if pos < node.elemCount {
      StartOffset(fp.data, log, d, at, id, pos, fp.pos);
      StartOfAll(log, d, id, begin, pos);
      assert node.fileOffArray[pos] == OffsetsOf(log, d, id, at)[pos];
      fp.SeekCur(node.fileOffArray[pos]);
    } else {
      fp.SeekCur(stray);
    }
  }

  /** The number of a leaf's keys in range. */
  ghost function KeysInLeaf(log: Log, begin: nat, end: nat, prefix: nat): nat {
    KeyCount(log, Max(begin, 256 * prefix), Min(end + 1, 256 * prefix + MAX_PER_NODE))
  }

  /** The leaf part of queryFromFile. */
  method ReadLeaf(fp: Stream, node: TrieNode, prefixValue: nat, begin: nat, end: nat, stray: u32, ret: seq<Value>,
                  ghost log: Log, ghost d: nat, ghost id: Id, ghost at: Places, ghost q: Id, ghost r: nat,
                  ghost pre: seq<Value>)
      returns (ret': seq<Value>)
    requires Represents(fp.data, log, d, at) && id in NodeIds(log, d) && id.level == d - 1
             && prefixValue == 256 * id.prefix && q in NodeIds(log, d) && q.level == d - 1
    requires Loaded(node, true, BitsOf(log, d, id), OffsetsOf(log, d, id, at)) && fp !in node.Repr
    modifies fp`pos, node`bitPosition, node`view, node`Repr
    ensures ret <= ret'
    ensures old(fp.pos) == HeaderEnd(log, d, at, id) ==>
              ret' == ret + ByKey(log, Max(begin, prefixValue), Min(end + 1, prefixValue + MAX_PER_NODE))
    ensures !HasFrom(log, begin, id.prefix) ==> ret' == ret && fp.pos == old(fp.pos) + stray
    ensures old(fp.pos) >= |fp.data| ==> ret' == ret && fp.pos >= |fp.data|
    ensures !Straddled(log, begin) && (HasFrom(log, begin, id.prefix) || stray == 0)
            && Following(log, d, at, q, |fp.data|, r, old(fp.pos), pre, ret) ==>
              Following(log, d, at, q, |fp.data|, r + KeysInLeaf(log, begin, end, id.prefix), fp.pos, pre, ret')
  {
    hide Loaded, Represents, BitsOf, OffsetsOf, HeaderEnd, NodeIds, ListsSize, Following, Ascending, ValuesOf, ByKey,
         SlotsOf, Straddled, HasFrom, StartsAt, Aligned, KeyCount;
    var pos := SeekLists(fp, node, prefixValue, begin, stray, log, d, id, at);
    StartFrom(SlotsOf(log, d, id), prefixValue, begin, pos);
    if pos < |SlotsOf(log, d, id)| {
      SlotBound(log, d, id, pos);
    } else {
      NothingFrom(log, d, id, pos, begin, end);
    }
    ret' := ReadLists(fp, node, pos, prefixValue, end, ret, log, d, id, at, Max(begin, prefixValue), q, r, pre);
  }

  /** A key from begin on is logged for the leaf. */
  ghost predicate HasFrom(log: Log, begin: nat, prefix: nat) {
    exists k :: begin <= k && k / 256 == prefix && ValuesOf(log, k) != []
  }

  /** One leaf has logged keys on both sides of begin. */
  ghost predicate Straddled(log: Log, begin: nat) {
    exists k, l :: k < begin <= l && k / 256 == l / 256 && ValuesOf(log, k) != [] && ValuesOf(log, l) != []
  }

  /** The leaf of begin has a logged key before begin. */
  ghost predicate KeyBefore(log: Log, begin: nat) {
    exists k :: k < begin && k / 256 == begin / 256 && ValuesOf(log, k) != []
  }

  lemma NotStraddled(log: Log, begin: nat)
    requires !KeyBefore(log, begin)
    ensures !Straddled(log, begin)
  {}

  /** No seek moves the cursor away from where the last leaf's header ends: begin straddles no leaf, and no number but 0
      is read behind an offset array. */
  ghost predicate Calm(log: Log, begin: nat, stray: nat) {
    !Straddled(log, begin) && (stray == 0 || !KeyBefore(log, begin))
  }

  /** The leaf of begin has keys before begin only, and the number behind its offset array is as large as the file. */
  ghost predicate Astray(log: Log, begin: nat, stray: nat, size: nat) {
    KeyBefore(log, begin) && !HasFrom(log, begin, begin / 256) && stray >= size
  }

  lemma SlotLogged(log: Log, d: nat, id: Id, k: nat)
    requires d >= 1 && id.level == d - 1 && k < |SlotsOf(log, d, id)|
    ensures SlotsOf(log, d, id)[k] < MAX_PER_NODE && ValuesOf(log, 256 * id.prefix + SlotsOf(log, d, id)[k]) != []
  {
    hide ValuesOf, Ascending, NodeIds;
    SlotInBits(BitsOf(log, d, id), k);
  }

  /** A query that reads lists of a leaf not straddled by its begin starts with the leaf's first list. */
  lemma StartOfAll(log: Log, d: nat, id: Id, begin: nat, pos: nat)
    requires d >= 1 && id.level == d - 1 && pos < |SlotsOf(log, d, id)|
    requires StartsAt(SlotsOf(log, d, id), 256 * id.prefix, begin, pos)
    ensures HasFrom(log, begin, id.prefix) && (!Straddled(log, begin) ==> pos == 0)
  {
    hide SlotsOf, ValuesOf;
    SlotLogged(log, d, id, pos);
    var l := 256 * id.prefix + SlotsOf(log, d, id)[pos];
    assert begin <= l && l / 256 == id.prefix;
    if pos > 0 {
      SlotLogged(log, d, id, 0);
      var k := 256 * id.prefix + SlotsOf(log, d, id)[0];
      assert k < begin && k / 256 == id.prefix;
    }
  }

  /** A leaf without a slot from begin on has no key there. */
  lemma NothingFrom(log: Log, d: nat, id: Id, pos: nat, begin: nat, end: nat)
    requires d >= 1 && id.level == d - 1 && pos == |SlotsOf(log, d, id)|
    requires StartsAt(SlotsOf(log, d, id), 256 * id.prefix, begin, pos)
    ensures !HasFrom(log, begin, id.prefix)
    ensures ByKey(log, Max(begin, 256 * id.prefix), Min(end + 1, 256 * id.prefix + MAX_PER_NODE)) == []
  {
    hide SlotsOf, ValuesOf, ByKey;
    var from, to := Max(begin, 256 * id.prefix), Min(end + 1, 256 * id.prefix + MAX_PER_NODE);
    NothingInGap(log, d, id, pos, from, 256 * id.prefix + MAX_PER_NODE);
    ByKeyNone(log, from, from);
    if from <= to { ByKeyGap(log, from, from, to); } else { ByKeyNone(log, from, to); }
  }

  lemma SlotBound(log: Log, d: nat, id: Id, k: nat)
    requires k < |SlotsOf(log, d, id)|
    ensures SlotsOf(log, d, id)[k] < MAX_PER_NODE
  {
    hide BitsOf, Ascending;
    SlotInBits(BitsOf(log, d, id), k);
  }

  /** From the end of a leaf's header its k-th offset leads to its k-th list; the first offset is zero. */
  lemma StartOffset(data: seq<byte>, log: Log, d: nat, at: Places, id: Id, k: nat, cursor: nat)
    requires Represents(data, log, d, at) && id in NodeIds(log, d) && id.level == d - 1 && k <= |SlotsOf(log, d, id)|
    requires |OffsetsOf(log, d, id, at)| == |SlotsOf(log, d, id)|
    ensures k < |SlotsOf(log, d, id)| && cursor == HeaderEnd(log, d, at, id) ==>
              Aligned(k, cursor + OffsetsOf(log, d, id, at)[k], log, d, at, id)
    ensures SlotsOf(log, d, id) != [] ==> OffsetsOf(log, d, id, at)[0] == 0
  {
    hide Represents, BitsOf, OffsetsOf, HeaderEnd, NodeIds, ListsSize, SlotsOf, ValuesOf, At, EncodeList;
    if k < |SlotsOf(log, d, id)| { ListOfSlot(data, log, d, at, id, k); }
    if SlotsOf(log, d, id) != [] {
      ListOfSlot(data, log, d, at, id, 0);
      assert SlotsOf(log, d, id)[..0] == [];
      SizeStart([], ListsOf(log, id));
    }
  }

  // ---- the queue of nodes read from the file ----

  ghost function Foot(node: TrieNode): set<object>
    reads node
  {
    node.Repr + {node} + if node.fileOffArray == null then {} else {node.fileOffArray}
  }

  /** The queue holds copies of the nodes of the level's given prefixes; the copies share nothing. */
  ghost predicate FileQueue(queue: seq<TrieNode>, level: nat, prefixes: seq<nat>, log: Log, d: nat, at: Places,
                            space: set<object>)
    reads space
  {
    && |queue| == |prefixes|
    && (forall k :: 0 <= k < |queue| ==>
          && queue[k] in space && Foot(queue[k]) <= space && Id(level, prefixes[k]) in NodeIds(log, d)
          && LoadedFor(queue[k], log, d, Id(level, prefixes[k]), at))
    && (forall j, k :: 0 <= j < k < |queue| ==> Foot(queue[j]) !! Foot(queue[k]))
  }

  ghost predicate LoadedFor(node: TrieNode, log: Log, d: nat, id: Id, at: Places)
    reads node, node.Repr, node.fileOffArray
  {
    Loaded(node, IsLeaf(d, id), BitsOf(log, d, id), OffsetsOf(log, d, id, at))
  }

  lemma FileQueueNone(level: nat, log: Log, d: nat, at: Places)
    ensures FileQueue([], level, [], log, d, at, {})
  {}

  lemma FileQueueOne(queue: seq<TrieNode>, level: nat, prefixes: seq<nat>, log: Log, d: nat, at: Places,
                     space: set<object>,
                     node: TrieNode, p: nat)
    requires FileQueue(queue, level, prefixes, log, d, at, space) && Foot(node) !! space
    requires Id(level, p) in NodeIds(log, d) && LoadedFor(node, log, d, Id(level, p), at)
    ensures FileQueue(queue + [node], level, prefixes + [p], log, d, at, space + Foot(node))
  {
    hide LoadedFor, NodeIds;
  }

  lemma FileQueueRoot(node: TrieNode, log: Log, d: nat, at: Places)
    requires LoadedFor(node, log, d, ROOT, at) && ROOT in NodeIds(log, d)
    ensures FileQueue([node], 0, [0], log, d, at, Foot(node))
  {
    hide LoadedFor, NodeIds;
  }

  /** The head of the queue can be worked on without touching the others. */
  lemma FileQueueHead(queue: seq<TrieNode>, level: nat, prefixes: seq<nat>, log: Log, d: nat, at: Places,
                      space: set<object>)
    requires FileQueue(queue, level, prefixes, log, d, at, space) && queue != []
    ensures queue[0] in space && Foot(queue[0]) <= space && Id(level, prefixes[0]) in NodeIds(log, d)
    ensures LoadedFor(queue[0], log, d, Id(level, prefixes[0]), at)
    ensures FileQueue(queue[1..], level, prefixes[1..], log, d, at, space - Foot(queue[0]))
  {
    hide LoadedFor, NodeIds;
  }

  lemma FileQueueEmpty(queue: seq<TrieNode>, level: nat, prefixes: seq<nat>, log: Log, d: nat, at: Places,
                       space: set<object>)
    requires FileQueue(queue, level, prefixes, log, d, at, space)
    ensures queue == [] <==> prefixes == []
  {}

  /** The cursor is behind the header of the last node read. */
  ghost predicate BehindLast(cursor: nat, level: nat, prefixes: seq<nat>, log: Log, d: nat, at: Places) {
    prefixes != [] ==> cursor == HeaderEnd(log, d, at, Id(level, prefixes[|prefixes| - 1]))
  }

  /** readTrieNode at the node's place. */
  method ReadNodeOf(fp: Stream, ghost log: Log, ghost d: nat, ghost id: Id, ghost at: Places) returns (node: TrieNode)
    requires Represents(fp.data, log, d, at) && id in NodeIds(log, d) && fp.pos == PlaceOf(at, id)
    modifies fp`pos
    ensures LoadedFor(node, log, d, id, at) && fresh(Foot(node)) && fp.pos == HeaderEnd(log, d, at, id)
  {
    hide Represents, NodeIds, BitsOf, OffsetsOf, NodeAt, Loaded, SlotsOf;
    HeaderOf(fp.data, log, d, at, id);
    node := ReadNode(fp, IsLeaf(d, id), BitsOf(log, d, id), OffsetsOf(log, d, id, at));
  }

  /** An inner node's slots below j lie below cur; the others do not, or lie before the range. */
  ghost predicate SplitAt(slots: seq<nat>, prefixValue: nat, from: nat, cur: nat, j: nat) {
    && j <= |slots| && from <= cur
    && (forall i :: 0 <= i < j ==> prefixValue + slots[i] < cur)
    && (forall i :: j <= i < |slots| ==> prefixValue + slots[i] < from || cur <= prefixValue + slots[i])
  }

  lemma SplitStart(slots: seq<nat>, prefixValue: nat, from: nat)
    ensures SplitAt(slots, prefixValue, from, from, 0)
  {}

  /** Between the slots seen and the next one there are no nodes. */
  lemma NoNodesInGap(log: Log, d: nat, id: Id, from: nat, cur: nat, j: nat, to: nat)
    requires id.level < d - 1 && SplitAt(SlotsOf(log, d, id), 256 * id.prefix, from, cur, j)
    requires 256 * id.prefix <= from && to <= 256 * id.prefix + MAX_PER_NODE
    requires j < |SlotsOf(log, d, id)| ==> to <= 256 * id.prefix + SlotsOf(log, d, id)[j]
    ensures NoNodes(NodeIds(log, d), id.level + 1, cur, to)
  {
    hide NodeIds, ValuesOf, Ascending;
    var slots, level := SlotsOf(log, d, id), id.level + 1;
    AscendingIsSortedEnumeration(BitsOf(log, d, id), MAX_PER_NODE);
    forall c: nat | cur <= c < to ensures Id(level, c) !in NodeIds(log, d) {
      var b := c - 256 * id.prefix;
      assert Child(id, b) == Id(level, c);
      assert b in slots <==> b in BitsOf(log, d, id);
    }
  }

  lemma SplitSkip(log: Log, d: nat, id: Id, from: nat, cur: nat, j: nat)
    requires SplitAt(SlotsOf(log, d, id), 256 * id.prefix, from, cur, j) && j < |SlotsOf(log, d, id)|
    ensures 256 * id.prefix + SlotsOf(log, d, id)[j] < from ==>
              SplitAt(SlotsOf(log, d, id), 256 * id.prefix, from, cur, j + 1)
    ensures from <= 256 * id.prefix + SlotsOf(log, d, id)[j] ==>
              && cur <= 256 * id.prefix + SlotsOf(log, d, id)[j]
              && SplitAt(SlotsOf(log, d, id), 256 * id.prefix, from, 256 * id.prefix + SlotsOf(log, d, id)[j] + 1,
                         j + 1)
  {
    hide BitsOf, Ascending;
    AscendingIsSortedEnumeration(BitsOf(log, d, id), MAX_PER_NODE);
  }

  /** One child in range is read and queued. */
  method ReadChild(fp: Stream, node: TrieNode, j: nat, currentValue: nat, queue: seq<TrieNode>, prefixes: seq<nat>,
                   ghost log: Log, ghost d: nat, ghost id: Id, ghost at: Places, ghost space: set<object>)
      returns (queue': seq<TrieNode>, prefixes': seq<nat>, ghost space': set<object>)
    requires Represents(fp.data, log, d, at) && id in NodeIds(log, d) && id.level < d - 1
    requires LoadedFor(node, log, d, id, at) && j < |SlotsOf(log, d, id)|
             && currentValue == 256 * id.prefix + SlotsOf(log, d, id)[j]
    requires FileQueue(queue, id.level + 1, prefixes, log, d, at, space) && fp !in space
    modifies fp`pos
    ensures queue' != [] && prefixes' == prefixes + [currentValue]
            && FileQueue(queue', id.level + 1, prefixes', log, d, at, space')
    ensures space <= space' && fresh(space' - space) && BehindLast(fp.pos, id.level + 1, prefixes', log, d, at)
    ensures Id(id.level + 1, currentValue) in NodeIds(log, d)
  {
    hide NodeIds, BitsOf, SlotsOf, LoadedFor, FileQueue, HeaderEnd, ImageAt, ChildOffsets;
    ChildOffsetIs(fp.data, node, log, d, id, at, j);
    fp.SeekSet(node.fileOffArray[j]);
    ghost var child := Id(id.level + 1, currentValue);
    var next := ReadNodeOf(fp, log, d, child, at);
    FileQueueOne(queue, id.level + 1, prefixes, log, d, at, space, next, currentValue);
    queue', prefixes', space' := queue + [next], prefixes + [currentValue], space + Foot(next);
  }

  lemma ChildOffsetIs(data: seq<byte>, node: TrieNode, log: Log, d: nat, id: Id, at: Places, j: nat)
    requires Represents(data, log, d, at) && id in NodeIds(log, d) && id.level < d - 1
    requires LoadedFor(node, log, d, id, at) && j < |SlotsOf(log, d, id)|
    ensures Id(id.level + 1, 256 * id.prefix + SlotsOf(log, d, id)[j]) in NodeIds(log, d)
    ensures node.fileOffArray != null && j < node.fileOffArray.Length
    ensures node.fileOffArray[j] == PlaceOf(at, Id(id.level + 1, 256 * id.prefix + SlotsOf(log, d, id)[j]))
  {
    hide NodeIds, BitsOf, SlotsOf, ImageAt, ChildOffsets, Loaded;
    LoadedSlots(node, log, d, id, at);
    HeaderOf(data, log, d, at, id);
    OffsetsExact(data, log, d, id, at, j);
    assert node.fileOffArray[..][j] == node.fileOffArray[j];
  }

  lemma CountFor(node: TrieNode, log: Log, d: nat, id: Id, at: Places)
    requires LoadedFor(node, log, d, id, at)
    ensures node.elemCount == |SlotsOf(log, d, id)| && node.isLeaf == IsLeaf(d, id) && node in Foot(node)
  {
    hide Loaded, BitsOf, OffsetsOf, SlotsOf;
    LoadedSlots(node, log, d, id, at);
  }

  /** The inner part of queryFromFile: the children in range are read and queued. */
  method ReadChildren(fp: Stream, node: TrieNode, prefixValue: nat, prefixBegin: nat, prefixEnd: nat,
                      queue: seq<TrieNode>, prefixes: seq<nat>,
                      ghost log: Log, ghost d: nat, ghost id: Id, ghost at: Places, ghost space: set<object>)
      returns (queue': seq<TrieNode>, prefixes': seq<nat>, ghost space': set<object>)
    requires Represents(fp.data, log, d, at) && id in NodeIds(log, d) && id.level < d - 1
             && prefixValue == 256 * id.prefix
    requires LoadedFor(node, log, d, id, at) && fp !in Foot(node) && Foot(node) !! space
    requires FileQueue(queue, id.level + 1, prefixes, log, d, at, space) && fp !in space
    requires BehindLast(fp.pos, id.level + 1, prefixes, log, d, at)
    modifies fp`pos, node`bitPosition, node`view, node`Repr
    ensures FileQueue(queue', id.level + 1, prefixes', log, d, at, space') && fresh(space' - space) && fp !in space'
    ensures BehindLast(fp.pos, id.level + 1, prefixes', log, d, at)
    ensures prefixes' == prefixes + LevelPrefixes(NodeIds(log, d), id.level + 1,
                                                  Max(prefixBegin, prefixValue),
                                                      Min(prefixEnd + 1, prefixValue + MAX_PER_NODE))
  {
    hide Represents, NodeIds, BitsOf, OffsetsOf, SlotsOf, LoadedFor, FileQueue, BehindLast, HeaderEnd, SplitAt,
         LevelPrefixes, Ascending;
    ghost var ids, level, slots := NodeIds(log, d), id.level + 1, SlotsOf(log, d, id);
    ghost var from, to := Max(prefixBegin, prefixValue), Min(prefixEnd + 1, prefixValue + MAX_PER_NODE);
    ghost var cur: nat := from;
    CountFor(node, log, d, id, at);
    SplitStart(slots, prefixValue, from);
    LevelNone(ids, level, from, from);
    queue', prefixes', space' := queue, prefixes, space;
    var j := 0;
    while j < node.elemCount
      invariant LoadedFor(node, log, d, id, at) && fp !in Foot(node) && Foot(node) !! space'
                && node.elemCount == |slots|
      invariant FileQueue(queue', level, prefixes', log, d, at, space') && fresh(space' - space) && fp !in space'
      invariant BehindLast(fp.pos, level, prefixes', log, d, at)
      invariant 0 <= j && SplitAt(slots, prefixValue, from, cur, j) && (cur == from || cur <= to)
      invariant prefixes' == prefixes + LevelPrefixes(ids, level, from, cur)
    {
      var p := PositionFor(node, j, log, d, id, at);
      var currentValue := p + prefixValue;
      SplitSkip(log, d, id, from, cur, j);
      if currentValue >= prefixBegin {
        if currentValue > prefixEnd {
          break;
        }
        ChildNext(log, d, id, from, cur, j);
        queue', prefixes', space' := ReadChild(fp, node, j, currentValue, queue', prefixes', log, d, id, at, space');
        cur := currentValue + 1;
      }
      j := j + 1;
    }
    ChildrenEnd(log, d, id, from, cur, j, to);
  }

  method PositionFor(node: TrieNode, pos: nat, ghost log: Log, ghost d: nat, ghost id: Id, ghost at: Places)
      returns (p: nat)
    requires LoadedFor(node, log, d, id, at) && pos < node.elemCount
    modifies node`bitPosition, node`view, node`Repr
    ensures LoadedFor(node, log, d, id, at) && fresh(node.Repr - old(node.Repr)) && old(node.Repr) <= node.Repr
    ensures pos < |SlotsOf(log, d, id)| && p == SlotsOf(log, d, id)[pos] < MAX_PER_NODE
  {
    hide Loaded, BitsOf, OffsetsOf, Ascending;
    p := LoadedPosition(node, pos, IsLeaf(d, id), BitsOf(log, d, id), OffsetsOf(log, d, id, at));
    SlotInBits(BitsOf(log, d, id), pos);
  }

  lemma ChildNext(log: Log, d: nat, id: Id, from: nat, cur: nat, j: nat)
    requires id.level < d - 1 && SplitAt(SlotsOf(log, d, id), 256 * id.prefix, from, cur, j)
             && j < |SlotsOf(log, d, id)|
    requires 256 * id.prefix <= from && cur <= 256 * id.prefix + SlotsOf(log, d, id)[j]
    ensures LevelPrefixes(NodeIds(log, d), id.level + 1, from, 256 * id.prefix + SlotsOf(log, d, id)[j] + 1)
            == LevelPrefixes(NodeIds(log, d), id.level + 1, from, cur) + [256 * id.prefix + SlotsOf(log, d, id)[j]]
  {
    hide NodeIds, SlotsOf;
    var b := SlotsOf(log, d, id)[j];
    SlotsAreChildren(log, d, id, b);
    NoNodesInGap(log, d, id, from, cur, j, 256 * id.prefix + b);
    LevelGap(NodeIds(log, d), id.level + 1, from, cur, 256 * id.prefix + b);
  }

  lemma ChildrenEnd(log: Log, d: nat, id: Id, from: nat, cur: nat, j: nat, to: nat)
    requires id.level < d - 1 && SplitAt(SlotsOf(log, d, id), 256 * id.prefix, from, cur, j)
             && (cur == from || cur <= to)
    requires 256 * id.prefix <= from && to <= 256 * id.prefix + MAX_PER_NODE
    requires j < |SlotsOf(log, d, id)| ==> to <= 256 * id.prefix + SlotsOf(log, d, id)[j]
    ensures LevelPrefixes(NodeIds(log, d), id.level + 1, from, to)
            == LevelPrefixes(NodeIds(log, d), id.level + 1, from, cur)
  {
    hide NodeIds, SlotsOf, LevelPrefixes;
    if cur <= to {
      NoNodesInGap(log, d, id, from, cur, j, to);
      LevelGap(NodeIds(log, d), id.level + 1, from, cur, to);
    } else {
      LevelNone(NodeIds(log, d), id.level + 1, from, cur);
      LevelNone(NodeIds(log, d), id.level + 1, from, to);
    }
  }

  // ---- the leaf level ----

  /** The leaves between those of begin and end. */
  ghost function Reach(log: Log, d: nat, begin: nat, end: nat): seq<nat>
    requires d >= 1
  {
    InReach(log, d, d - 1, begin, end)
  }

  /** Every logged key in range belongs to the last leaf in reach. */
  ghost predicate OnlyLastLeaf(log: Log, d: nat, begin: nat, end: nat)
    requires d >= 1
  {
    forall k :: begin <= k <= end && ValuesOf(log, k) != [] ==>
      Reach(log, d, begin, end) != [] && k / 256 == Reach(log, d, begin, end)[|Reach(log, d, begin, end)| - 1]
  }

  ghost function LastLeaf(log: Log, d: nat, begin: nat, end: nat): Id
    requires d >= 1 && Reach(log, d, begin, end) != []
  {
    Id(d - 1, Reach(log, d, begin, end)[|Reach(log, d, begin, end)| - 1])
  }

  /** The number of lists that the first m leaves in reach read. */
  ghost function KeysRead(log: Log, d: nat, begin: nat, end: nat, m: nat): nat
    requires d >= 1 && m <= |Reach(log, d, begin, end)|
  {
    if m == 0 then 0
    else KeysRead(log, d, begin, end, m - 1) + KeysInLeaf(log, begin, end, Reach(log, d, begin, end)[m - 1])
  }

  /** The state after m leaves. All headers have been read before the first list, so the cursor starts behind the last
      leaf's header. A single leaf is read correctly. Of several, all read on from the last leaf's first list,
          as long as
      no seek leads elsewhere. From behind the end of the file nothing is read. */
  ghost predicate LeafRun(log: Log, d: nat, at: Places, begin: nat, end: nat, stray: nat, size: nat, m: nat,
                          cursor: nat, answer: seq<Value>, ret: seq<Value>)
    requires d >= 1
  {
    var reach := Reach(log, d, begin, end);
    m <= |reach| && ret <= answer &&
    (reach != [] && m == 0 ==> answer == ret && cursor == HeaderEnd(log, d, at, LastLeaf(log, d, begin, end))) &&
    (|reach| == 1 && m == 1 ==> answer == ret + ByKey(log, begin, end + 1)) &&
    (|reach| >= 2 && m >= 1 && Astray(log, begin, stray, size) ==> answer == ret && cursor >= size) &&
    (|reach| >= 2 && Calm(log, begin, stray) ==>
       Following(log, d, at, LastLeaf(log, d, begin, end), size, KeysRead(log, d, begin, end, m), cursor, ret, answer))
  }

  lemma ReachIs(log: Log, d: nat, begin: nat, end: nat, m: nat)
    requires d >= 1 && m < |Reach(log, d, begin, end)|
    ensures var reach := Reach(log, d, begin, end);
            && begin / 256 <= reach[m] <= end / 256 && Id(d - 1, reach[m]) in NodeIds(log, d)
            && (m < |reach| - 1 ==> reach[m] < reach[|reach| - 1])
  {
    hide NodeIds, LevelPrefixes;
    PrefixParent(begin, d, d - 1);
    PrefixParent(end, d, d - 1);
    PrefixAll(begin, d);
    PrefixAll(end, d);
    LevelMembers(NodeIds(log, d), d - 1, Prefix(begin, d, d - 1), Prefix(end, d, d - 1) + 1);
    assert Reach(log, d, begin, end)[m] in Reach(log, d, begin, end);
  }

  /** Every logged key in range is below a leaf in reach. */
  lemma InSomeLeaf(log: Log, d: nat, begin: nat, end: nat, k: nat) returns (m: nat)
    requires d >= 1 && begin <= k <= end && ValuesOf(log, k) != []
    ensures m < |Reach(log, d, begin, end)| && Reach(log, d, begin, end)[m] == k / 256
  {
    hide ValuesOf, InReach, Prefix;
    PathInReach(log, d, d - 1, begin, end, k);
    PrefixParent(k, d, d - 1);
    PrefixAll(k, d);
    m :| 0 <= m < |Reach(log, d, begin, end)| && Reach(log, d, begin, end)[m] == k / 256;
  }

  /** If all keys in range are in the last leaf, its values in range are the answer. */
  lemma LastLeafIsAll(log: Log, d: nat, begin: nat, end: nat)
    requires d >= 1 && OnlyLastLeaf(log, d, begin, end) && Reach(log, d, begin, end) != []
    ensures var p := LastLeaf(log, d, begin, end).prefix;
            ByKey(log, Max(begin, 256 * p), Min(end + 1, 256 * p + MAX_PER_NODE)) == ByKey(log, begin, end + 1)
  {
    hide NodeIds, Reach, ValuesOf, ByKey;
    ReachIs(log, d, begin, end, |Reach(log, d, begin, end)| - 1);
    var p := LastLeaf(log, d, begin, end).prefix;
    var from, to := Max(begin, 256 * p), Min(end + 1, 256 * p + MAX_PER_NODE);
    if from <= to {
      ByKeyGap(log, begin, to, end + 1);
      ByKeySkip(log, begin, from, to);
    } else {
      ByKeyNone(log, from, to);
      ByKeyNone(log, begin, end + 1);
    }
  }

  /** Leaves in reach beside another one are not the root, so they have a first list. */
  lemma ReachHasLists(log: Log, d: nat, begin: nat, end: nat, m: nat)
    requires d >= 1 && KeysFit(log, d) && |Reach(log, d, begin, end)| >= 2 && m < |Reach(log, d, begin, end)|
    ensures SlotsOf(log, d, Id(d - 1, Reach(log, d, begin, end)[m])) != []
  {
    hide NodeIds, Reach, SlotsOf;
    var last := |Reach(log, d, begin, end)| - 1;
    ReachIs(log, d, begin, end, m);
    ReachIs(log, d, begin, end, 0);
    ReachIs(log, d, begin, end, last);
    LevelBound(log, d, Id(d - 1, Reach(log, d, begin, end)[last]));
    LeafNotEmpty(log, d, Id(d - 1, Reach(log, d, begin, end)[m]));
  }

  /** If the leaf of begin has a key before begin, it is the first in reach. */
  lemma LeafOfBegin(log: Log, d: nat, begin: nat, end: nat)
    requires d >= 1 && KeyBefore(log, begin) && Reach(log, d, begin, end) != []
    ensures Reach(log, d, begin, end)[0] == begin / 256
  {
    hide NodeIds, ValuesOf, LevelPrefixes, Prefix;
    var k :| k < begin && k / 256 == begin / 256 && ValuesOf(log, k) != [];
    var reach := Reach(log, d, begin, end);
    ReachIs(log, d, begin, end, 0);
    KeyHasLeaf(log, d, k);
    PrefixParent(begin, d, d - 1);
    PrefixParent(end, d, d - 1);
    PrefixAll(begin, d);
    PrefixAll(end, d);
    LevelMembers(NodeIds(log, d), d - 1, Prefix(begin, d, d - 1), Prefix(end, d, d - 1) + 1);
    assert begin / 256 in reach;
  }

  lemma KeyHasLeaf(log: Log, d: nat, k: nat)
    requires d >= 1 && ValuesOf(log, k) != []
    ensures Id(d - 1, k / 256) in NodeIds(log, d)
  {
    hide NodeIds, ValuesOf, Prefix;
    ValuesOfNone(log, k);
    PrefixParent(k, d, d - 1);
    PrefixAll(k, d);
    NodeIdsMember(log, d, Id(d - 1, k / 256));
  }

  /** Of several leaves in reach only that of begin can be without a key from begin on, and then it has one before. */
  lemma OnlyBefore(log: Log, d: nat, begin: nat, end: nat, m: nat)
    requires d >= 1 && KeysFit(log, d) && |Reach(log, d, begin, end)| >= 2 && m < |Reach(log, d, begin, end)|
    requires !HasFrom(log, begin, Reach(log, d, begin, end)[m])
    ensures KeyBefore(log, begin)
  {
    hide NodeIds, ValuesOf, Reach, SlotsOf;
    ReachIs(log, d, begin, end, m);
    ReachHasLists(log, d, begin, end, m);
    var key := FirstKey(log, d, Id(d - 1, Reach(log, d, begin, end)[m]));
  }

  /** One more leaf, read as ReadLeaf reads it. */
  lemma LeafRunStep(log: Log, d: nat, at: Places, begin: nat, end: nat, stray: nat, size: nat, m: nat,
                    cursor: nat, cursor': nat, answer: seq<Value>, answer': seq<Value>, ret: seq<Value>)
    requires d >= 1 && KeysFit(log, d) && m < |Reach(log, d, begin, end)| && answer <= answer'
    requires LeafRun(log, d, at, begin, end, stray, size, m, cursor, answer, ret)
    requires var p, q, r := Reach(log, d, begin, end)[m], LastLeaf(log, d, begin, end), KeysRead(log, d, begin, end, m);
             && (cursor == HeaderEnd(log, d, at, Id(d - 1, p)) ==>
                   answer' == answer + ByKey(log, Max(begin, 256 * p), Min(end + 1, 256 * p + MAX_PER_NODE)))
             && (!HasFrom(log, begin, p) ==> answer' == answer && cursor' == cursor + stray)
             && (cursor >= size ==> answer' == answer && cursor' >= size)
             && (!Straddled(log, begin) && (HasFrom(log, begin, p) || stray == 0)
                 && Following(log, d, at, q, size, r, cursor, ret, answer) ==>
                   Following(log, d, at, q, size, r + KeysInLeaf(log, begin, end, p), cursor', ret, answer'))
    ensures LeafRun(log, d, at, begin, end, stray, size, m + 1, cursor', answer', ret)
  {
    hide NodeIds, Reach, SlotsOf, ValuesOf, ByKey, HeaderEnd, Following, OnlyLastLeaf, HasFrom, Straddled, KeyBefore,
         KeysInLeaf, KeysRead, Astray;
    var reach := Reach(log, d, begin, end);
    KeysReadStep(log, d, begin, end, m);
    if |reach| == 1 {
      OneLeafIsLast(log, d, begin, end);
      LastLeafIsAll(log, d, begin, end);
    } else {
      if Astray(log, begin, stray, size) { AstrayStart(log, d, begin, end, stray, size); }
      if !HasFrom(log, begin, reach[m]) { OnlyBefore(log, d, begin, end, m); }
    }
  }

  lemma KeysReadStep(log: Log, d: nat, begin: nat, end: nat, m: nat)
    requires d >= 1 && m < |Reach(log, d, begin, end)|
    ensures KeysRead(log, d, begin, end, m + 1)
            == KeysRead(log, d, begin, end, m) + KeysInLeaf(log, begin, end, Reach(log, d, begin, end)[m])
  {}

  lemma AstrayStart(log: Log, d: nat, begin: nat, end: nat, stray: nat, size: nat)
    requires d >= 1 && Astray(log, begin, stray, size) && Reach(log, d, begin, end) != []
    ensures !HasFrom(log, begin, Reach(log, d, begin, end)[0]) && stray >= size
  {
    hide Reach, HasFrom;
    LeafOfBegin(log, d, begin, end);
  }

  lemma ReachAscends(log: Log, d: nat, begin: nat, end: nat, i: nat, j: nat)
    requires d >= 1 && i < j < |Reach(log, d, begin, end)|
    ensures Reach(log, d, begin, end)[i] < Reach(log, d, begin, end)[j]
  {
    hide NodeIds, LevelPrefixes;
    LevelMembers(NodeIds(log, d), d - 1, Prefix(begin, d, d - 1), Prefix(end, d, d - 1) + 1);
  }

  /** The bound below which the first m leaves in reach have their keys in range. */
  ghost function ReadUpTo(log: Log, d: nat, begin: nat, end: nat, m: nat): (bound: nat)
    requires d >= 1 && m <= |Reach(log, d, begin, end)|
  {
    if m == 0 then begin else Min(end + 1, 256 * Reach(log, d, begin, end)[m - 1] + MAX_PER_NODE)
  }

  /** No key is logged between the leaves in reach. */
  lemma NoKeyBetween(log: Log, d: nat, begin: nat, end: nat, m: nat, k: nat)
    requires d >= 1 && m <= |Reach(log, d, begin, end)| && begin <= k <= end && k >= ReadUpTo(log, d, begin, end, m)
    requires m < |Reach(log, d, begin, end)| ==> k < 256 * Reach(log, d, begin, end)[m]
    ensures ValuesOf(log, k) == []
  {
    hide Reach, ValuesOf;
    if ValuesOf(log, k) != [] {
      var j := InSomeLeaf(log, d, begin, end, k);
      if j < m - 1 { ReachAscends(log, d, begin, end, j, m - 1); }
      if m < j { ReachAscends(log, d, begin, end, m, j); }
    }
  }

  /** The leaves read as many lists as there are keys in range below the bound. */
  lemma {:induction false} KeysReadAre(log: Log, d: nat, begin: nat, end: nat, m: nat)
    requires d >= 1 && |Reach(log, d, begin, end)| >= 2 && m <= |Reach(log, d, begin, end)|
    ensures begin <= ReadUpTo(log, d, begin, end, m) <= end + 1
    ensures KeyCount(log, begin, ReadUpTo(log, d, begin, end, m)) == KeysRead(log, d, begin, end, m)
  {
    hide Reach, ValuesOf, KeyCount, NodeIds;
    ReachIs(log, d, begin, end, 0);
    ReachIs(log, d, begin, end, |Reach(log, d, begin, end)| - 1);
    if m == 0 {
      KeyCountNone(log, begin, begin);
    } else {
      KeysReadAre(log, d, begin, end, m - 1);
      ReachIs(log, d, begin, end, m - 1);
      var p, before := Reach(log, d, begin, end)[m - 1], ReadUpTo(log, d, begin, end, m - 1);
      var from, to := Max(begin, 256 * p), Min(end + 1, 256 * p + MAX_PER_NODE);
      if m >= 2 { ReachAscends(log, d, begin, end, m - 2, m - 1); }
      forall k | before <= k < from ensures ValuesOf(log, k) == [] { NoKeyBetween(log, d, begin, end, m - 1, k); }
      KeyCountGap(log, begin, before, from);
      KeyCountCompose(log, begin, from, to);
    }
  }

  /** All leaves together read as many lists as there are keys in range. */
  lemma AllKeysRead(log: Log, d: nat, begin: nat, end: nat)
    requires d >= 1 && |Reach(log, d, begin, end)| >= 2
    ensures KeysRead(log, d, begin, end, |Reach(log, d, begin, end)|) == KeyCount(log, begin, end + 1)
  {
    hide Reach, ValuesOf, KeyCount, NodeIds;
    var m := |Reach(log, d, begin, end)|;
    KeysReadAre(log, d, begin, end, m);
    var before := ReadUpTo(log, d, begin, end, m);
    forall k | before <= k < end + 1 ensures ValuesOf(log, k) == [] { NoKeyBetween(log, d, begin, end, m, k); }
    KeyCountGap(log, begin, before, end + 1);
  }

  /** The state of level i after m of its nodes, those below c. */
  ghost predicate FileProgress(log: Log, d: nat, at: Places, i: nat, begin: nat, end: nat, stray: nat, size: nat,
                               m: nat, c: nat, cursor: nat, next: seq<nat>, answer: seq<Value>, ret: seq<Value>)
    requires i < d
  {
    if i == d - 1 then LeafRun(log, d, at, begin, end, stray, size, m, cursor, answer, ret)
    else
      && answer == ret && Progress(log, d, i, begin, end, c, next, [], [])
      && BehindLast(cursor, i + 1, next, log, d, at)
  }

  lemma FileProgressStart(log: Log, d: nat, at: Places, i: nat, begin: nat, end: nat, stray: nat, size: nat,
                          cursor: nat, ret: seq<Value>)
    requires i < d && BehindLast(cursor, i, InReach(log, d, i, begin, end), log, d, at)
    ensures FileProgress(log, d, at, i, begin, end, stray, size, 0, Prefix(begin, d, i), cursor, [], ret, ret)
  {
    hide NodeIds, Prefix, HeaderEnd, ByKey, InReach, Following, Straddled;
    ProgressStart(log, d, i, begin, end, []);
    if i == d - 1 { EmptyRun(log, d, at, begin, end, stray, size, cursor, ret); }
  }

  lemma EmptyRun(log: Log, d: nat, at: Places, begin: nat, end: nat, stray: nat, size: nat, cursor: nat,
                 ret: seq<Value>)
    requires d >= 1
    requires Reach(log, d, begin, end) != [] ==> cursor == HeaderEnd(log, d, at, LastLeaf(log, d, begin, end))
    ensures LeafRun(log, d, at, begin, end, stray, size, 0, cursor, ret, ret)
  {
    hide Reach, ByKey, HasFrom, Straddled, ListsSize, SlotsOf;
    if Reach(log, d, begin, end) != [] {
      var q := LastLeaf(log, d, begin, end);
      assert SlotsOf(log, d, q)[..0] == [];
      SizeStart([], ListsOf(log, q));
    }
  }

  lemma FileProgressGap(log: Log, d: nat, at: Places, i: nat, begin: nat, end: nat, stray: nat, size: nat, m: nat,
                        c: nat, p: nat, cursor: nat, next: seq<nat>, answer: seq<Value>, ret: seq<Value>)
    requires i < d && c <= p && NoNodes(NodeIds(log, d), i, c, p)
    requires FileProgress(log, d, at, i, begin, end, stray, size, m, c, cursor, next, answer, ret)
    ensures FileProgress(log, d, at, i, begin, end, stray, size, m, p, cursor, next, answer, ret)
  {
    hide NodeIds, Progress, LeafRun, BehindLast;
    if i < d - 1 { ProgressGap(log, d, i, begin, end, c, p, next, [], []); }
  }

  /** One node of a level read from the file. */
  method VisitNode(fp: Stream, node: TrieNode, prefixValue: nat, begin: nat, end: nat, prefixBegin: nat, prefixEnd: nat,
                   stray: u32, queue: seq<TrieNode>, prefixes: seq<nat>, answer: seq<Value>,
                   ghost log: Log, ghost d: nat, ghost id: Id, ghost at: Places, ghost space: set<object>, ghost m: nat,
                       ghost ret: seq<Value>)
      returns (queue': seq<TrieNode>, prefixes': seq<nat>, answer': seq<Value>, ghost space': set<object>)
    requires Represents(fp.data, log, d, at) && id in NodeIds(log, d) && id.level < d && prefixValue == 256 * id.prefix
    requires prefixBegin == Prefix(begin, d, id.level + 1) && prefixEnd == Prefix(end, d, id.level + 1)
    requires LoadedFor(node, log, d, id, at) && fp !in Foot(node) && Foot(node) !! space
    requires FileQueue(queue, id.level + 1, prefixes, log, d, at, space) && fp !in space
    requires id.level == d - 1 ==> m < |Reach(log, d, begin, end)| && Reach(log, d, begin, end)[m] == id.prefix
    requires FileProgress(log, d, at, id.level, begin, end, stray, |fp.data|, m, id.prefix, fp.pos, prefixes, answer,
                          ret)
    modifies fp`pos, node`bitPosition, node`view, node`Repr
    ensures FileQueue(queue', id.level + 1, prefixes', log, d, at, space') && fresh(space' - space) && fp !in space'
    ensures FileProgress(log, d, at, id.level, begin, end, stray, |fp.data|, m + 1, id.prefix + 1, fp.pos, prefixes',
                         answer', ret)
  {
    hide NodeIds, Prefix, Written, BitsOf, OffsetsOf, SlotsOf, LoadedFor, FileQueue, BehindLast, HeaderEnd, LeafRun,
         Progress, LevelPrefixes,
         Reach, ByKey, Following, KeyCount, ValuesOf, KeysFit;
    CountFor(node, log, d, id, at);
    queue', prefixes', answer', space' := queue, prefixes, answer, space;
    ghost var cursor := fp.pos;
    if node.isLeaf {
      LoadedLeaf(node, log, d, id, at);
      ReachIs(log, d, begin, end, |Reach(log, d, begin, end)| - 1);
      answer' := ReadLeaf(fp, node, prefixValue, begin, end, stray, answer, log, d, id, at,
                          LastLeaf(log, d, begin, end),
                          KeysRead(log, d, begin, end, m), ret);
      LeafRunStep(log, d, at, begin, end, stray, |fp.data|, m, cursor, fp.pos, answer, answer', ret);
    } else {
      ProgressInner(log, d, id.level, begin, end, id.prefix, prefixes, [], []);
      queue', prefixes', space' := ReadChildren(fp, node, prefixValue, prefixBegin, prefixEnd, queue, prefixes, log, d,
                                                id, at, space);
    }
  }

  lemma LoadedLeaf(node: TrieNode, log: Log, d: nat, id: Id, at: Places)
    requires LoadedFor(node, log, d, id, at) && IsLeaf(d, id)
    ensures Loaded(node, true, BitsOf(log, d, id), OffsetsOf(log, d, id, at))
  {
    hide Loaded, BitsOf, OffsetsOf;
  }

  /** The answer is what n reads from the first list of leaf q on give: the values of its first n keys, in key order. If
      it has fewer, the reading goes on behind its lists, where nothing is left if no key is logged behind the leaf. */
  ghost predicate Gathered(log: Log, d: nat, q: Id, n: nat, answer: seq<Value>, ret: seq<Value>) {
    var k := |SlotsOf(log, d, q)|;
    if n <= k || NothingBehind(log, q.prefix) then answer == ret + SlotValues(log, d, q, Min(n, k))
    else ret + SlotValues(log, d, q, k) <= answer
  }

  /** What the leaf level makes of the answer. */
  ghost predicate FileAnswer(log: Log, d: nat, begin: nat, end: nat, stray: nat, size: nat, answer: seq<Value>,
                             ret: seq<Value>)
    requires d >= 1
  {
    && ret <= answer
    && (|Reach(log, d, begin, end)| <= 1 ==> answer == ret + ByKey(log, begin, end + 1))
    && (|Reach(log, d, begin, end)| >= 2 && Astray(log, begin, stray, size) ==> answer == ret)
    && (|Reach(log, d, begin, end)| >= 2 && Calm(log, begin, stray) ==>
          Gathered(log, d, LastLeaf(log, d, begin, end), KeyCount(log, begin, end + 1), answer, ret))
  }

  lemma FileLevelEnd(log: Log, d: nat, at: Places, i: nat, begin: nat, end: nat, stray: nat, size: nat, m: nat, c: nat,
                     cursor: nat, next: seq<nat>, answer: seq<Value>, ret: seq<Value>)
    requires i < d && NoNodes(NodeIds(log, d), i, c, Prefix(end, d, i) + 1)
    requires FileProgress(log, d, at, i, begin, end, stray, size, m, c, cursor, next, answer, ret)
    requires i == d - 1 ==> m == |Reach(log, d, begin, end)| > 0 && EndsFile(log, d, at, begin, end, size)
    ensures i < d - 1 ==>
              answer == ret && next == InReach(log, d, i + 1, begin, end) && BehindLast(cursor, i + 1, next, log, d, at)
    ensures i == d - 1 ==> FileAnswer(log, d, begin, end, stray, size, answer, ret)
  {
    hide NodeIds, Prefix, Progress, BehindLast, HeaderEnd, ByKey, SlotsOf, SlotValues, Reach, InReach, Straddled,
         Astray,
         Calm, ListsEnd, NothingBehind, Aligned;
    if i < d - 1 {
      ProgressEnd(log, d, i, begin, end, c, next, [], []);
    } else if |Reach(log, d, begin, end)| >= 2 {
      AllKeysRead(log, d, begin, end);
    }
  }

  /** If no key is logged behind the last leaf in reach, its lists end the file. */
  ghost predicate EndsFile(log: Log, d: nat, at: Places, begin: nat, end: nat, size: nat)
    requires d >= 1
  {
    Reach(log, d, begin, end) != [] && NothingBehind(log, LastLeaf(log, d, begin, end).prefix) ==>
      ListsEnd(log, d, at, LastLeaf(log, d, begin, end)) == size
  }

  lemma LastEndsFile(data: seq<byte>, log: Log, d: nat, at: Places, begin: nat, end: nat)
    requires Represents(data, log, d, at) && d >= 1
    ensures EndsFile(log, d, at, begin, end, |data|)
  {
    hide Represents, NodeIds, Reach, ListsEnd, NothingBehind;
    if Reach(log, d, begin, end) != [] && NothingBehind(log, LastLeaf(log, d, begin, end).prefix) {
      ReachIs(log, d, begin, end, |Reach(log, d, begin, end)| - 1);
      TailOf(data, log, d, at, LastLeaf(log, d, begin, end));
    }
  }

  /** One level of queryFromFile. */
  method ReadLevel(fp: Stream, d: nat, i: nat, begin: nat, end: nat, stray: u32, queue: seq<TrieNode>,
                   prefixes: seq<nat>, ret: seq<Value>,
                   ghost log: Log, ghost at: Places, ghost space: set<object>)
      returns (queue': seq<TrieNode>, prefixes': seq<nat>, answer: seq<Value>, ghost space': set<object>)
    requires Represents(fp.data, log, d, at) && i < d && fp !in space
    requires FileQueue(queue, i, prefixes, log, d, at, space) && prefixes == InReach(log, d, i, begin, end)
             && queue != []
    requires BehindLast(fp.pos, i, prefixes, log, d, at)
    modifies fp`pos, space
    ensures FileQueue(queue', i + 1, prefixes', log, d, at, space') && fresh(space') && fp !in space'
    ensures i < d - 1 ==> answer == ret && prefixes' == InReach(log, d, i + 1, begin, end)
    ensures i < d - 1 ==> BehindLast(fp.pos, i + 1, prefixes', log, d, at)
    ensures i == d - 1 ==> FileAnswer(log, d, begin, end, stray, |fp.data|, answer, ret)
  {
    hide NodeIds, Prefix, Written, KeysFit, LoadedFor, FileQueue, BehindLast, FileProgress, FileAnswer, LevelPrefixes,
         Pow256, Mod, Div, EndsFile, Ended;
    var prefixBegin, prefixEnd := Prefix(begin, d, i + 1), Prefix(end, d, i + 1);
    ghost var ids, c, last, sp, m: nat := NodeIds(log, d), Prefix(begin, d, i), Prefix(end, d, i) + 1, space, 0;
    var q, ps := queue, prefixes;
    queue', prefixes', answer, space' := [], [], ret, {};
    FileQueueEmpty(queue, i, prefixes, log, d, at, space);
    FileQueueNone(i + 1, log, d, at);
    FileProgressStart(log, d, at, i, begin, end, stray, |fp.data|, fp.pos, ret);
    while q != []
      invariant FileQueue(q, i, ps, log, d, at, sp) && sp <= space
      invariant FileQueue(queue', i + 1, prefixes', log, d, at, space') && fresh(space') && fp !in space'
      invariant ps == LevelPrefixes(ids, i, c, last) && m <= |prefixes| && ps == prefixes[m..]
      invariant FileProgress(log, d, at, i, begin, end, stray, |fp.data|, m, c, fp.pos, prefixes', answer, ret)
      decreases |q|
    {
      FileQueueEmpty(q, i, ps, log, d, at, sp);
      FileQueueHead(q, i, ps, log, d, at, sp);
      LevelHead(ids, i, c, last);
      var node, p := q[0], ps[0];
      PrefixFits(log, d, i, p);
      FileProgressGap(log, d, at, i, begin, end, stray, |fp.data|, m, c, p, fp.pos, prefixes', answer, ret);
      var prefixValue := Mod(p * 256, Pow256(d));
      sp := sp - Foot(node);
      queue', prefixes', answer,
          space' := VisitNode(fp, node, prefixValue, begin, end, prefixBegin, prefixEnd, stray, queue', prefixes',
                              answer,
                                                     log, d, Id(i, p), at, space', m, ret);
      q, ps, c, m := q[1..], ps[1..], p + 1, m + 1;
    }
    FileQueueEmpty(q, i, ps, log, d, at, sp);
    LevelEmpty(ids, i, c, last);
    LastEndsFile(fp.data, log, d, at, begin, end);
    FileLevelEnd(log, d, at, i, begin, end, stray, |fp.data|, m, c, fp.pos, prefixes', answer, ret);
  }

  /** Shifting a node's prefix left by a byte does not leave the key type. */
  lemma PrefixFits(log: Log, d: nat, i: nat, p: nat)
    requires i < d && KeysFit(log, d) && Id(i, p) in NodeIds(log, d)
    ensures p < Pow256(i) && 256 * p + 255 < Pow256(d) && Mod(p * 256, Pow256(d)) == 256 * p
  {
    hide NodeIds;
    LevelBound(log, d, Id(i, p));
    ShiftFits(p, i, d);
  }

  lemma RootPlace(data: seq<byte>, log: Log, d: nat, at: Places, begin: nat, end: nat)
    requires Represents(data, log, d, at) && begin < Pow256(d) && end < Pow256(d)
    ensures d >= 1 && ROOT in NodeIds(log, d) && PlaceOf(at, ROOT) == 0 && InReach(log, d, 0, begin, end) == [0]
  {
    hide NodeIds, ImageAt, Pow256, InReach;
    StartInReach(log, d, begin, end);
  }

  /** A range without a leaf in reach. */
  lemma FileOutOfReach(log: Log, d: nat, i: nat, begin: nat, end: nat, stray: nat, size: nat, ret: seq<Value>)
    requires i < d && InReach(log, d, i, begin, end) == []
    ensures Reach(log, d, begin, end) == [] && FileAnswer(log, d, begin, end, stray, size, ret, ret)
  {
    hide NodeIds, InReach, ValuesOf, FirstValues;
    OutOfReach(log, d, i, begin, end, []);
    forall k | begin <= k < end + 1 ensures ValuesOf(log, k) == [] {
      if ValuesOf(log, k) != [] { PathInReach(log, d, d - 1, begin, end, k); }
    }
    ByKeyNone(log, begin, begin);
    if begin <= end + 1 { ByKeyGap(log, begin, begin, end + 1); } else { ByKeyNone(log, begin, end + 1); }
  }

  /** queryFromFile on a file that holds the log's trie. Of several leaves in reach only that of begin can be without a
      key from begin on, so a single number stands for what is read behind an offset array. */
  method QueryFromFile(data: seq<byte>, d: nat, begin: nat, end: nat, stray: u32, ret: seq<Value>, ghost log: Log,
                       ghost at: Places)
      returns (ok: bool, ret': seq<Value>)
    requires Represents(data, log, d, at) && begin < Pow256(d) && end < Pow256(d)
    ensures ok <==> Reach(log, d, begin, end) != []
    ensures FileAnswer(log, d, begin, end, stray, |data|, ret', ret)
  {
    hide NodeIds, Prefix, Represents, LoadedFor, FileQueue, FileAnswer, LevelPrefixes, Pow256, InReach, HeaderEnd;
    var fp := new Stream(data);
    RootPlace(data, log, d, at, begin, end);
    var nodePtr := ReadNodeOf(fp, log, d, ROOT, at);
    FileQueueRoot(nodePtr, log, d, at);
    var TQ: seq<seq<TrieNode>>, prefix: seq<seq<nat>> := [[nodePtr], []], [[0], []];
    ghost var space := Foot(nodePtr);
    ret' := ret;
    var i: nat := 0;
    while i < d
      invariant i <= d && |TQ| == 2 && |prefix| == 2 && fp.data == data && fp !in space && fresh(space)
      invariant FileQueue(TQ[i % 2], i, prefix[i % 2], log, d, at, space)
      invariant i < d ==> prefix[i % 2] == InReach(log, d, i, begin, end) && ret' == ret
      invariant i < d ==> BehindLast(fp.pos, i, prefix[i % 2], log, d, at)
      invariant i > 0 ==> InReach(log, d, i - 1, begin, end) != []
      invariant i == d ==> FileAnswer(log, d, begin, end, stray, |data|, ret', ret)
    {
      var currentQueue := i % 2;
      FileQueueEmpty(TQ[currentQueue], i, prefix[currentQueue], log, d, at, space);
      if TQ[currentQueue] == [] {
        FileOutOfReach(log, d, i, begin, end, stray, |data|, ret);
        return false, ret';
      }
      var next, nextPrefix;
      next, nextPrefix, ret',
          space := ReadLevel(fp, d, i, begin, end, stray, TQ[currentQueue], prefix[currentQueue], ret', log, at, space);
      TQ := TQ[currentQueue := []][1 - currentQueue := next];
      prefix := prefix[currentQueue := []][1 - currentQueue := nextPrefix];
      i := i + 1;
    }
    ok := true;
  }

  // ---- when a query on the file is right ----

  lemma {:induction false} ByKeyFrom(log: Log, lo: nat, hi: nat, x: Value) returns (key: nat)
    requires x in ByKey(log, lo, hi)
    ensures lo <= key < hi && x in ValuesOf(log, key)
    decreases hi
  {
    if x in ValuesOf(log, hi - 1) { key := hi - 1; } else { key := ByKeyFrom(log, lo, hi - 1, x); }
  }

  lemma {:induction false} ValueLogged(log: Log, key: nat, x: Value) returns (j: nat)
    requires x in ValuesOf(log, key)
    ensures j < |log| && log[j] == Entry(key, x)
  {
    var init, last := log[..|log| - 1], log[|log| - 1];
    if last == Entry(key, x) { j := |log| - 1; } else { j := ValueLogged(init, key, x); }
  }

  /** A value logged once has one key. */
  lemma OneKey(log: Log, k: nat, l: nat, x: Value)
    requires StrictlyInOrder(log) && x in ValuesOf(log, k) && x in ValuesOf(log, l)
    ensures k == l
  {
    hide ValuesOf;
    var i := ValueLogged(log, k, x);
    var j := ValueLogged(log, l, x);
  }

  /** With one leaf in reach, all keys in range are in it. */
  lemma OneLeafIsLast(log: Log, d: nat, begin: nat, end: nat)
    requires d >= 1 && |Reach(log, d, begin, end)| <= 1
    ensures OnlyLastLeaf(log, d, begin, end)
  {
    hide ValuesOf, Reach;
    forall k | begin <= k <= end && ValuesOf(log, k) != []
      ensures Reach(log, d, begin, end) != [] && k / 256 == Reach(log, d, begin, end)[|Reach(log, d, begin, end)| - 1]
    {
      var m := InSomeLeaf(log, d, begin, end, k);
    }
  }

  /** A key in range below another leaf than the last comes first, in key order. */
  lemma FirstByKey(log: Log, d: nat, begin: nat, end: nat) returns (key: nat)
    requires d >= 1 && Reach(log, d, begin, end) != [] && !OnlyLastLeaf(log, d, begin, end)
    ensures ByKey(log, begin, end + 1) != [] && ByKey(log, begin, end + 1)[0] in ValuesOf(log, key)
    ensures key / 256 < LastLeaf(log, d, begin, end).prefix
  {
    hide ValuesOf, Reach, NodeIds, ByKey;
    var last := |Reach(log, d, begin, end)| - 1;
    var k :| begin <= k <= end && ValuesOf(log, k) != [] && k / 256 != Reach(log, d, begin, end)[last];
    var m := InSomeLeaf(log, d, begin, end, k);
    ReachIs(log, d, begin, end, m);
    ReachIs(log, d, begin, end, last);
    var cut := 256 * Reach(log, d, begin, end)[last];
    ByKeyCompose(log, begin, cut, end + 1);
    ByKeyHas(log, begin, cut, k);
    var part := ByKey(log, begin, cut);
    assert part[0] in part;
    key := ByKeyFrom(log, begin, cut, part[0]);
  }

  lemma FirstKey(log: Log, d: nat, id: Id) returns (key: nat)
    requires d >= 1 && id.level == d - 1 && SlotsOf(log, d, id) != []
    ensures key / 256 == id.prefix && ValuesOf(log, key) != [] && FirstValues(log, d, id) == ValuesOf(log, key)
  {
    hide ValuesOf, Ascending, NodeIds;
    SlotInBits(BitsOf(log, d, id), 0);
    key := 256 * id.prefix + SlotsOf(log, d, id)[0];
  }

  lemma {:induction false} ByKeyHas(log: Log, lo: nat, hi: nat, key: nat)
    requires lo <= key < hi && ValuesOf(log, key) != []
    ensures ByKey(log, lo, hi) != []
    decreases hi
  {
    if key < hi - 1 { ByKeyHas(log, lo, hi - 1, key); }
  }

  /** A query of the file answers the matching values key by key if at most one leaf is in reach. With more, and as long
      as no seek leads elsewhere, the answer begins with the last leaf's first list, and is complete if that leaf has
      enough keys or none is logged behind it; it is then right only if all keys in range are in the last leaf, which
      means one leaf unless the leaf of begin has a key before begin. With such keys and none from begin on, a number
      behind the offset array that is as large as the file leaves nothing to read. */
  lemma FileQueryIsRight(log: Log, d: nat, begin: nat, end: nat, stray: nat, size: nat, answer: seq<Value>)
    requires d >= 1 && KeysFit(log, d) && FileAnswer(log, d, begin, end, stray, size, answer, [])
    ensures |Reach(log, d, begin, end)| <= 1 ==> answer == ByKey(log, begin, end + 1)
    ensures |Reach(log, d, begin, end)| >= 2 && Calm(log, begin, stray) ==>
              Gathered(log, d, LastLeaf(log, d, begin, end), |KeysIn(log, begin, end + 1)|, answer, [])
    ensures StrictlyInOrder(log) && !KeyBefore(log, begin) ==>
              Calm(log, begin, stray) && (answer == ByKey(log, begin, end + 1) <==> |Reach(log, d, begin, end)| <= 1)
    ensures stray == 0 && OnlyLastLeaf(log, d, begin, end) ==> answer == ByKey(log, begin, end + 1)
    ensures StrictlyInOrder(log) && stray == 0 && !Straddled(log, begin) ==>
              (answer == ByKey(log, begin, end + 1) <==> OnlyLastLeaf(log, d, begin, end))
    ensures |Reach(log, d, begin, end)| >= 2 && Astray(log, begin, stray, size) ==> answer == []
  {
    hide ValuesOf, Reach, OnlyLastLeaf, ByKey, Gathered, KeysIn, KeyCount, StrictlyInOrder, Straddled, KeyBefore,
         Astray;
    KeyCountIs(log, begin, end + 1);
    if !KeyBefore(log, begin) { NoKeyBefore(log, d, begin, end); }
    if |Reach(log, d, begin, end)| <= 1 {
      OneLeafIsLast(log, d, begin, end);
    } else {
      if OnlyLastLeaf(log, d, begin, end) { OnlyLastNotStraddled(log, d, begin, end); }
      if Calm(log, begin, stray) {
        if OnlyLastLeaf(log, d, begin, end) {
          GatheredOnlyLast(log, d, begin, end, answer);
        } else if StrictlyInOrder(log) {
          GatheredFirst(log, d, begin, end, answer);
          AnswersWrong(log, d, begin, end, answer);
        }
      }
    }
  }

  /** If all keys in range are in the last of several leaves in reach, begin straddles none. */
  lemma OnlyLastNotStraddled(log: Log, d: nat, begin: nat, end: nat)
    requires d >= 1 && OnlyLastLeaf(log, d, begin, end) && |Reach(log, d, begin, end)| >= 2
    ensures !Straddled(log, begin)
  {
    hide ValuesOf, Reach, NodeIds;
    ReachIs(log, d, begin, end, 0);
    ReachIs(log, d, begin, end, |Reach(log, d, begin, end)| - 1);
  }

  /** The keys in range are the last leaf's, if all are. */
  lemma GatheredOnlyLast(log: Log, d: nat, begin: nat, end: nat, answer: seq<Value>)
    requires d >= 1 && OnlyLastLeaf(log, d, begin, end) && |Reach(log, d, begin, end)| >= 2
    requires Gathered(log, d, LastLeaf(log, d, begin, end), KeyCount(log, begin, end + 1), answer, [])
    ensures answer == ByKey(log, begin, end + 1)
  {
    hide ValuesOf, Reach, NodeIds, SlotsOf, SlotValues, ByKey, KeyCount, NothingBehind;
    ReachIs(log, d, begin, end, 0);
    ReachIs(log, d, begin, end, |Reach(log, d, begin, end)| - 1);
    var q := LastLeaf(log, d, begin, end);
    var lo, hi := 256 * q.prefix, Min(end + 1, 256 * q.prefix + MAX_PER_NODE);
    LastLeafIsAll(log, d, begin, end);
    SlotValuesAre(log, d, q, hi);
    KeyCountGap(log, begin, hi, end + 1);
    KeyCountGap(log, begin, begin, lo);
    KeyCountNone(log, begin, begin);
    KeyCountCompose(log, begin, lo, hi);
  }

  /** Several leaves in reach begin the answer with the last one's first list, if one of them has a key in range. */
  lemma GatheredFirst(log: Log, d: nat, begin: nat, end: nat, answer: seq<Value>)
    requires d >= 1 && KeysFit(log, d) && !OnlyLastLeaf(log, d, begin, end) && |Reach(log, d, begin, end)| >= 2
    requires Gathered(log, d, LastLeaf(log, d, begin, end), KeyCount(log, begin, end + 1), answer, [])
    ensures FirstValues(log, d, LastLeaf(log, d, begin, end)) <= answer
  {
    hide ValuesOf, Reach, NodeIds, SlotsOf, SlotValues, FirstValues, KeyCount, NothingBehind;
    var q := LastLeaf(log, d, begin, end);
    ReachHasLists(log, d, begin, end, |Reach(log, d, begin, end)| - 1);
    var k :| begin <= k <= end && ValuesOf(log, k) != [] && k / 256 != q.prefix;
    KeyCountHas(log, begin, end + 1, k);
    SlotValuesStart(log, d, q, Min(KeyCount(log, begin, end + 1), |SlotsOf(log, d, q)|));
    SlotValuesStart(log, d, q, |SlotsOf(log, d, q)|);
  }

  lemma {:induction false} KeyCountHas(log: Log, lo: nat, hi: nat, key: nat)
    requires lo <= key < hi && ValuesOf(log, key) != []
    ensures KeyCount(log, lo, hi) >= 1
    decreases hi
  {
    if key < hi - 1 { KeyCountHas(log, lo, hi - 1, key); }
  }

  lemma {:induction false} SlotValuesStart(log: Log, d: nat, id: Id, j: nat)
    requires 1 <= j <= |SlotsOf(log, d, id)|
    ensures FirstValues(log, d, id) <= SlotValues(log, d, id, j)
  {
    hide SlotsOf, ValuesOf;
    if j > 1 { SlotValuesStart(log, d, id, j - 1); }
  }

  /** An answer that begins with the last leaf's first list is wrong if another leaf has a key in range. */
  lemma AnswersWrong(log: Log, d: nat, begin: nat, end: nat, answer: seq<Value>)
    requires d >= 1 && KeysFit(log, d) && StrictlyInOrder(log) && !OnlyLastLeaf(log, d, begin, end)
    requires Reach(log, d, begin, end) != [] ==> FirstValues(log, d, LastLeaf(log, d, begin, end)) <= answer
    ensures answer != ByKey(log, begin, end + 1)
  {
    hide ValuesOf, Reach, OnlyLastLeaf, ByKey, FirstValues, SlotsOf, StrictlyInOrder;
    if |Reach(log, d, begin, end)| <= 1 { OneLeafIsLast(log, d, begin, end); }
    var last := LastLeaf(log, d, begin, end);
    ReachHasLists(log, d, begin, end, |Reach(log, d, begin, end)| - 1);
    var key := FirstByKey(log, d, begin, end);
    var read := FirstKey(log, d, last);
    assert answer[0] == FirstValues(log, d, last)[0];
    if answer == ByKey(log, begin, end + 1) { OneKey(log, key, read, answer[0]); }
  }

  /** Without a key before begin in its leaf, all keys in range are in the last leaf exactly if no other is in reach. */
  lemma NoKeyBefore(log: Log, d: nat, begin: nat, end: nat)
    requires d >= 1 && KeysFit(log, d) && !KeyBefore(log, begin)
    ensures !Straddled(log, begin) && (OnlyLastLeaf(log, d, begin, end) <==> |Reach(log, d, begin, end)| <= 1)
  {
    hide ValuesOf, Reach, SlotsOf, NodeIds, Straddled;
    NotStraddled(log, begin);
    if |Reach(log, d, begin, end)| <= 1 {
      OneLeafIsLast(log, d, begin, end);
    } else {
      var last := |Reach(log, d, begin, end)| - 1;
      ReachIs(log, d, begin, end, 0);
      ReachIs(log, d, begin, end, last);
      ReachHasLists(log, d, begin, end, 0);
      var key := FirstKey(log, d, Id(d - 1, Reach(log, d, begin, end)[0]));
      assert key / 256 >= begin / 256;
      assert begin <= key <= end;
    }
  }

  /** From a leaf's first key on there is no key before begin in its leaf. */
  lemma FromLeafStart(log: Log, begin: nat)
    requires begin % 256 == 0
    ensures !KeyBefore(log, begin)
  {
    hide ValuesOf;
  }

  /** A range within the keys of one leaf reaches at most that leaf. */
  lemma OneLeafReach(log: Log, d: nat, begin: nat, end: nat)
    requires d >= 1 && begin / 256 == end / 256
    ensures |Reach(log, d, begin, end)| <= 1
  {
    hide InReach;
    if |Reach(log, d, begin, end)| >= 2 {
      ReachIs(log, d, begin, end, 0);
      ReachIs(log, d, begin, end, |Reach(log, d, begin, end)| - 1);
    }
  }

  /** A single key is answered the same from memory and from the file. */
  lemma SingleKey(log: Log, key: nat)
    ensures Absorb(log, key, key + 1, []) == ByKey(log, key, key + 1) == ValuesOf(log, key)
  {
    hide ValuesOf;
    AbsorbNone(log, key, key, []);
    ByKeyNone(log, key, key);
    MergeNothing(ValuesOf(log, key));
    ByKeyStep(log, key, key);
  }

  lemma {:induction false} MergeNothing(list: seq<Value>)
    ensures Merge(list, []) == list
  {
    if list != [] { MergeNothing(list[1..]); }
  }

  /** Both answers hold the same values. */
  lemma SameValues(log: Log, begin: nat, end: nat)
    ensures multiset(ByKey(log, begin, end + 1)) == multiset(Absorb(log, begin, end + 1, []))
  {
    hide ByKey, Absorb, InRange;
    AbsorbMultiset(log, begin, end + 1, []);
    ByKeyMultiset(log, begin, end + 1);
  }

  /** Any run of addItem calls, then a query, then write2file and the same query on the file. */
  method QueryBoth(depth: nat, items: Log, begin: nat, end: nat, stray: u32)
      returns (fromMem: seq<Value>, image: seq<byte>, fromFile: seq<Value>)
    requires depth >= 1 && KeysFit(items, depth) && begin < Pow256(depth) && end < Pow256(depth)
    ensures fromMem == Absorb(items, begin, end + 1, []) && |image| <= (1 + |items| * depth) * NodeBound(items)
    ensures |image| < WORD && ShortLists(items) && |Reach(items, depth, begin, end)| <= 1 ==>
              fromFile == ByKey(items, begin, end + 1) && multiset(fromFile) == multiset(fromMem)
    ensures |image| < WORD && ShortLists(items) && begin == end ==> fromFile == fromMem
    ensures |image| < WORD && ShortLists(items) && |Reach(items, depth, begin, end)| >= 2
            && Calm(items, begin, stray) ==>
              Gathered(items, depth, LastLeaf(items, depth, begin, end), |KeysIn(items, begin, end + 1)|, fromFile, [])
    ensures |image| < WORD && ShortLists(items) && StrictlyInOrder(items) && !KeyBefore(items, begin) ==>
              (fromFile == ByKey(items, begin, end + 1) <==> |Reach(items, depth, begin, end)| <= 1)
    ensures |image| < WORD && ShortLists(items) && stray == 0 && OnlyLastLeaf(items, depth, begin, end) ==>
              fromFile == ByKey(items, begin, end + 1)
    ensures |image| < WORD && ShortLists(items) && StrictlyInOrder(items) && stray == 0 && !Straddled(items, begin) ==>
              (fromFile == ByKey(items, begin, end + 1) <==> OnlyLastLeaf(items, depth, begin, end))
    ensures |image| < WORD && ShortLists(items) && |Reach(items, depth, begin, end)| >= 2
            && Astray(items, begin, stray, |image|) ==>
              fromFile == []
  {
    hide Absorb, InRange, ByKey, ValuesOf, StrictlyInOrder, Reach, Ready, Shaped, Written, Pow256, FileAnswer, KeysFit,
         ShortLists,
         OnlyLastLeaf, Straddled, KeyBefore, Astray, Calm, Gathered, KeysIn, NodeBound, InOrderOf, NodeIds;
    var t := Load(depth, items);
    var ok;
    ok, fromMem := QueryFromMem(t, begin, end, []);
    var fp;
    ghost var at;
    ghost var order;
    fp, at, order := WriteToFile(t);
    image, fromFile := fp.data, [];
    ImageBound(|image|, items, depth, order);
    if |image| < WORD && ShortLists(items) {
      ok, fromFile := QueryFromFile(image, depth, begin, end, stray, [], items, at);
      FileQueryIsRight(items, depth, begin, end, stray, |image|, fromFile);
      SameValues(items, begin, end);
      if begin == end {
        OneLeafReach(items, depth, begin, end);
        OneLeafIsLast(items, depth, begin, end);
        SingleKey(items, begin);
      }
    }
  }
}
