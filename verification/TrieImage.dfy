/** The image of a whole trie in an index file: breadth first, every inner node recording where its children are. */
module TrieImages {
  import opened Bytes
  import opened Bitmaps
  import opened Enumerate
  import opened FlowLog
  import opened NodeFiles
  import opened TrieNodes
  import opened TriePaths
  import opened TrieWalks
  import opened Words

  /** The slots a node of the logged keys has taken. */
  ghost function BitsOf(log: Log, d: nat, id: Id): set<nat> {
    set b: nat | b < MAX_PER_NODE
        && (if id.level < d - 1 then Child(id, b) in NodeIds(log, d) else ValuesOf(log, 256 * id.prefix + b) != [])
  }

  /** The values of a leaf's keys. */
  ghost function ListsOf(log: Log, id: Id): (values: seq<seq<Value>>)
    ensures |values| == MAX_PER_NODE
  {
    seq(MAX_PER_NODE, b requires 0 <= b => ValuesOf(log, 256 * id.prefix + b))
  }

  ghost function SlotsOf(log: Log, d: nat, id: Id): seq<nat> {
    Ascending(BitsOf(log, d, id), MAX_PER_NODE)
  }

  ghost predicate IsLeaf(d: nat, id: Id) {
    id.level >= d - 1
  }

  /** The bytes of a node's image. */
  ghost function SizeOf(log: Log, d: nat, id: Id): nat {
    NodeSize(IsLeaf(d, id), BitsOf(log, d, id), ListsOf(log, id))
  }

  ghost function SizesOf(log: Log, d: nat, queue: seq<Id>): nat {
    if queue == [] then 0 else SizesOf(log, d, queue[..|queue| - 1]) + SizeOf(log, d, queue[|queue| - 1])
  }

  /** Where each node's image begins. */
  type Places = map<Id, nat>

  ghost function PlaceOf(at: Places, id: Id): nat {
    if id in at then at[id] else 0
  }

  /** The offsets an inner node records for the children in the given slots. */
  ghost function ChildOffsets(slots: seq<nat>, id: Id, at: Places): (offs: seq<nat>)
    ensures |offs| == |slots|
  {
    if slots == [] then []
    else ChildOffsets(slots[..|slots| - 1], id, at) + [PlaceOf(at, Child(id, slots[|slots| - 1])) % WORD]
  }

  /** A node's image is at its place. */
  ghost predicate ImageAt(data: seq<byte>, log: Log, d: nat, id: Id, at: Places) {
    var bits, slots, lists := BitsOf(log, d, id), SlotsOf(log, d, id), ListsOf(log, id);
    id in at &&
    if IsLeaf(d, id) then
      && NodeAt(data, at[id], true, bits, ListOffsets(slots, lists))
      && At(data, at[id] + 39 + 4 * |slots|, Lists(slots, lists))
    else NodeAt(data, at[id], false, bits, ChildOffsets(slots, id, at))
  }

  /** The file holds the image of every node of the logged keys, the root's first. */
  ghost predicate Written(data: seq<byte>, log: Log, d: nat, at: Places) {
    && at.Keys == NodeIds(log, d) && ROOT in at && at[ROOT] == 0
    && forall id :: id in at ==> ImageAt(data, log, d, id, at)
  }

  /** The file ends with the image of the node that comes last in breadth-first order. */
  ghost predicate Ended(size: nat, log: Log, d: nat, at: Places) {
    exists last :: Latest(NodeIds(log, d), last) && EndsAt(size, log, d, last, at)
  }

  ghost predicate EndsAt(size: nat, log: Log, d: nat, id: Id, at: Places) {
    id in at && at[id] + SizeOf(log, d, id) == size
  }

  // ---- sums ----

  lemma SizesSnoc(log: Log, d: nat, queue: seq<Id>, id: Id)
    ensures SizesOf(log, d, queue + [id]) == SizesOf(log, d, queue) + SizeOf(log, d, id)
  {
    assert (queue + [id])[..|queue|] == queue;
  }

  lemma {:induction false} SizesHead(log: Log, d: nat, queue: seq<Id>)
    requires queue != []
    ensures SizesOf(log, d, queue) == SizeOf(log, d, queue[0]) + SizesOf(log, d, queue[1..])
  {
    hide SizeOf;
    if |queue| > 1 {
      var init := queue[..|queue| - 1];
      SizesHead(log, d, init);
      assert queue[1..] == init[1..] + [queue[|queue| - 1]];
      SizesSnoc(log, d, init[1..], queue[|queue| - 1]);
    } else {
      assert queue[1..] == [];
      assert queue[..0] == [];
    }
  }

  lemma OffsetsSnoc(slots: seq<nat>, i: nat, id: Id, at: Places)
    requires i < |slots|
    ensures ChildOffsets(slots[..i + 1], id, at)
            == ChildOffsets(slots[..i], id, at) + [PlaceOf(at, Child(id, slots[i])) % WORD]
  {
    assert slots[..i + 1][..i] == slots[..i];
  }

  /** Placing another node does not move the children that have a place. */
  lemma {:induction false} OffsetsStay(slots: seq<nat>, id: Id, at: Places, x: Id, p: nat)
    requires x !in at && forall s :: s in slots ==> Child(id, s) in at
    ensures ChildOffsets(slots, id, at[x := p]) == ChildOffsets(slots, id, at)
  {
    if slots != [] {
      assert slots[|slots| - 1] in slots;
      OffsetsStay(slots[..|slots| - 1], id, at, x, p);
    }
  }

  // ---- the state of the writer ----

  /** The queued nodes will follow each other from base on. */
  ghost predicate Scheduled(log: Log, d: nat, base: nat, queue: seq<Id>, at: Places) {
    forall k :: 0 <= k < |queue| ==> queue[k] in at && at[queue[k]] == base + SizesOf(log, d, queue[..k])
  }

  /** Exactly the nodes seen so far have a place, and the given ones have been written there. */
  ghost predicate Recorded(data: seq<byte>, log: Log, d: nat, written: set<Id>, done: set<Id>, queue: seq<Id>,
                           at: Places) {
    && written <= done
    && (forall x :: x in at <==> x in done || x in queue)
    && (forall id :: id in written ==> ImageAt(data, log, d, id, at))
  }

  lemma WriterStart(log: Log, d: nat)
    ensures Scheduled(log, d, 0, [ROOT], map[ROOT := 0]) && Recorded([], log, d, {}, {}, [ROOT], map[ROOT := 0])
    ensures SizesOf(log, d, [ROOT]) == SizeOf(log, d, ROOT) && SizesOf(log, d, []) == 0
  {
    hide SizeOf;
    var q := [ROOT];
    assert q[..0] == [];
    SizesSnoc(log, d, [], ROOT);
    assert [] + [ROOT] == q;
  }

  lemma ScheduledPop(log: Log, d: nat, base: nat, queue: seq<Id>, at: Places)
    requires Scheduled(log, d, base, queue, at) && queue != []
    ensures queue[0] in at && at[queue[0]] == base
    ensures Scheduled(log, d, base + SizeOf(log, d, queue[0]), queue[1..], at)
    ensures SizesOf(log, d, queue) == SizeOf(log, d, queue[0]) + SizesOf(log, d, queue[1..])
  {
    hide SizeOf;
    SizesHead(log, d, queue);
    assert queue[..0] == [];
    forall k | 0 <= k < |queue| - 1
      ensures queue[1..][k] in at
              && at[queue[1..][k]] == base + SizeOf(log, d, queue[0]) + SizesOf(log, d, queue[1..][..k])
    {
      SizesHead(log, d, queue[..k + 1]);
      assert queue[..k + 1][1..] == queue[1..][..k];
    }
  }

  lemma ScheduledPush(log: Log, d: nat, base: nat, queue: seq<Id>, at: Places, x: Id)
    requires Scheduled(log, d, base, queue, at) && x !in at
    ensures Scheduled(log, d, base, queue + [x], at[x := base + SizesOf(log, d, queue)])
  {
    hide SizesOf;
    var queue' := queue + [x];
    assert queue'[..|queue|] == queue;
    forall k | 0 <= k < |queue| ensures queue'[..k] == queue[..k] {}
  }

  lemma NodeStays(data: seq<byte>, more: seq<byte>, p: nat, leaf: bool, bits: set<nat>, offs: seq<nat>)
    requires NodeAt(data, p, leaf, bits, offs)
    ensures NodeAt(data + more, p, leaf, bits, offs)
  {
    hide At, Bitmaps.WordsHold, Header, U32s;
    var words :| |words| == 8 && WordsHold(words, bits) && At(data, p, Header(leaf, |bits|, words) + U32s(offs));
    AtExtend(data, more, p, Header(leaf, |bits|, words) + U32s(offs));
  }

  lemma ImageStays(data: seq<byte>, more: seq<byte>, log: Log, d: nat, id: Id, at: Places)
    requires ImageAt(data, log, d, id, at)
    ensures ImageAt(data + more, log, d, id, at)
  {
    hide NodeAt, At, BitsOf, SlotsOf, ListsOf, ListOffsets, Lists, ChildOffsets;
    var bits, slots, lists := BitsOf(log, d, id), SlotsOf(log, d, id), ListsOf(log, id);
    if IsLeaf(d, id) {
      NodeStays(data, more, at[id], true, bits, ListOffsets(slots, lists));
      AtExtend(data, more, at[id] + 39 + 4 * |slots|, Lists(slots, lists));
    } else {
      NodeStays(data, more, at[id], false, bits, ChildOffsets(slots, id, at));
    }
  }

  lemma ImageKeepsPlaces(data: seq<byte>, log: Log, d: nat, id: Id, at: Places, x: Id, p: nat)
    requires ImageAt(data, log, d, id, at) && x !in at
    requires !IsLeaf(d, id) ==> forall b :: b in SlotsOf(log, d, id) ==> Child(id, b) in at
    ensures ImageAt(data, log, d, id, at[x := p])
  {
    hide NodeAt, At, BitsOf, SlotsOf, ListsOf, ListOffsets, Lists, ChildOffsets;
    if !IsLeaf(d, id) { OffsetsStay(SlotsOf(log, d, id), id, at, x, p); }
  }

  lemma SlotsAreChildren(log: Log, d: nat, id: Id, b: nat)
    ensures b in SlotsOf(log, d, id) <==> b in BitsOf(log, d, id)
    ensures b in SlotsOf(log, d, id) && !IsLeaf(d, id) ==> b < MAX_PER_NODE && Child(id, b) in NodeIds(log, d)
  {
    hide NodeIds, ValuesOf, Ascending;
    AscendingIsSortedEnumeration(BitsOf(log, d, id), MAX_PER_NODE);
  }

  /** Queueing a child and giving it a place keeps everything written. */
  lemma RecordedPush(data: seq<byte>, log: Log, d: nat, done: set<Id>, queue: seq<Id>, cur: Id, c: nat, at: Places,
                     x: Id, p: nat)
    requires Walk(NodeIds(log, d), done, queue, cur, c) && x !in at
    requires Recorded(data, log, d, done - {cur}, done, queue, at)
    ensures Recorded(data, log, d, done - {cur}, done, queue + [x], at[x := p])
  {
    hide NodeIds, ImageAt, SlotsOf;
    forall id | id in done - {cur} ensures ImageAt(data, log, d, id, at[x := p]) {
      forall b | b in SlotsOf(log, d, id) && !IsLeaf(d, id) ensures Child(id, b) in at {
        SlotsAreChildren(log, d, id, b);
        assert Parent(Child(id, b)) == id;
      }
      ImageKeepsPlaces(data, log, d, id, at, x, p);
    }
  }

  /** The bytes at the end of the file are where they were put. */
  lemma AtEnd(data: seq<byte>, bs: seq<byte>)
    ensures At(data + bs, |data|, bs)
  {}

  /** Writing the node at its place adds its image. */
  lemma RecordedWrite(data: seq<byte>, more: seq<byte>, log: Log, d: nat, done: set<Id>, queue: seq<Id>, cur: Id,
                      at: Places)
    requires Recorded(data, log, d, done - {cur}, done, queue, at) && ImageAt(data + more, log, d, cur, at)
    ensures Recorded(data + more, log, d, done, done, queue, at)
  {
    hide ImageAt;
    forall id | id in done ensures ImageAt(data + more, log, d, id, at) {
      if id != cur { ImageStays(data, more, log, d, id, at); }
    }
  }

  lemma InnerImage(data: seq<byte>, log: Log, d: nat, id: Id, at: Places, words: seq<nat>)
    requires id in at && at[id] == |data| && !IsLeaf(d, id)
    requires |words| == 8 && WordsHold(words, BitsOf(log, d, id))
    ensures var image := Header(false, |BitsOf(log, d, id)|, words) + U32s(ChildOffsets(SlotsOf(log, d, id), id, at));
            ImageAt(data + image, log, d, id, at) && |image| == SizeOf(log, d, id)
  {
    hide At, Bitmaps.WordsHold, Header, U32s, BitsOf, ListsOf;
    BitsAreSlots(log, d, id);
    OffsetsFit(SlotsOf(log, d, id), id, at);
    HeaderSize(false, |BitsOf(log, d, id)|, words, ChildOffsets(SlotsOf(log, d, id), id, at));
    AtEnd(data, Header(false, |BitsOf(log, d, id)|, words) + U32s(ChildOffsets(SlotsOf(log, d, id), id, at)));
  }

  lemma LeafImage(data: seq<byte>, log: Log, d: nat, id: Id, at: Places, words: seq<nat>)
    requires id in at && at[id] == |data| && IsLeaf(d, id)
    requires |words| == 8 && WordsHold(words, BitsOf(log, d, id))
    ensures var slots, lists := SlotsOf(log, d, id), ListsOf(log, id);
            var image := Header(true, |BitsOf(log, d, id)|, words) + U32s(ListOffsets(slots, lists))
                + Lists(slots, lists);
            ImageAt(data + image, log, d, id, at) && |image| == SizeOf(log, d, id)
  {
    hide At, Bitmaps.WordsHold, Header, U32s, BitsOf, ListsOf, ListOffsets, Lists;
    var bits, slots, lists := BitsOf(log, d, id), SlotsOf(log, d, id), ListsOf(log, id);
    BitsAreSlots(log, d, id);
    ListOffsetsFit(slots, lists);
    HeaderSize(true, |bits|, words, ListOffsets(slots, lists));
    var head := Header(true, |bits|, words) + U32s(ListOffsets(slots, lists));
    AtEnd(data, head + Lists(slots, lists));
    AtConcat(data + (head + Lists(slots, lists)), |data|, head, |data| + 39 + 4 * |slots|, Lists(slots, lists));
  }

  lemma HeaderSize(leaf: bool, count: nat, words: seq<nat>, offs: seq<nat>)
    requires |words| == 8
    ensures |Header(leaf, count, words) + U32s(offs)| == 39 + 4 * |offs|
  {}

  lemma BitsAreSlots(log: Log, d: nat, id: Id)
    ensures |SlotsOf(log, d, id)| == |BitsOf(log, d, id)|
  {
    hide NodeIds, ValuesOf, Ascending;
    AscendingCountAll(BitsOf(log, d, id), MAX_PER_NODE);
  }

  lemma {:induction false} OffsetsFit(slots: seq<nat>, id: Id, at: Places)
    ensures forall o :: o in ChildOffsets(slots, id, at) ==> o < WORD
  {
    if slots != [] { OffsetsFit(slots[..|slots| - 1], id, at); }
  }

  lemma {:induction false} ListOffsetsFit(slots: seq<nat>, lists: seq<seq<Value>>)
    ensures forall o :: o in ListOffsets(slots, lists) ==> o < WORD
  {
    if slots != [] { ListOffsetsFit(slots[..|slots| - 1], lists); }
  }

  /** When the queue is empty, the whole trie has been written. */
  lemma WrittenAll(data: seq<byte>, log: Log, d: nat, at: Places)
    requires Recorded(data, log, d, NodeIds(log, d), NodeIds(log, d), [], at) && ROOT in at && at[ROOT] == 0
    ensures Written(data, log, d, at)
  {
    hide NodeIds, ImageAt;
    assert at.Keys == NodeIds(log, d);
  }
}
