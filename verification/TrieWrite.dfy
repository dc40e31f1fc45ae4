/** Writing a trie to a file. */
module TrieWriters {
  import opened Bitmaps
  import opened Bytes
  import opened Enumerate
  import opened FlowLog
  import opened ListFiles
  import opened NodeFiles
  import opened Radix
  import opened TrieImages
  import opened TrieNodes
  import opened TriePaths
  import opened TrieQueries
  import opened TrieWalks
  import opened Tries
  import opened Words

  /** Writing a leaf empties its lists. The leaves not yet written hold their values. */
  ghost predicate Unwritten(t: Trie, done: set<Id>)
    reads t`nodes, t`views, t`log, t`Repr, t.Repr
  {
    Shaped(t) && LeavesHold(t.views, t.log, t.depth, done)
  }

  ghost predicate LeavesHold(views: Views, log: Log, d: nat, done: set<Id>) {
    forall id :: id in views && id.level == d - 1 && id !in done ==> Holds(views[id], id, log)
  }

  lemma UnwrittenStart(t: Trie)
    requires Ready(t)
    ensures Unwritten(t, {})
  {
    hide Shaped, Holds;
  }

  lemma UnwrittenIsShaped(t: Trie, done: set<Id>)
    requires Unwritten(t, done)
    ensures Shaped(t) && LeavesHold(t.views, t.log, t.depth, done)
  {
    hide Shaped;
  }

  lemma UnwrittenAgain(t: Trie, before: Views, done: set<Id>, done': set<Id>)
    requires Shaped(t) && OnlyListed(before, t.views) && LeavesHold(before, t.log, t.depth, done) && done <= done'
    ensures Unwritten(t, done')
  {
    hide Shaped, ValuesOf;
  }

  lemma UnwrittenLeaf(t: Trie, before: Views, done: set<Id>, id: Id)
    requires Shaped(t) && LeavesHold(before, t.log, t.depth, done)
    requires id in before && id in t.views && t.views == before[id := t.views[id]]
    ensures Unwritten(t, done + {id})
  {
    hide Shaped, Holds;
  }

  /** What a node not yet written shows is what the log says. */
  lemma ShowsLog(t: Trie, id: Id, done: set<Id>)
    requires Unwritten(t, done) && id in t.nodes && id !in done
    ensures id in t.views && (t.nodes[id].isLeaf <==> IsLeaf(t.depth, id))
    ensures t.views[id].bits == BitsOf(t.log, t.depth, id)
    ensures t.nodes[id].isLeaf ==> t.views[id].values == ListsOf(t.log, id)
    ensures NodeSize(t.nodes[id].isLeaf, t.views[id].bits, t.views[id].values) == SizeOf(t.log, t.depth, id)
  {
    hide TrieNode.Valid, Shaped, NodeIds, ValuesOf, Ascending, ListsSize;
    NodeKind(t, id);
    KnownSlots(t, id);
    BitsBound(t, id);
    if t.nodes[id].isLeaf {
      assert Holds(t.views[id], id, t.log);
      assert t.views[id].values == ListsOf(t.log, id);
    } else {
      forall b: nat | b < MAX_PER_NODE ensures b in t.views[id].bits <==> Child(id, b) in NodeIds(t.log, t.depth) {
        SlotLeads(t, id, b);
      }
    }
    assert t.views[id].bits == BitsOf(t.log, t.depth, id);
  }

  lemma BitsBound(t: Trie, id: Id)
    requires Shaped(t) && id in t.nodes
    ensures id in t.views && forall b :: b in t.views[id].bits ==> b < MAX_PER_NODE
  {
    hide TrieNode.Valid, InPlace, Separate, NodeIds, AllFresh, KeysFit;
    NodeFacts(t, id);
  }

  method TouchSize(t: Trie, node: TrieNode, ghost id: Id) returns (size: nat)
    requires t.Structure() && id in t.nodes && t.nodes[id] == node && t.views[id].accurate
    modifies node`bitPosition, node`view, node`Repr
    ensures fresh(node.Repr - old(node.Repr)) && t !in node.Repr
            && node.view == t.views[id].(listed := node.view.listed)
    ensures Separate(t.nodes, t.Repr + node.Repr)
            && InPlace(t.nodes, t.views[id := node.view], t.depth, t.Repr + node.Repr)
    ensures size == NodeSize(node.isLeaf, t.views[id].bits, t.views[id].values) % WORD
  {
    hide TrieNode.Valid, TrieNode.Shape, Placed, NodeSize, Pow256, Links, Separate, InPlace;
    BeforeListing(t, id);
    size := SizeOfFile(node);
    PlacedIntro(t.nodes, t.depth, id);
    t.OthersInPlace(id);
  }

  /** getSizeOfFile on a node of the trie. */
  method Size(t: Trie, node: TrieNode, ghost id: Id, ghost done: set<Id>) returns (size: nat)
    requires Unwritten(t, done) && id in t.nodes && t.nodes[id] == node && id !in done
    modifies t`views, t`Repr, node`bitPosition, node`view, node`Repr
    ensures Unwritten(t, done) && fresh(t.Repr - old(t.Repr)) && OnlyListed(old(t.views), t.views)
    ensures size == SizeOf(t.log, t.depth, id) % WORD
  {
    hide TrieNode.Valid, NodeIds, NodeSize, KeysFit, InPlace, Separate, LeavesHold, SizeOf;
    ShowsLog(t, id, done);
    KnownSlots(t, id);
    size := TouchSize(t, node, id);
    t.views := t.views[id := node.view];
    t.Repr := t.Repr + node.Repr;
    UnwrittenAgain(t, old(t.views), done, done);
  }

  method TouchWriteLeaf(t: Trie, node: TrieNode, fp: Stream, ghost id: Id)
    requires t.Structure() && id in t.nodes && t.nodes[id] == node && node.isLeaf && fp !in t.Repr
    modifies node.Repr, fp`data
    ensures fresh(node.Repr - old(node.Repr)) && t !in node.Repr && fp !in node.Repr
    ensures Separate(t.nodes, t.Repr + node.Repr)
            && InPlace(t.nodes, t.views[id := node.view], t.depth, t.Repr + node.Repr)
    ensures node.view == t.views[id].(listed := true, accurate := true, values := seq(MAX_PER_NODE, _ => []))
    ensures var slots := Ascending(t.views[id].bits, MAX_PER_NODE);
            fp.data == old(fp.data) + Header(true, |slots|, old(node.bitmap.byteArray[..]))
                       + U32s(ListOffsets(slots, t.views[id].values)) + Lists(slots, t.views[id].values)
  {
    hide TrieNode.Valid, TrieNode.Shape, Placed, NodeSize, Pow256, Links, Separate, InPlace, Header, U32s, Lists,
         ListOffsets, Ascending;
    BeforeListing(t, id);
    node.HasShape();
    WriteLeaf(node, fp);
    PlacedIntro(t.nodes, t.depth, id);
    t.OthersInPlace(id);
  }

  lemma WordsOf(node: TrieNode)
    requires node.Valid()
    ensures |node.bitmap.byteArray[..]| == 8 && WordsHold(node.bitmap.byteArray[..], node.view.bits)
  {}

  lemma CountedBits(t: Trie, id: Id)
    requires Shaped(t) && id in t.nodes
    ensures id in t.views && t.nodes[id].Valid()
            && t.nodes[id].elemCount == |t.views[id].bits| == |Ascending(t.views[id].bits, MAX_PER_NODE)|
    ensures t.nodes[id].view == t.views[id]
  {
    hide TrieNode.Valid, TrieNode.Shape, InPlace, Separate, NodeIds, AllFresh, KeysFit, Ascending;
    NodeFacts(t, id);
    t.nodes[id].HasShape();
  }

  /** write2file on a leaf of the trie, at its place. */
  method WriteLeafOf(t: Trie, node: TrieNode, fp: Stream, ghost id: Id, ghost done: set<Id>, ghost at: Places)
    requires Unwritten(t, done) && id in t.nodes && t.nodes[id] == node && id !in done && node.isLeaf && fp !in t.Repr
    requires id in at && at[id] == |fp.data|
    modifies t`views, t`Repr, node.Repr, fp`data
    ensures Unwritten(t, done + {id}) && fresh(t.Repr - old(t.Repr)) && fp !in t.Repr
    ensures old(fp.data) <= fp.data && |fp.data| == |old(fp.data)| + SizeOf(t.log, t.depth, id)
    ensures ImageAt(fp.data, t.log, t.depth, id, at)
  {
    hide TrieNode.Valid, TrieNode.Shape, NodeIds, KeysFit, InPlace, Separate, LeavesHold, SizeOf, Header, U32s, Lists,
         ListOffsets, Ascending,
         BitsOf, ListsOf, ImageAt, Holds;
    ShowsLog(t, id, done);
    CountedBits(t, id);
    KnownSlots(t, id);
    WordsOf(node);
    LeafImage(fp.data, t.log, t.depth, id, at, node.bitmap.byteArray[..]);
    ghost var before, count := t.views, node.elemCount;
    TouchWriteLeaf(t, node, fp, id);
    Regroup(old(fp.data), Header(true, count, old(node.bitmap.byteArray[..])),
            U32s(ListOffsets(SlotsOf(t.log, t.depth, id), ListsOf(t.log, id))),
                Lists(SlotsOf(t.log, t.depth, id), ListsOf(t.log, id)));
    t.views := t.views[id := node.view];
    t.Repr := t.Repr + node.Repr;
    UnwrittenLeaf(t, before, done, id);
  }

  lemma Regroup(a: seq<byte>, b: seq<byte>, c: seq<byte>, d: seq<byte>)
    ensures a + b + c + d == a + (b + c + d) && a <= a + b + c + d
  {}

  lemma Regroup3(a: seq<byte>, b: seq<byte>, c: seq<byte>)
    ensures a + b + c == a + (b + c) && a <= a + b + c
  {}

  method TouchWriteInner(t: Trie, node: TrieNode, offsetArray: array<nat>, fp: Stream, ghost id: Id)
    requires t.Structure() && id in t.nodes && t.nodes[id] == node && !node.isLeaf && fp !in t.Repr
    requires node.elemCount <= offsetArray.Length
    modifies node`fileOffArray, fp`data
    ensures Separate(t.nodes, t.Repr) && InPlace(t.nodes, t.views, t.depth, t.Repr)
    ensures fp.data == old(fp.data) + Header(false, node.elemCount, old(node.bitmap.byteArray[..]))
            + U32s(offsetArray[..node.elemCount])
  {
    hide TrieNode.Valid, TrieNode.Shape, Placed, Pow256, Links, Separate, InPlace, Header, U32s;
    BeforeListing(t, id);
    t.ShownBits(id);
    node.HasShape();
    SetAndWrite(node, offsetArray, fp);
    PlacedIntro(t.nodes, t.depth, id);
    t.OthersInPlace(id);
    SameViews(t, id);
  }

  lemma SameViews(t: Trie, id: Id)
    requires id in t.views && id in t.nodes && t.nodes[id].view == t.views[id] && t.nodes[id].Repr <= t.Repr
    ensures t.views[id := t.nodes[id].view] == t.views && t.Repr + t.nodes[id].Repr == t.Repr
  {}

  /** setFileOffset and write2file of an inner node. */
  method SetAndWrite(node: TrieNode, offsetArray: array<nat>, fp: Stream)
    requires node.Valid() && !node.isLeaf && node.elemCount <= offsetArray.Length && fp !in node.Repr
    modifies node`fileOffArray, fp`data
    ensures node.Valid()
    ensures fp.data == old(fp.data) + Header(false, node.elemCount, old(node.bitmap.byteArray[..]))
            + U32s(offsetArray[..node.elemCount])
  {
    hide ListsShow, Bitmap.Valid, TrieNode.CacheFresh, Header, U32s;
    node.fileOffArray := offsetArray;
    WriteInner(node, fp);
  }

  /** Writes an inner node of the trie at its place, once its children have been given theirs. */
  method WriteInnerOf(t: Trie, node: TrieNode, offsetArray: array<nat>, fp: Stream, ghost id: Id, ghost done: set<Id>,
                      ghost at: Places)
    requires Unwritten(t, done) && id in t.nodes && t.nodes[id] == node && !node.isLeaf && fp !in t.Repr
    requires id in at && at[id] == |fp.data| && node.elemCount == |SlotsOf(t.log, t.depth, id)| <= offsetArray.Length
    requires offsetArray[..node.elemCount] == ChildOffsets(SlotsOf(t.log, t.depth, id), id, at)
    requires t.views.Keys == t.nodes.Keys && t.views[id].bits == BitsOf(t.log, t.depth, id) && !IsLeaf(t.depth, id)
    modifies node`fileOffArray, fp`data
    ensures Unwritten(t, done)
    ensures old(fp.data) <= fp.data && |fp.data| == |old(fp.data)| + SizeOf(t.log, t.depth, id)
    ensures ImageAt(fp.data, t.log, t.depth, id, at)
  {
    hide TrieNode.Valid, TrieNode.Shape, NodeIds, KeysFit, InPlace, Separate, LeavesHold, SizeOf, Header, U32s,
         ChildOffsets, SlotsOf,
         BitsOf, ImageAt;
    UnwrittenIsShaped(t, done);
    CountedBits(t, id);
    KnownSlots(t, id);
    WordsOf(node);
    BitsAreSlots(t.log, t.depth, id);
    ghost var words, offs := node.bitmap.byteArray[..], ChildOffsets(SlotsOf(t.log, t.depth, id), id, at);
    InnerImage(fp.data, t.log, t.depth, id, at, words);
    TouchWriteInner(t, node, offsetArray, fp, id);
    Regroup3(old(fp.data), Header(false, node.elemCount, words), U32s(offs));
  }

  /** The writer while it places the children of one node: what is queued will follow from base on. */
  ghost predicate Placing(data: seq<byte>, log: Log, d: nat, base: nat, done: set<Id>, queue: seq<Id>, id: Id,
                          at: Places) {
    Scheduled(log, d, base, queue, at) && Recorded(data, log, d, done - {id}, done, queue, at)
  }

  /** The first i children have a place, which is in the offset array. */
  ghost predicate Noted(offsets: seq<nat>, slots: seq<nat>, i: nat, id: Id, at: Places)
    requires i <= |slots|
  {
    i <= |offsets| && offsets[..i] == ChildOffsets(slots[..i], id, at) && forall s :: s in slots[..i] ==>
          Child(id, s) in at
  }

  lemma NotedStep(offsets: seq<nat>, slots: seq<nat>, i: nat, id: Id, at: Places, p: nat)
    requires i < |slots| && i < |offsets| && Noted(offsets, slots, i, id, at) && Child(id, slots[i]) !in at
    ensures Noted(offsets[i := p % WORD], slots, i + 1, id, at[Child(id, slots[i]) := p])
  {
    var x := Child(id, slots[i]);
    OffsetsStay(slots[..i], id, at, x, p);
    OffsetsSnoc(slots, i, id, at[x := p]);
    assert slots[..i + 1] == slots[..i] + [slots[i]];
    assert offsets[i := p % WORD][..i + 1] == offsets[..i] + [p % WORD];
  }

  lemma PlacingStep(data: seq<byte>, log: Log, d: nat, base: nat, done: set<Id>, queue: seq<Id>, id: Id, c: nat, b: nat,
                    at: Places)
    requires Placing(data, log, d, base, done, queue, id, at)
    requires Walk(NodeIds(log, d), done, queue, id, c) && Walk(NodeIds(log, d), done, queue + [Child(id, b)], id, b + 1)
    ensures Child(id, b) !in at && Child(id, b) !in done
    ensures Placing(data, log, d, base, done, queue + [Child(id, b)], id,
                    at[Child(id, b) := base + SizesOf(log, d, queue)])
  {
    hide NodeIds, Recorded, Scheduled, SizesOf;
    var x := Child(id, b);
    var queue' := queue + [x];
    assert queue'[|queue|] == x && forall k :: 0 <= k < |queue| ==> queue'[k] == queue[k];
    NotPlaced(data, log, d, done, queue, id, at, x);
    RecordedPush(data, log, d, done, queue, id, c, at, x, base + SizesOf(log, d, queue));
    ScheduledPush(log, d, base, queue, at, x);
  }

  lemma NotPlaced(data: seq<byte>, log: Log, d: nat, done: set<Id>, queue: seq<Id>, id: Id, at: Places, x: Id)
    requires Recorded(data, log, d, done - {id}, done, queue, at) && x !in done && x !in queue
    ensures x !in at
  {
    hide ImageAt;
  }

  lemma NextPos(log: Log, d: nat, base: nat, queue: seq<Id>, x: Id)
    ensures ((base + SizesOf(log, d, queue)) % WORD + SizeOf(log, d, x) % WORD) % WORD
            == (base + SizesOf(log, d, queue + [x])) % WORD
  {
    hide SizeOf, SizesOf;
    SizesSnoc(log, d, queue, x);
    WrapAdd(base + SizesOf(log, d, queue), SizeOf(log, d, x));
  }

  lemma NotedStart(offsets: seq<nat>, slots: seq<nat>, id: Id, at: Places)
    ensures Noted(offsets, slots, 0, id, at) && StartsAt(slots, 0, 0, 0)
  {}

  lemma SameSlots(t: Trie, id: Id, done: set<Id>)
    requires Unwritten(t, done) && id in t.nodes && id !in done
    ensures id in t.views && SlotsOf(t.log, t.depth, id) == Ascending(t.views[id].bits, MAX_PER_NODE)
    ensures t.views[id].bits == BitsOf(t.log, t.depth, id) && t.views.Keys == t.nodes.Keys
    ensures t.nodes[id].elemCount == |SlotsOf(t.log, t.depth, id)| <= MAX_PER_NODE
    ensures t.nodes[id].isLeaf <==> IsLeaf(t.depth, id)
    ensures t.nodes[id] in t.Repr && t.nodes[id].Repr <= t.Repr && t !in t.Repr
            && t.nodes.Keys == NodeIds(t.log, t.depth)
  {
    hide TrieNode.Valid, LeavesHold, NodeIds, BitsOf, ListsOf, Ascending, SizeOf, InPlace, Separate, AllFresh, KeysFit;
    ShowsLog(t, id, done);
    KnownSlots(t, id);
    t.ShownBits(id);
    AscendingLength(t.views[id].bits, MAX_PER_NODE);
  }

  /** Queues the i-th child of an inner node, records where it will be written, and advances pos past it. */
  method PlaceChild(t: Trie, cur: TrieNode, i: nat, BQ: seq<TrieNode>, pos: nat, offsetArray: array<nat>,
                    ghost data: seq<byte>,
                    ghost base: nat, ghost id: Id, ghost c: nat, ghost done: set<Id>, ghost queue: seq<Id>,
                        ghost at: Places)
      returns (BQ': seq<TrieNode>, pos': nat, ghost c': nat, ghost queue': seq<Id>, ghost at': Places)
    requires Unwritten(t, done - {id}) && id in t.nodes && t.nodes[id] == cur && !cur.isLeaf && Latest(done, id)
    requires i < cur.elemCount == |SlotsOf(t.log, t.depth, id)| && offsetArray.Length == MAX_PER_NODE
             && offsetArray !in t.Repr
    requires StartsAt(SlotsOf(t.log, t.depth, id), 0, c, i)
    requires Queued(t.nodes, BQ, queue) && Walk(t.nodes.Keys, done, queue, id, c)
             && t.nodes.Keys == NodeIds(t.log, t.depth)
    requires Placing(data, t.log, t.depth, base, done, queue, id, at)
             && pos == (base + SizesOf(t.log, t.depth, queue)) % WORD
    requires Noted(offsetArray[..], SlotsOf(t.log, t.depth, id), i, id, at)
    modifies t`views, t`Repr, t.Repr, offsetArray
    ensures Unwritten(t, done - {id}) && fresh(t.Repr - old(t.Repr)) && t.nodes == old(t.nodes) && t.log == old(t.log)
    ensures c' <= MAX_PER_NODE && StartsAt(SlotsOf(t.log, t.depth, id), 0, c', i + 1)
    ensures Queued(t.nodes, BQ', queue') && Walk(t.nodes.Keys, done, queue', id, c')
    ensures Placing(data, t.log, t.depth, base, done, queue', id, at')
            && pos' == (base + SizesOf(t.log, t.depth, queue')) % WORD
    ensures (forall x :: x in at ==> x in at' && at'[x] == at[x])
            && Noted(offsetArray[..], SlotsOf(t.log, t.depth, id), i + 1, id, at')
  {
    hide TrieNode.Valid, Shaped, Unwritten, LeavesHold, Walk, Queued, Placing, Noted, SizesOf, SizeOf, NodeIds, BitsOf,
         SlotsOf, Ascending,
         OnlyListed, StartsAt, Trie.Structure, Child;
    SameSlots(t, id, done - {id});
    UnwrittenIsShaped(t, done - {id});
    ghost var before, slots := t.views, SlotsOf(t.log, t.depth, id);
    var child;
    ghost var b;
    child, b := ChildAt(t, cur, i, id, c, done, queue);
    UnwrittenAgain(t, before, done - {id}, done - {id});
    SameSlots(t, id, done - {id});
    ghost var x, p, offsets := Child(id, b), base + SizesOf(t.log, t.depth, queue), offsetArray[..];
    KnownSlots(t, x);
    PlacingStep(data, t.log, t.depth, base, done, queue, id, c, b, at);
    NotedStep(offsets, slots, i, id, at, p);
    QueuedOne(t.nodes, BQ, queue, x);
    NextPos(t.log, t.depth, base, queue, x);
    offsetArray[i] := pos;
    assert offsetArray[..] == offsets[i := pos];
    var size := Size(t, child, x, done - {id});
    BQ', pos', c', queue', at' := BQ + [child], (pos + size) % WORD, b + 1, queue + [x], at[x := p];
  }

  /** All children of an inner node. */
  method PlaceChildren(t: Trie, cur: TrieNode, BQ: seq<TrieNode>, pos: nat, offsetArray: array<nat>,
                       ghost data: seq<byte>,
                       ghost base: nat, ghost id: Id, ghost done: set<Id>, ghost queue: seq<Id>, ghost at: Places)
      returns (BQ': seq<TrieNode>, pos': nat, ghost queue': seq<Id>, ghost at': Places)
    requires Unwritten(t, done - {id}) && id in t.nodes && t.nodes[id] == cur && !cur.isLeaf && Latest(done, id)
    requires offsetArray.Length == MAX_PER_NODE && offsetArray !in t.Repr
    requires Queued(t.nodes, BQ, queue) && Walk(t.nodes.Keys, done, queue, id, 0)
    requires Placing(data, t.log, t.depth, base, done, queue, id, at)
             && pos == (base + SizesOf(t.log, t.depth, queue)) % WORD
    modifies t`views, t`Repr, t.Repr, offsetArray
    ensures Unwritten(t, done - {id}) && fresh(t.Repr - old(t.Repr))
    ensures t.nodes == old(t.nodes) && t.log == old(t.log)
    ensures Queued(t.nodes, BQ', queue') && Frontier(t.nodes.Keys, done, queue')
    ensures Placing(data, t.log, t.depth, base, done, queue', id, at')
            && pos' == (base + SizesOf(t.log, t.depth, queue')) % WORD
    ensures forall x :: x in at ==> x in at' && at'[x] == at[x]
    ensures Noted(offsetArray[..], SlotsOf(t.log, t.depth, id), |SlotsOf(t.log, t.depth, id)|, id, at')
  {
    hide TrieNode.Valid, Shaped, Unwritten, LeavesHold, Walk, Frontier, Queued, Placing, Noted, StartsAt, SizesOf,
         SizeOf, NodeIds, BitsOf,
         SlotsOf, Ascending;
    SameSlots(t, id, done - {id});
    ghost var slots, c: nat := SlotsOf(t.log, t.depth, id), 0;
    BQ', pos', queue', at' := BQ, pos, queue, at;
    NotedStart(offsetArray[..], slots, id, at);
    var i := 0;
    while i < cur.elemCount
      invariant Unwritten(t, done - {id}) && fresh(t.Repr - old(t.Repr)) && t.nodes == old(t.nodes)
                && t.log == old(t.log)
      invariant 0 <= i <= cur.elemCount == |slots| && c <= MAX_PER_NODE && StartsAt(slots, 0, c, i)
      invariant Queued(t.nodes, BQ', queue') && Walk(t.nodes.Keys, done, queue', id, c)
      invariant Placing(data, t.log, t.depth, base, done, queue', id, at')
                && pos' == (base + SizesOf(t.log, t.depth, queue')) % WORD
      invariant (forall x :: x in at ==> x in at' && at'[x] == at[x]) && Noted(offsetArray[..], slots, i, id, at')
      decreases |slots| - i
    {
      BQ', pos', c, queue', at' := PlaceChild(t, cur, i, BQ', pos', offsetArray, data, base, id, c, done, queue', at');
      i := i + 1;
      SameSlots(t, id, done - {id});
    }
    SameSlots(t, id, done - {id});
    UnwrittenIsShaped(t, done - {id});
    WalkOver(t, id, c, done, queue');
  }

  /** The writer between two nodes: pos is what has been written plus what the queued nodes will take. */
  ghost predicate Pending(data: seq<byte>, log: Log, d: nat, done: set<Id>, queue: seq<Id>, at: Places, pos: nat) {
    && Scheduled(log, d, |data|, queue, at) && Recorded(data, log, d, done, done, queue, at)
    && pos == (|data| + SizesOf(log, d, queue)) % WORD
    && ROOT in at && at[ROOT] == 0
  }

  lemma PendingStart(log: Log, d: nat, pos: nat)
    requires pos == SizeOf(log, d, ROOT) % WORD
    ensures Pending([], log, d, {}, [ROOT], map[ROOT := 0], pos)
  {
    hide SizeOf, Recorded;
    WriterStart(log, d);
  }

  /** The node at the head of the queue is taken up: it will be written next. */
  lemma PendingPop(data: seq<byte>, log: Log, d: nat, done: set<Id>, queue: seq<Id>, at: Places, pos: nat)
    requires Pending(data, log, d, done, queue, at, pos) && queue != [] && queue[0] !in done
    ensures queue[0] in at && at[queue[0]] == |data|
    ensures var base := |data| + SizeOf(log, d, queue[0]);
            && Placing(data, log, d, base, done + {queue[0]}, queue[1..], queue[0], at)
            && pos == (base + SizesOf(log, d, queue[1..])) % WORD
  {
    hide SizeOf, ImageAt, SizesOf, Recorded, Scheduled;
    ScheduledPop(log, d, |data|, queue, at);
    RecordedPop(data, log, d, done, queue, at);
  }

  lemma RecordedPop(data: seq<byte>, log: Log, d: nat, done: set<Id>, queue: seq<Id>, at: Places)
    requires Recorded(data, log, d, done, done, queue, at) && queue != [] && queue[0] !in done
    ensures Recorded(data, log, d, done + {queue[0]} - {queue[0]}, done + {queue[0]}, queue[1..], at)
  {
    hide ImageAt;
    assert done + {queue[0]} - {queue[0]} == done;
    assert queue == [queue[0]] + queue[1..];
  }

  /** The node has been written. */
  lemma PendingAgain(data: seq<byte>, data': seq<byte>, log: Log, d: nat, done: set<Id>, queue: seq<Id>, id: Id,
                     at: Places, pos: nat)
    requires data <= data' && Placing(data, log, d, |data'|, done, queue, id, at)
             && pos == (|data'| + SizesOf(log, d, queue)) % WORD
    requires ImageAt(data', log, d, id, at) && ROOT in at && at[ROOT] == 0
    ensures Pending(data', log, d, done, queue, at, pos)
  {
    hide ImageAt, Recorded, Scheduled, SizesOf;
    var more := data'[|data|..];
    assert data' == data + more;
    RecordedWrite(data, more, log, d, done, queue, id, at);
  }

  lemma NotedAll(offsets: seq<nat>, slots: seq<nat>, id: Id, at: Places)
    requires Noted(offsets, slots, |slots|, id, at)
    ensures |slots| <= |offsets| && offsets[..|slots|] == ChildOffsets(slots, id, at)
  {
    assert slots[..|slots|] == slots;
  }

  /** One round of write2file. */
  method WriteNode(t: Trie, cur: TrieNode, BQ: seq<TrieNode>, pos: nat, offsetArray: array<nat>, fp: Stream,
                   ghost id: Id, ghost done: set<Id>, ghost queue: seq<Id>, ghost at: Places)
      returns (BQ': seq<TrieNode>, pos': nat, ghost queue': seq<Id>, ghost at': Places)
    requires Unwritten(t, done) && id in t.nodes && t.nodes[id] == cur && id !in done && fp !in t.Repr
    requires offsetArray.Length == MAX_PER_NODE && offsetArray !in t.Repr
    requires Queued(t.nodes, BQ, queue) && Walk(t.nodes.Keys, done + {id}, queue, id, 0) && Latest(done + {id}, id)
    requires ROOT in at && at[ROOT] == 0 && id in at && at[id] == |fp.data|
    requires var base := |fp.data| + SizeOf(t.log, t.depth, id);
             && Placing(fp.data, t.log, t.depth, base, done + {id}, queue, id, at)
             && pos == (base + SizesOf(t.log, t.depth, queue)) % WORD
    modifies t`views, t`Repr, t.Repr, offsetArray, fp`data
    ensures Unwritten(t, done + {id}) && fresh(t.Repr - old(t.Repr)) && fp !in t.Repr && offsetArray !in t.Repr
    ensures t.nodes == old(t.nodes) && t.log == old(t.log)
    ensures Queued(t.nodes, BQ', queue') && Frontier(t.nodes.Keys, done + {id}, queue')
    ensures Pending(fp.data, t.log, t.depth, done + {id}, queue', at', pos')
    ensures |fp.data| == |old(fp.data)| + SizeOf(t.log, t.depth, id) && EndsAt(|fp.data|, t.log, t.depth, id, at')
  {
    hide TrieNode.Valid, Shaped, Unwritten, LeavesHold, Walk, Frontier, Queued, Placing, Pending, Noted, SizesOf,
         SizeOf, NodeIds, BitsOf,
         SlotsOf, Ascending, ImageAt;
    SameSlots(t, id, done);
    UnwrittenIsShaped(t, done);
    ghost var data, visited, base := fp.data, done + {id}, |fp.data| + SizeOf(t.log, t.depth, id);
    assert visited - {id} == done;
    BQ', pos', queue', at' := BQ, pos, queue, at;
    if cur.isLeaf {
      WalkOver(t, id, 0, visited, queue);
      WriteLeafOf(t, cur, fp, id, done, at);
    } else {
      BQ', pos', queue', at' := PlaceChildren(t, cur, BQ, pos, offsetArray, data, base, id, visited, queue, at);
      SameSlots(t, id, done);
      NotedAll(offsetArray[..], SlotsOf(t.log, t.depth, id), id, at');
      WriteInnerOf(t, cur, offsetArray, fp, id, done, at');
      UnwrittenIsShaped(t, done);
      SameViewsListed(t.views);
      UnwrittenAgain(t, t.views, done, visited);
    }
    PendingAgain(data, fp.data, t.log, t.depth, visited, queue', id, at', pos');
  }

  lemma SameViewsListed(views: Views)
    ensures OnlyListed(views, views)
  {}

  lemma PendingDone(data: seq<byte>, log: Log, d: nat, done: set<Id>, at: Places, pos: nat)
    requires Pending(data, log, d, done, [], at, pos) && done == NodeIds(log, d)
    ensures Written(data, log, d, at)
  {
    hide NodeIds, ImageAt, SizesOf;
    WrittenAll(data, log, d, at);
  }

  /** Takes the next node off the queue and writes it. */
  method WriteNext(t: Trie, BQ: seq<TrieNode>, pos: nat, offsetArray: array<nat>, fp: Stream,
                   ghost done: set<Id>, ghost queue: seq<Id>, ghost at: Places)
      returns (BQ': seq<TrieNode>, pos': nat, ghost done': set<Id>, ghost queue': seq<Id>, ghost at': Places)
    requires Unwritten(t, done) && Rooted(t.nodes.Keys) && BQ != [] && fp !in t.Repr
    requires offsetArray.Length == MAX_PER_NODE && offsetArray !in t.Repr
    requires Queued(t.nodes, BQ, queue) && Frontier(t.nodes.Keys, done, queue) && done <= t.nodes.Keys
    requires Pending(fp.data, t.log, t.depth, done, queue, at, pos)
    modifies t`views, t`Repr, t.Repr, offsetArray, fp`data
    ensures Unwritten(t, done') && fresh(t.Repr - old(t.Repr)) && fp !in t.Repr && offsetArray !in t.Repr
    ensures t.nodes == old(t.nodes) && t.log == old(t.log)
    ensures Queued(t.nodes, BQ', queue') && Frontier(t.nodes.Keys, done', queue')
    ensures Pending(fp.data, t.log, t.depth, done', queue', at', pos')
    ensures done' <= t.nodes.Keys && |done'| == |done| + 1 <= |t.nodes.Keys|
    ensures queue != [] && queue[0] !in done && done' == done + {queue[0]}
    ensures |fp.data| == |old(fp.data)| + SizeOf(t.log, t.depth, queue[0])
    ensures Latest(done', queue[0]) && EndsAt(|fp.data|, t.log, t.depth, queue[0], at')
  {
    hide TrieNode.Valid, Unwritten, Walk, Frontier, Queued, Pending, SizesOf, SizeOf, Rooted, Placing;
    QueuedHead(t.nodes, BQ, queue);
    Visit(t.nodes.Keys, done, queue);
    PendingPop(fp.data, t.log, t.depth, done, queue, at, pos);
    PendingRoot(fp.data, t.log, t.depth, done, queue, at, pos);
    ghost var id, rest := queue[0], queue[1..];
    done' := done + {id};
    SetBound(done', t.nodes.Keys);
    BQ', pos', queue', at' := WriteNode(t, BQ[0], BQ[1..], pos, offsetArray, fp, id, done, rest, at);
  }

  /** The order in which the nodes have been written: every node once, one image behind the other. */
  ghost predicate InOrderOf(size: nat, log: Log, d: nat, order: seq<Id>, done: set<Id>) {
    size == SizesOf(log, d, order) && |order| == |done| && forall id :: id in order <==> id in done
  }

  lemma NextInOrder(size: nat, log: Log, d: nat, order: seq<Id>, done: set<Id>, id: Id)
    requires InOrderOf(size, log, d, order, done) && id !in done
    ensures InOrderOf(size + SizeOf(log, d, id), log, d, order + [id], done + {id})
  {
    hide SizesOf, SizeOf;
    SizesSnoc(log, d, order, id);
  }

  lemma NoneInOrder(log: Log, d: nat, at: Places)
    ensures InOrderOf(0, log, d, [], {}) && EndsWithLast(0, log, d, [], {}, at)
  {
    hide SizeOf;
  }

  /** The loop of write2file: until the queue is empty. */
  method WriteQueue(t: Trie, pos: nat, offsetArray: array<nat>, fp: Stream)
      returns (ghost at: Places, ghost order: seq<Id>)
    requires Unwritten(t, {}) && Rooted(t.nodes.Keys) && ROOT in t.nodes && t.nodes[ROOT] == t.root && fp !in t.Repr
    requires offsetArray.Length == MAX_PER_NODE && offsetArray !in t.Repr
    requires fp.data == [] && pos == SizeOf(t.log, t.depth, ROOT) % WORD && Queued(t.nodes, [t.root], [ROOT])
    modifies t`views, t`Repr, t.Repr, offsetArray, fp`data
    ensures Unwritten(t, t.nodes.Keys) && t.nodes == old(t.nodes) && t.log == old(t.log)
    ensures exists p :: Pending(fp.data, t.log, t.depth, t.nodes.Keys, [], at, p)
    ensures InOrderOf(|fp.data|, t.log, t.depth, order, t.nodes.Keys)
    ensures EndsWithLast(|fp.data|, t.log, t.depth, order, t.nodes.Keys, at)
  {
    hide TrieNode.Valid, Unwritten, Walk, Frontier, Queued, Pending, SizesOf, SizeOf, NodeIds, Rooted, InOrderOf,
         Latest,
         EndsAt, EndsWithLast, Trie.Structure;
    var BQ, p := [t.root], pos;
    ghost var queue := [ROOT];
    ghost var done: set<Id> := {};
    at, order := map[ROOT := 0], [];
    NoneInOrder(t.log, t.depth, at);
    FrontierStart(t.nodes.Keys);
    PendingStart(t.log, t.depth, p);
    while BQ != []
      invariant Unwritten(t, done) && fresh(t.Repr - old(t.Repr)) && t.nodes == old(t.nodes) && t.log == old(t.log)
      invariant fp !in t.Repr && offsetArray !in t.Repr && done <= t.nodes.Keys
      invariant Queued(t.nodes, BQ, queue) && Frontier(t.nodes.Keys, done, queue)
      invariant Pending(fp.data, t.log, t.depth, done, queue, at, p)
      invariant InOrderOf(|fp.data|, t.log, t.depth, order, done)
      invariant EndsWithLast(|fp.data|, t.log, t.depth, order, done, at)
      decreases |t.nodes.Keys| - |done|
    {
      QueuedHead(t.nodes, BQ, queue);
      Visit(t.nodes.Keys, done, queue);
      NextInOrder(|fp.data|, t.log, t.depth, order, done, queue[0]);
      order := order + [queue[0]];
      BQ, p, done, queue, at := WriteNext(t, BQ, p, offsetArray, fp, done, queue, at);
      NextEnds(|fp.data|, t.log, t.depth, order, done, at);
    }
    QueuedHead(t.nodes, BQ, queue);
    AllVisited(t.nodes.Keys, done);
  }

  /** write2file: writes all nodes breadth first. Every child offset is noted before the child is written, from the
      sizes of the nodes still queued. The file is as long as the images of all nodes. The lists are empty
      afterwards. */
  method WriteToFile(t: Trie) returns (fp: Stream, ghost at: Places, ghost order: seq<Id>)
    requires Ready(t)
    modifies t`views, t`Repr, t.Repr
    ensures fresh(fp) && t.nodes == old(t.nodes) && t.log == old(t.log) && Shaped(t)
    ensures Written(fp.data, t.log, t.depth, at)
    ensures InOrderOf(|fp.data|, t.log, t.depth, order, NodeIds(t.log, t.depth)) && Ended(|fp.data|, t.log, t.depth, at)
  {
    hide TrieNode.Valid, Ready, Shaped, Unwritten, Walk, Queued, Pending, SizesOf, SizeOf, NodeIds, BitsOf, SlotsOf,
         Rooted,
         Written, OnlyListed, InOrderOf, EndsWithLast, Ended, Trie.Structure, Ascending;
    UnwrittenStart(t);
    ReadyIsShaped(t);
    TrieRooted(t);
    SameSlots(t, ROOT, {});
    fp := new Stream([]);
    var pos := Size(t, t.root, ROOT, {});
    UnwrittenIsShaped(t, {});
    QueuedRoot(t);
    var offsetArray := new nat[MAX_PER_NODE];
    at, order := WriteQueue(t, pos, offsetArray, fp);
    UnwrittenIsShaped(t, t.nodes.Keys);
    ShapedIds(t);
    ghost var p :| Pending(fp.data, t.log, t.depth, t.nodes.Keys, [], at, p);
    PendingDone(fp.data, t.log, t.depth, t.nodes.Keys, at, p);
    FileEnds(|fp.data|, t.log, t.depth, order, t.nodes.Keys, at);
  }

  /** The last of the nodes written so far ends the file. */
  ghost predicate EndsWithLast(size: nat, log: Log, d: nat, order: seq<Id>, done: set<Id>, at: Places) {
    order != [] ==> Latest(done, order[|order| - 1]) && EndsAt(size, log, d, order[|order| - 1], at)
  }

  lemma NextEnds(size: nat, log: Log, d: nat, order: seq<Id>, done: set<Id>, at: Places)
    requires order != [] && Latest(done, order[|order| - 1]) && EndsAt(size, log, d, order[|order| - 1], at)
    ensures EndsWithLast(size, log, d, order, done, at)
  {
    hide Latest, EndsAt;
  }

  lemma FileEnds(size: nat, log: Log, d: nat, order: seq<Id>, done: set<Id>, at: Places)
    requires InOrderOf(size, log, d, order, done) && ROOT in done && done == NodeIds(log, d)
    requires EndsWithLast(size, log, d, order, done, at)
    ensures Ended(size, log, d, at)
  {
    hide SizesOf, NodeIds, Latest, EndsAt;
  }

  lemma PendingRoot(data: seq<byte>, log: Log, d: nat, done: set<Id>, queue: seq<Id>, at: Places, pos: nat)
    requires Pending(data, log, d, done, queue, at, pos)
    ensures ROOT in at && at[ROOT] == 0
  {}

  lemma ShapedIds(t: Trie)
    requires Shaped(t)
    ensures t.nodes.Keys == NodeIds(t.log, t.depth)
  {
    hide NodeIds;
  }

  lemma {:induction false} OffsetAt(slots: seq<nat>, id: Id, at: Places, k: nat)
    requires k < |slots|
    ensures ChildOffsets(slots, id, at)[k] == PlaceOf(at, Child(id, slots[k])) % WORD
  {
    if k < |slots| - 1 { OffsetAt(slots[..|slots| - 1], id, at, k); }
  }

  lemma PlaceInFile(data: seq<byte>, log: Log, d: nat, id: Id, at: Places)
    requires ImageAt(data, log, d, id, at)
    ensures at[id] < |data|
  {
    hide WordsHold, BitsOf, SlotsOf, ListsOf, ListOffsets, Lists, ChildOffsets, U32s;
  }

  /** In a file of less than 4 GiB, an inner node's k-th offset is exactly where its k-th child begins. */
  lemma OffsetsExact(data: seq<byte>, log: Log, d: nat, id: Id, at: Places, k: nat)
    requires Written(data, log, d, at) && |data| < WORD && id in at && !IsLeaf(d, id) && k < |SlotsOf(log, d, id)|
    ensures var child := Child(id, SlotsOf(log, d, id)[k]);
            child in at && ChildOffsets(SlotsOf(log, d, id), id, at)[k] == at[child] && ImageAt(data, log, d, child, at)
  {
    hide NodeIds, ImageAt, SlotsOf, ChildOffsets;
    var b := SlotsOf(log, d, id)[k];
    SlotsAreChildren(log, d, id, b);
    OffsetAt(SlotsOf(log, d, id), id, at, k);
    PlaceInFile(data, log, d, Child(id, b), at);
  }

  // ---- how large the file can get ----

  /** No node takes more than this. */
  function NodeBound(log: Log): nat {
    39 + 4 * MAX_PER_NODE + MAX_PER_NODE * (4 + 8 * |log|)
  }

  lemma {:induction false} ValuesBound(log: Log, key: nat)
    ensures |ValuesOf(log, key)| <= |log|
  {
    if log != [] { ValuesBound(log[..|log| - 1], key); }
  }

  lemma Times(n: nat, m: nat)
    ensures (n + 1) * m == n * m + m
  {}

  lemma TimesMonotone(n: nat, k: nat, m: nat)
    requires n <= k
    ensures n * m <= k * m
  {}

  lemma {:induction false} ListsBound(log: Log, id: Id, slots: seq<nat>)
    ensures ListsSize(slots, ListsOf(log, id)) <= |slots| * (4 + 8 * |log|)
  {
    if slots != [] {
      hide ListsOf, ValueBytes, Lists;
      var init, slot := slots[..|slots| - 1], slots[|slots| - 1];
      ListsBound(log, id, init);
      HeldBound(log, id, slot);
      Times(|init|, 4 + 8 * |log|);
    }
  }

  lemma HeldBound(log: Log, id: Id, slot: nat)
    ensures ListSize(Held(ListsOf(log, id), slot)) <= 4 + 8 * |log|
  {
    hide ValueBytes, ValuesOf;
    if slot < MAX_PER_NODE { ValuesBound(log, 256 * id.prefix + slot); }
  }

  lemma SizeBound(log: Log, d: nat, id: Id)
    ensures SizeOf(log, d, id) <= NodeBound(log)
  {
    hide BitsOf, ListsOf, Ascending, ListsSize;
    BitsAreSlots(log, d, id);
    AscendingLength(BitsOf(log, d, id), MAX_PER_NODE);
    ListsBound(log, id, SlotsOf(log, d, id));
    TimesMonotone(|SlotsOf(log, d, id)|, MAX_PER_NODE, 4 + 8 * |log|);
  }

  lemma {:induction false} SizesBound(log: Log, d: nat, order: seq<Id>)
    ensures SizesOf(log, d, order) <= |order| * NodeBound(log)
  {
    if order != [] {
      hide SizeOf, NodeBound;
      SizesBound(log, d, order[..|order| - 1]);
      SizeBound(log, d, order[|order| - 1]);
      Times(|order| - 1, NodeBound(log));
    }
  }

  lemma {:induction false} PathBound(key: nat, d: nat, n: nat)
    requires n <= d
    ensures |PathIds(key, d, n)| <= n
  {
    if n > 0 { PathBound(key, d, n - 1); }
  }

  lemma UnionBound<T>(a: set<T>, b: set<T>)
    ensures |a + b| <= |a| + |b|
  {
    assert a + b == a + (b - a);
    assert |b - a| <= |b|;
  }

  lemma {:induction false} NodesBound(log: Log, d: nat)
    ensures |NodeIds(log, d)| <= 1 + |log| * d
  {
    if log != [] {
      var init, last := log[..|log| - 1], log[|log| - 1];
      NodesBound(init, d);
      PathBound(last.key, d, d);
      UnionBound(NodeIds(init, d), PathIds(last.key, d, d));
      Times(|init|, d);
    }
  }

  /** The image of a log's trie, as many bytes as the images of all its nodes, is bounded by the number of pairs
      logged. */
  lemma ImageBound(size: nat, log: Log, d: nat, order: seq<Id>)
    requires InOrderOf(size, log, d, order, NodeIds(log, d))
    ensures size <= (1 + |log| * d) * NodeBound(log)
  {
    hide NodeIds, SizeOf, SizesOf, NodeBound;
    SizesBound(log, d, order);
    NodesBound(log, d);
    TimesMonotone(|order|, 1 + |log| * d, NodeBound(log));
  }
}
