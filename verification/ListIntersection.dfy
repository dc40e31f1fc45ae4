/** Intersection of two chunked lists, which takes both apart and builds the common elements anew. */
module ListIntersections {
  import opened FlowLog
  import opened LinkLists
  import opened OffsetsResults

  type Chunk = LinkNode<Value>

  /** The chunks of a list: linked in order, all but the last full, holding the contents. */
  ghost predicate Chain(chunks: seq<Chunk>, contents: seq<Value>, space: set<object>)
    reads space
  {
    && (forall c :: 0 <= c < |chunks| ==>
         chunks[c] in space && chunks[c].data in space && chunks[c].data.Length == CHUNK && chunks[c].elemNum <= CHUNK)
    && (forall c :: 0 <= c < |chunks| ==> chunks[c].next == if c < |chunks| - 1 then chunks[c + 1] else null)
    && (forall c :: 0 <= c < |chunks| - 1 ==> chunks[c].elemNum == CHUNK)
    && |contents| == (if chunks == [] then 0 else CHUNK * (|chunks| - 1) + chunks[|chunks| - 1].elemNum)
    && (forall c, j :: 0 <= c < |chunks| && 0 <= j < chunks[c].elemNum ==> chunks[c].data[j] == contents[CHUNK * c + j])
  }

  lemma ListIsChain(list: LinkList<Value>)
    requires list.Chunked()
    ensures Chain(list.chunks, list.contents, list.Repr - {list}) && list.head == ChunkAt(list.chunks, 0)
            && list in list.Repr
  {}

  lemma ChainWidens(chunks: seq<Chunk>, contents: seq<Value>, space: set<object>, more: set<object>)
    requires Chain(chunks, contents, space) && space <= more
    ensures Chain(chunks, contents, more)
  {}

  function ChunkAt(chunks: seq<Chunk>, c: nat): LinkNode?<Value> {
    if c < |chunks| then chunks[c] else null
  }

  /** The number of the element in slot j of chunk c. */
  function Number(chunks: seq<Chunk>, contents: seq<Value>, c: nat, j: nat): nat {
    if c < |chunks| then CHUNK * c + j else |contents|
  }

  lemma ChunkEnd(chunks: seq<Chunk>, contents: seq<Value>, space: set<object>, c: nat)
    requires Chain(chunks, contents, space) && c < |chunks|
    ensures chunks[c].elemNum <= CHUNK
            && CHUNK * c + chunks[c].elemNum == Number(chunks, contents, c + 1, 0) <= |contents|
  {
    if c < |chunks| - 1 {
      assert chunks[c].elemNum == CHUNK;
    }
  }

  lemma ChunkFacts(chunks: seq<Chunk>, contents: seq<Value>, space: set<object>, c: nat)
    requires Chain(chunks, contents, space) && c < |chunks|
    ensures chunks[c] in space && chunks[c].data in space && chunks[c].data.Length == CHUNK
            && chunks[c].elemNum <= CHUNK
    ensures chunks[c].next == ChunkAt(chunks, c + 1)
    ensures CHUNK * c + chunks[c].elemNum == Number(chunks, contents, c + 1, 0) <= |contents|
    ensures forall j :: 0 <= j < chunks[c].elemNum ==>
              CHUNK * c + j < |contents| && chunks[c].data[j] == contents[CHUNK * c + j]
  {
    ChunkEnd(chunks, contents, space, c);
    hide Number;
    forall j | 0 <= j < chunks[c].elemNum
      ensures CHUNK * c + j < |contents| && chunks[c].data[j] == contents[CHUNK * c + j]
    {}
  }

  /** What has been kept so far, and what the rest of the walk will keep, is what the whole walk keeps. */
  ghost predicate Walking(a: seq<Value>, b: seq<Value>, i: nat, j: nat, kept: seq<Value>) {
    i <= |a| && j <= |b| && kept + Common(a[i..], b[j..]) == Common(a, b)
  }

  lemma WalkingStep(a: seq<Value>, b: seq<Value>, i: nat, j: nat, kept: seq<Value>)
    requires Walking(a, b, i, j, kept) && i < |a| && j < |b|
    ensures a[i].offset == b[j].offset ==> Walking(a, b, i + 1, j + 1, kept + [a[i]])
    ensures a[i].offset > b[j].offset ==> Walking(a, b, i, j + 1, kept)
    ensures a[i].offset < b[j].offset ==> Walking(a, b, i + 1, j, kept)
  {
    assert a[i..][1..] == a[i + 1..] && b[j..][1..] == b[j + 1..];
  }

  lemma WalkingStart(a: seq<Value>, b: seq<Value>)
    ensures Walking(a, b, 0, 0, [])
  {}

  lemma WalkingEnd(a: seq<Value>, b: seq<Value>, i: nat, j: nat, kept: seq<Value>)
    requires Walking(a, b, i, j, kept) && (i == |a| || j == |b|)
    ensures kept == Common(a, b)
  {}

  /** The list under construction: it has a chunk from the start, which stays the only one, and empty, if nothing is
      kept. */
  ghost predicate Built(list: LinkList<Value>)
    reads list, list.Repr
  {
    && list.Chunked() && list.chunks != []
    && (if list.contents == [] then |list.chunks| == 1 && list.chunks[0].elemNum == 0 else list.Valid())
  }

  lemma BuiltChunked(list: LinkList<Value>)
    requires Built(list)
    ensures list.Chunked()
  {}

  lemma BuiltAgain(list: LinkList<Value>)
    requires list.Valid() && list.contents != []
    ensures Built(list)
  {}

  /** The inner loop: compares until one of the two chunks is used up. */
  method CompareChunks(list: LinkList<Value>, curA: Chunk, curB: Chunk, startA: nat, startB: nat,
                       ghost as_: seq<Chunk>, ghost bs: seq<Chunk>, ghost a: seq<Value>, ghost b: seq<Value>,
                       ghost old_: set<object>, ghost ca: nat, ghost cb: nat)
      returns (idxA: nat, idxB: nat)
    requires Built(list) && list.Repr !! old_
    requires Chain(as_, a, old_) && Chain(bs, b, old_) && ca < |as_| && cb < |bs| && curA == as_[ca] && curB == bs[cb]
    requires startA <= curA.elemNum && startB <= curB.elemNum
    requires Walking(a, b, CHUNK * ca + startA, CHUNK * cb + startB, list.contents)
    modifies list.Repr
    ensures Built(list) && fresh(list.Repr - old(list.Repr)) && list.Repr !! old_
    ensures idxA <= curA.elemNum && idxB <= curB.elemNum && (idxA == curA.elemNum || idxB == curB.elemNum)
    ensures Walking(a, b, CHUNK * ca + idxA, CHUNK * cb + idxB, list.contents)
  {
    hide Chain, Built, LinkList.Chunked, LinkList.Valid, LinkList.Linked, Walking;
    idxA, idxB := startA, startB;
    ChunkFacts(as_, a, old_, ca);
    ChunkFacts(bs, b, old_, cb);
    while idxA < curA.elemNum && idxB < curB.elemNum
      invariant Built(list) && fresh(list.Repr - old(list.Repr)) && list.Repr !! old_
      invariant Chain(as_, a, old_) && Chain(bs, b, old_) && idxA <= curA.elemNum && idxB <= curB.elemNum
      invariant Walking(a, b, CHUNK * ca + idxA, CHUNK * cb + idxB, list.contents)
      decreases curA.elemNum - idxA + curB.elemNum - idxB
    {
      ChunkFacts(as_, a, old_, ca);
      ChunkFacts(bs, b, old_, cb);
      WalkingStep(a, b, CHUNK * ca + idxA, CHUNK * cb + idxB, list.contents);
      if curA.data[idxA].offset > curB.data[idxB].offset {
        idxB := idxB + 1;
      } else if curA.data[idxA].offset < curB.data[idxB].offset {
        idxA := idxA + 1;
      } else {
        BuiltChunked(list);
        list.AddElement(curA.data[idxA]);
        BuiltAgain(list);
        idxA, idxB := idxA + 1, idxB + 1;
      }
    }
  }

  /** newNode, the first chunk of the result. */
  method StartOver(list: LinkList<Value>)
    modifies list
    ensures Built(list) && fresh(list.Repr - {list}) && list.contents == []
  {
    var node := new LinkNode<Value>();
    list.head, list.tail, list.nodeCount := node, node, 0;
    list.chunks, list.contents, list.Repr := [node], [], {list, node, node.data};
  }

  /** Frees the chunk a cursor has used up and moves on to the next. */
  method PassChunk(cur: Chunk, idx: nat, ghost chunks: seq<Chunk>, ghost contents: seq<Value>, ghost space: set<object>,
                   ghost c: nat)
      returns (cur': LinkNode?<Value>, idx': nat, ghost c': nat, ghost freed: seq<Chunk>)
    requires Chain(chunks, contents, space) && c < |chunks| && cur == chunks[c] && idx <= cur.elemNum
    ensures c' <= |chunks| && cur' == ChunkAt(chunks, c') && Number(chunks, contents, c', idx') == CHUNK * c + idx
    ensures (if idx == cur.elemNum then c' == c + 1 else c' == c) && (cur' != null ==> idx' <= cur'.elemNum)
    ensures chunks[..c'] == chunks[..c] + freed
  {
    hide Chain;
    ChunkFacts(chunks, contents, space, c);
    cur', idx', c', freed := cur, idx, c, [];
    if idx >= cur.elemNum {
      cur', idx', c', freed := cur.next, 0, c + 1, [cur];
    }
  }

  /** The rest of a chain is freed chunk by chunk. */
  method FreeRest(cur: LinkNode?<Value>, ghost chunks: seq<Chunk>, ghost contents: seq<Value>, ghost space: set<object>,
                  ghost c: nat)
      returns (ghost freed: seq<Chunk>)
    requires Chain(chunks, contents, space) && c <= |chunks| && cur == ChunkAt(chunks, c)
    ensures freed == chunks[c..]
  {
    hide Chain;
    freed := [];
    ghost var e := c;
    var ptr := cur;
    while ptr != null
      invariant c <= e <= |chunks| && ptr == ChunkAt(chunks, e) && freed == chunks[c..e]
      decreases |chunks| - e
    {
      ChunkFacts(chunks, contents, space, e);
      freed := freed + [ptr];
      ptr := ptr.next;
      e := e + 1;
    }
  }

  /** intersection: the first list is left with the elements common to both, the second empty, and every chunk that
      either had is freed once, in order. */
  method Intersection(self: LinkList<Value>, list: LinkList<Value>)
      returns (ghost freedA: seq<Chunk>, ghost freedB: seq<Chunk>)
    requires self.Chunked() && list.Chunked() && self.Repr !! list.Repr
    modifies self, list
    ensures Built(self) && self.contents == Common(old(self.contents), old(list.contents))
    ensures fresh(self.Repr - {self}) && list.Valid() && list.contents == []
    ensures freedA == old(self.chunks) && freedB == old(list.chunks)
  {
    hide Chain, Built, LinkList.Linked, LinkList.Valid, LinkList.Chunked, Walking, Common, ChunkAt;
    ghost var as_, bs, a, b := self.chunks, list.chunks, self.contents, list.contents;
    ghost var space := (self.Repr - {self}) + (list.Repr - {list});
    ListIsChain(self);
    ListIsChain(list);
    ChainWidens(as_, a, self.Repr - {self}, space);
    ChainWidens(bs, b, list.Repr - {list}, space);
    var curA, curB := self.head, list.head;
    StartOver(self);
    var restA, restB;
    ghost var ca: nat, cb: nat;
    restA, restB, ca, cb, freedA, freedB := WalkChunks(self, curA, curB, as_, bs, a, b, space);
    ghost var lastA := FreeRest(restA, as_, a, space, ca);
    ghost var lastB := FreeRest(restB, bs, b, space, cb);
    AllOf(as_, ca);
    AllOf(bs, cb);
    freedA, freedB := freedA + lastA, freedB + lastB;
    list.Clear();
  }

  lemma AllOf<T>(xs: seq<T>, c: nat)
    requires c <= |xs|
    ensures xs[..c] + xs[c..] == xs
  {}

  /** The outer loop: until one of the lists is used up. */
  method WalkChunks(self: LinkList<Value>, headA: LinkNode?<Value>, headB: LinkNode?<Value>, ghost as_: seq<Chunk>,
                    ghost bs: seq<Chunk>,
                    ghost a: seq<Value>, ghost b: seq<Value>, ghost space: set<object>)
      returns (curA: LinkNode?<Value>, curB: LinkNode?<Value>, ghost ca: nat, ghost cb: nat,
               ghost freedA: seq<Chunk>, ghost freedB: seq<Chunk>)
    requires Built(self) && self.contents == [] && self.Repr !! space
    requires Chain(as_, a, space) && Chain(bs, b, space) && headA == ChunkAt(as_, 0) && headB == ChunkAt(bs, 0)
    modifies self.Repr
    ensures Built(self) && fresh(self.Repr - old(self.Repr)) && self.contents == Common(a, b)
    ensures ca <= |as_| && cb <= |bs| && curA == ChunkAt(as_, ca) && curB == ChunkAt(bs, cb)
    ensures freedA == as_[..ca] && freedB == bs[..cb]
  {
    hide Chain, Built, LinkList.Linked, Walking, Common;
    curA, curB, ca, cb, freedA, freedB := headA, headB, 0, 0, [], [];
    var idxA: nat, idxB: nat := 0, 0;
    WalkingStart(a, b);
    StartNumber(as_, a, space);
    StartNumber(bs, b, space);
    while curA != null && curB != null
      invariant Built(self) && fresh(self.Repr - old(self.Repr)) && self.Repr !! space
      invariant Chain(as_, a, space) && Chain(bs, b, space)
      invariant ca <= |as_| && curA == ChunkAt(as_, ca) && (curA != null ==> idxA <= curA.elemNum)
      invariant cb <= |bs| && curB == ChunkAt(bs, cb) && (curB != null ==> idxB <= curB.elemNum)
      invariant Walking(a, b, Number(as_, a, ca, idxA), Number(bs, b, cb, idxB), self.contents)
      invariant freedA == as_[..ca] && freedB == bs[..cb]
      decreases |as_| - ca + |bs| - cb
    {
      idxA, idxB := CompareChunks(self, curA, curB, idxA, idxB, as_, bs, a, b, space, ca, cb);
      ghost var goneA, goneB;
      curA, idxA, ca, goneA := PassChunk(curA, idxA, as_, a, space, ca);
      curB, idxB, cb, goneB := PassChunk(curB, idxB, bs, b, space, cb);
      freedA, freedB := freedA + goneA, freedB + goneB;
    }
    WalkingEnd(a, b, Number(as_, a, ca, idxA), Number(bs, b, cb, idxB), self.contents);
  }

  lemma StartNumber(chunks: seq<Chunk>, contents: seq<Value>, space: set<object>)
    requires Chain(chunks, contents, space)
    ensures Number(chunks, contents, 0, 0) == 0
  {}

  /** On strictly ascending lists exactly the common elements are left, in ascending order; if there are none, the list
      is left with an empty chunk, so its head is not null although it has no elements. */
  lemma IntersectionMeaning(self: LinkList<Value>, a: seq<Value>, b: seq<Value>)
    requires Built(self) && self.contents == Common(a, b) && OffsetAscending(a) && OffsetAscending(b)
    ensures OffsetAscending(self.contents) && forall v :: v in self.contents <==> v in a && HasOffset(b, v.offset)
    ensures self.nodeCount == |self.contents|
    ensures (forall v :: v in a ==> !HasOffset(b, v.offset)) <==> self.head != null && self.head.elemNum == 0
  {
    CommonMeaning(a, b);
    hide OffsetAscending, HasOffset, Common;
    assert self.contents != [] ==> self.contents[0] in self.contents;
  }
}
