/** Breadth-first walks over all nodes of a trie, and its destructor. */
module TrieWalks {
  import opened Enumerate
  import opened Radix
  import opened TrieNodes
  import opened TriePaths
  import opened TrieQueries
  import opened Tries

  function Parent(id: Id): Id
    requires id.level > 0
  {
    Id(id.level - 1, id.prefix / 256)
  }

  /** Every prefix's shorter prefixes are there. */
  ghost predicate Rooted(ids: set<Id>) {
    && ROOT in ids
    && forall x :: x in ids ==> if x.level == 0 then x == ROOT else Parent(x) in ids
  }

  ghost predicate Distinct(queue: seq<Id>) {
    forall i, j :: 0 <= i < j < |queue| ==> queue[i] != queue[j]
  }

  /** Breadth-first order: by level, then by prefix. */
  ghost predicate Before(x: Id, y: Id) {
    x.level < y.level || (x.level == y.level && x.prefix < y.prefix)
  }

  ghost predicate Rising(queue: seq<Id>) {
    forall i, j :: 0 <= i < j < |queue| ==> Before(queue[i], queue[j])
  }

  /** No node of done comes behind cur. */
  ghost predicate Latest(done: set<Id>, cur: Id) {
    cur in done && forall x :: x in done ==> x == cur || Before(x, cur)
  }

  /** A walk that has visited the nodes of done and queued the nodes next to them, all in breadth-first order. Of the
      children of cur, those below slot c have been queued. */
  ghost predicate Walk(ids: set<Id>, done: set<Id>, queue: seq<Id>, cur: Id, c: nat) {
    && done <= ids && (forall x :: x in queue ==> x in ids && x !in done)
    && Rising(queue) && (forall x, y :: x in done && y in queue ==> Before(x, y))
    && (ROOT in done || ROOT in queue)
    && (forall x :: (x in done || x in queue) && x.level > 0 ==> Parent(x) in done)
    && (forall x :: x in ids && x.level > 0 && Parent(x) in done ==>
          (x in done || x in queue <==> (Parent(x) == cur ==> x.prefix < 256 * cur.prefix + c)))
  }

  /** A walk between two nodes: all children of visited nodes have been queued. */
  ghost predicate Frontier(ids: set<Id>, done: set<Id>, queue: seq<Id>) {
    Walk(ids, done, queue, ROOT, MAX_PER_NODE)
  }

  lemma FrontierStart(ids: set<Id>)
    requires Rooted(ids)
    ensures Frontier(ids, {}, [ROOT])
  {}

  /** The head of the queue is visited next; none of its children has been seen. */
  lemma Visit(ids: set<Id>, done: set<Id>, queue: seq<Id>)
    requires Rooted(ids) && Frontier(ids, done, queue) && queue != []
    ensures queue[0] in ids && queue[0] !in done
    ensures Walk(ids, done + {queue[0]}, queue[1..], queue[0], 0) && Latest(done + {queue[0]}, queue[0])
  {
    var cur := queue[0];
    assert queue == [cur] + queue[1..];
  }

  /** The next child of the current node comes behind all nodes seen so far. */
  lemma ChildIsLast(ids: set<Id>, done: set<Id>, queue: seq<Id>, cur: Id, c: nat, b: nat)
    requires Walk(ids, done, queue, cur, c) && Latest(done, cur) && c <= b < MAX_PER_NODE
    ensures forall x :: x in done || x in queue ==> Before(x, Child(cur, b))
  {
    forall y | y in queue && y.level > 0 ensures Before(y, Child(cur, b)) {
      assert Parent(y) in done;
    }
  }

  /** The next child of the current node is queued. */
  lemma QueueChild(ids: set<Id>, done: set<Id>, queue: seq<Id>, cur: Id, c: nat, b: nat)
    requires Walk(ids, done, queue, cur, c) && Latest(done, cur) && c <= b < MAX_PER_NODE && Child(cur, b) in ids
    requires forall k :: c <= k < b ==> Child(cur, k) !in ids
    ensures Walk(ids, done, queue + [Child(cur, b)], cur, b + 1)
  {
    var x := Child(cur, b);
    ChildIsLast(ids, done, queue, cur, c, b);
    assert Parent(x) == cur;
    assert x !in done && x !in queue;
    forall y | y in ids && y.level > 0 && Parent(y) == cur && c <= y.prefix - 256 * cur.prefix <= b ensures y == x {
      assert y == Child(cur, y.prefix - 256 * cur.prefix);
    }
  }

  /** All children of the current node have been queued. */
  lemma Visited(ids: set<Id>, done: set<Id>, queue: seq<Id>, cur: Id, c: nat)
    requires Walk(ids, done, queue, cur, c) && cur in done && c <= MAX_PER_NODE
    requires forall k :: c <= k < MAX_PER_NODE ==> Child(cur, k) !in ids
    ensures Frontier(ids, done, queue)
  {
    forall y | y in ids && y.level > 0 && Parent(y) == cur ensures y.prefix < 256 * cur.prefix + c {
      assert y == Child(cur, y.prefix - 256 * cur.prefix);
    }
  }

  lemma {:induction false} Reached(ids: set<Id>, done: set<Id>, x: Id)
    requires Rooted(ids) && Frontier(ids, done, []) && x in ids
    ensures x in done
    decreases x.level
  {
    if x.level > 0 { Reached(ids, done, Parent(x)); }
  }

  /** When the queue is empty, every node has been visited. */
  lemma AllVisited(ids: set<Id>, done: set<Id>)
    requires Rooted(ids) && Frontier(ids, done, [])
    ensures done == ids
  {
    forall x | x in ids ensures x in done { Reached(ids, done, x); }
  }

  /** The queue of the code holds the nodes of the queued ids. */
  ghost predicate Queued(nodes: map<Id, TrieNode>, Q: seq<TrieNode>, queue: seq<Id>) {
    |Q| == |queue| && forall k :: 0 <= k < |queue| ==> queue[k] in nodes && Q[k] == nodes[queue[k]]
  }

  lemma QueuedOne(nodes: map<Id, TrieNode>, Q: seq<TrieNode>, queue: seq<Id>, id: Id)
    requires Queued(nodes, Q, queue) && id in nodes
    ensures Queued(nodes, Q + [nodes[id]], queue + [id])
  {}

  lemma QueuedRoot(t: Trie)
    requires Shaped(t)
    ensures Queued(t.nodes, [t.root], [ROOT])
  {
    hide TrieNode.Valid, KeysFit, AllFresh, Placed, Separate, InPlace, NodeIds;
  }

  lemma QueuedHead(nodes: map<Id, TrieNode>, Q: seq<TrieNode>, queue: seq<Id>)
    requires Queued(nodes, Q, queue)
    ensures Q == [] <==> queue == []
    ensures Q != [] ==> queue[0] in nodes && Q[0] == nodes[queue[0]] && Queued(nodes, Q[1..], queue[1..])
  {}

  lemma TrieRooted(t: Trie)
    requires Shaped(t)
    ensures Rooted(t.nodes.Keys) && ROOT in t.nodes && t.nodes[ROOT] == t.root && t !in t.Repr
  {
    hide TrieNode.Valid, KeysFit, AllFresh, Placed, Separate, InPlace, Pow256, NodeIds;
    forall x | x in t.nodes && x.level > 0 ensures Parent(x) in t.nodes { BeforeListing(t, x); }
    forall x | x in t.nodes && x.level == 0 ensures x == ROOT { RootOnly(t, x); }
  }

  lemma RootOnly(t: Trie, x: Id)
    requires t.Structure() && x in t.nodes && x.level == 0
    ensures x == ROOT
  {
    hide TrieNode.Valid, KeysFit, AllFresh, Placed, Separate, InPlace;
    BeforeListing(t, x);
  }

  /** Between two neighbouring slots there is no child. */
  lemma NoChildIn(t: Trie, id: Id, pos: nat, from: nat, to: nat)
    requires Shaped(t) && id in t.nodes && id.level < t.depth - 1 && id in t.views && to <= MAX_PER_NODE
    requires StartsAt(Ascending(t.views[id].bits, MAX_PER_NODE), 0, from, pos)
    requires pos < |Ascending(t.views[id].bits, MAX_PER_NODE)| ==> to <= Ascending(t.views[id].bits, MAX_PER_NODE)[pos]
    ensures forall k :: from <= k < to ==> Child(id, k) !in t.nodes
  {
    hide Ascending, Shaped, NodeIds;
    var slots := Ascending(t.views[id].bits, MAX_PER_NODE);
    AscendingIsSortedEnumeration(t.views[id].bits, MAX_PER_NODE);
    forall k: nat | from <= k < to ensures Child(id, k) !in t.nodes {
      assert k in slots <==> k in t.views[id].bits;
      ChildTaken(t, id, k);
    }
  }

  lemma ChildTaken(t: Trie, id: Id, b: nat)
    requires Shaped(t) && id in t.nodes && id.level < t.depth - 1 && b < MAX_PER_NODE
    ensures id in t.views && t.nodes[id].Valid() && !t.nodes[id].isLeaf
    ensures b in t.views[id].bits <==> Child(id, b) in t.nodes
    ensures b in t.views[id].bits ==> t.nodes[id].childPtr[b] == t.nodes[Child(id, b)]
  {
    hide TrieNode.Valid, Placed, InPlace, Separate, NodeIds, AllFresh, KeysFit;
    t.ShownBits(id);
    t.SlotIsLink(id, b);
  }

  /** The i-th child of an inner node, and where the walk stands once it is queued. */
  method ChildAt(t: Trie, cur: TrieNode, i: nat, ghost id: Id, ghost c: nat, ghost done: set<Id>, ghost queue: seq<Id>)
      returns (child: TrieNode, ghost b: nat)
    requires Shaped(t) && id in t.nodes && t.nodes[id] == cur && id.level < t.depth - 1 && i < cur.elemCount
             && id in t.views
    requires StartsAt(Ascending(t.views[id].bits, MAX_PER_NODE), 0, c, i)
    requires Walk(t.nodes.Keys, done, queue, id, c) && Latest(done, id)
    modifies t`views, t`Repr, cur`bitPosition, cur`view, cur`Repr
    ensures Shaped(t) && fresh(t.Repr - old(t.Repr)) && OnlyListed(old(t.views), t.views)
    ensures b < MAX_PER_NODE && Child(id, b) in t.nodes && child == t.nodes[Child(id, b)]
    ensures i < |Ascending(t.views[id].bits, MAX_PER_NODE)| && b == Ascending(t.views[id].bits, MAX_PER_NODE)[i]
    ensures StartsAt(Ascending(t.views[id].bits, MAX_PER_NODE), 0, b + 1, i + 1)
    ensures Walk(t.nodes.Keys, done, queue + [Child(id, b)], id, b + 1)
  {
    hide TrieNode.Valid, Ascending, Shaped, Walk;
    var p := Position(t, cur, i, id);
    b := p;
    AscendingIsSortedEnumeration(t.views[id].bits, MAX_PER_NODE);
    assert p in Ascending(t.views[id].bits, MAX_PER_NODE);
    ChildTaken(t, id, p);
    NoChildIn(t, id, i, c, p);
    QueueChild(t.nodes.Keys, done, queue, id, c, p);
    child := cur.childPtr[p];
  }

  lemma WalkOver(t: Trie, id: Id, c: nat, done: set<Id>, queue: seq<Id>)
    requires Shaped(t) && id in t.nodes && id in t.views && id in done && c <= MAX_PER_NODE
    requires Walk(t.nodes.Keys, done, queue, id, c)
    requires id.level < t.depth - 1 ==>
               StartsAt(Ascending(t.views[id].bits, MAX_PER_NODE), 0, c, |Ascending(t.views[id].bits, MAX_PER_NODE)|)
    ensures Frontier(t.nodes.Keys, done, queue)
  {
    hide TrieNode.Valid, Ascending, Shaped, Walk, Frontier;
    NodeKind(t, id);
    if id.level < t.depth - 1 {
      NoChildIn(t, id, |Ascending(t.views[id].bits, MAX_PER_NODE)|, c, MAX_PER_NODE);
    } else {
      forall k | c <= k < MAX_PER_NODE ensures Child(id, k) !in t.nodes {
        if Child(id, k) in t.nodes { NodeKind(t, Child(id, k)); }
      }
    }
    Visited(t.nodes.Keys, done, queue, id, c);
  }

  /** The destructor's loop over the children of one node. */
  method PushChildren(t: Trie, cur: TrieNode, Q: seq<TrieNode>, ghost id: Id, ghost done: set<Id>, ghost queue: seq<Id>)
      returns (Q': seq<TrieNode>, ghost queue': seq<Id>)
    requires Shaped(t) && id in t.nodes && t.nodes[id] == cur && Latest(done, id)
    requires Queued(t.nodes, Q, queue) && Walk(t.nodes.Keys, done, queue, id, 0)
    modifies t`views, t`Repr, cur`bitPosition, cur`view, cur`Repr
    ensures Shaped(t) && fresh(t.Repr - old(t.Repr)) && OnlyListed(old(t.views), t.views)
    ensures Queued(t.nodes, Q', queue') && Frontier(t.nodes.Keys, done, queue')
  {
    hide TrieNode.Valid, Ascending, Shaped, Walk, Frontier, Queued;
    KnownSlots(t, id);
    NodeKind(t, id);
    Q', queue' := Q, queue;
    ghost var c: nat := 0;
    ghost var slots := Ascending(t.views[id].bits, MAX_PER_NODE);
    var i := 0;
    while !cur.isLeaf && i < cur.elemCount
      invariant Shaped(t) && fresh(t.Repr - old(t.Repr)) && OnlyListed(old(t.views), t.views)
      invariant i <= cur.elemCount && c <= MAX_PER_NODE && StartsAt(slots, 0, c, i)
      invariant Queued(t.nodes, Q', queue') && Walk(t.nodes.Keys, done, queue', id, c)
      decreases cur.elemCount - i
    {
      var child;
      ghost var b;
      child, b := ChildAt(t, cur, i, id, c, done, queue');
      QueuedOne(t.nodes, Q', queue', Child(id, b));
      Q', queue' := Q' + [child], queue' + [Child(id, b)];
      c := b + 1;
      i := i + 1;
    }
    WalkOver(t, id, c, done, queue');
  }

  /** The destructor: deletes every node once, parents before children. */
  method Destroy(t: Trie) returns (ghost deleted: seq<Id>)
    requires Shaped(t) && t.nodeCount == |t.nodes|
    modifies t`nodeCount, t`views, t`Repr, t.Repr
    ensures Distinct(deleted) && (forall id :: id in deleted <==> id in old(t.nodes)) && t.nodeCount == 0
  {
    hide TrieNode.Valid, Ascending, Shaped, Walk, Frontier, Queued, Rooted, OnlyListed, Latest, Trie.Structure;
    TrieRooted(t);
    var Q := [t.root];
    ghost var ids, queue := t.nodes.Keys, [ROOT];
    ghost var done: set<Id> := {};
    deleted := [];
    FrontierStart(ids);
    QueuedRoot(t);
    while Q != []
      invariant Shaped(t) && fresh(t.Repr - old(t.Repr)) && t.nodes == old(t.nodes)
      invariant Queued(t.nodes, Q, queue) && Frontier(ids, done, queue)
      invariant Distinct(deleted) && (forall id :: id in deleted <==> id in done) && done <= ids
                && t.nodeCount == |ids| - |done|
      decreases |ids| - |done|
    {
      QueuedHead(t.nodes, Q, queue);
      Visit(ids, done, queue);
      ghost var id := queue[0];
      KnownSlots(t, id);
      var cur := Q[0];
      Q, queue, done := Q[1..], queue[1..], done + {id};
      SetBound(done, ids);
      Q, queue := PushChildren(t, cur, Q, id, done, queue);
      deleted := deleted + [id];
      t.nodeCount := t.nodeCount - 1;
    }
    QueuedHead(t.nodes, Q, queue);
    AllVisited(ids, done);
  }

  lemma SetBound(xs: set<Id>, ys: set<Id>)
    requires xs <= ys
    ensures |xs| <= |ys|
  {
    if xs != {} {
      var x :| x in xs;
      SetBound(xs - {x}, ys - {x});
    }
  }
}
