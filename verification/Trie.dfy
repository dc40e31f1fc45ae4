/** The in-memory trie: a 256-way radix tree over the bytes of fixed-width keys. */
module Tries {
  import opened FlowLog
  import opened Radix
  import opened TrieNodes
  import opened TriePaths

  /** The taken slots are the bytes with a longer prefix below, and their pointers lead there. */
  ghost predicate Links(nodes: map<Id, TrieNode>, id: Id, bits: set<nat>, kids: seq<TrieNode?>) {
    && |kids| == MAX_PER_NODE
    && (forall b :: 0 <= b < MAX_PER_NODE ==> (b in bits <==> Child(id, b) in nodes))
    && (forall b :: 0 <= b < MAX_PER_NODE && b in bits ==> kids[b] == nodes[Child(id, b)])
  }

  /** A node sits at its level, below its parent, and is linked to the nodes of the prefixes one byte longer. */
  ghost predicate Placed(nodes: map<Id, TrieNode>, d: nat, id: Id)
    requires id in nodes
    reads nodes[id], nodes[id].Repr
  {
    && nodes[id].Valid()
    && id.level < d && id.prefix < Pow256(id.level)
    && (nodes[id].isLeaf <==> id.level == d - 1)
    && (id.level > 0 ==> Id(id.level - 1, id.prefix / 256) in nodes)
    && (id.level < d - 1 ==> Links(nodes, id, nodes[id].view.bits, nodes[id].childPtr[..]))
  }

  type Views = map<Id, View>

  /** A leaf holds the values logged for its keys, and has taken a slot only for a key with values. */
  ghost predicate Holds(view: View, id: Id, log: Log) {
    && |view.values| == MAX_PER_NODE
    && (forall b :: 0 <= b < MAX_PER_NODE ==> view.values[b] == ValuesOf(log, 256 * id.prefix + b))
    && (forall b :: 0 <= b < MAX_PER_NODE ==> (b in view.bits <==> view.values[b] != []))
  }

  ghost predicate AllHold(views: Views, log: Log, d: nat) {
    forall id :: id in views && id.level == d - 1 ==> Holds(views[id], id, log)
  }

  /** No node's list of taken slots is out of date. */
  ghost predicate AllFresh(views: Views) {
    forall id :: id in views ==> views[id].accurate
  }

  /** From level i on, adding the key gives no new slot to a node that has already listed its slots. */
  ghost predicate KeepsLists(views: Views, key: nat, d: nat, i: nat) {
    forall j :: i <= j < d && PathNode(key, d, j) in views && views[PathNode(key, d, j)].listed ==>
      Prefix(key, d, j + 1) % 256 in views[PathNode(key, d, j)].bits
  }

  /** On level j the key takes a slot that is new to a node whose list of slots goes on behind it. */
  ghost predicate SpoilsAt(views: Views, key: nat, d: nat, j: nat)
    requires j < d
  {
    PathNode(key, d, j) in views && Spoils(views[PathNode(key, d, j)], Prefix(key, d, j + 1) % 256)
  }

  /** Adding the key takes such a slot on its way down. */
  ghost predicate SpoilsPath(views: Views, key: nat, d: nat) {
    exists j :: 0 <= j < d && SpoilsAt(views, key, d, j)
  }

  /** Above level i a list on the key's path is out of date, or from there on one is going to be. */
  ghost predicate Spoiling(views: Views, key: nat, d: nat, i: nat)
    requires i <= d
  {
    || (exists j :: 0 <= j < i && PathNode(key, d, j) in views && !views[PathNode(key, d, j)].accurate)
    || (exists j :: i <= j < d && SpoilsAt(views, key, d, j))
  }

  lemma SpoilingStart(views: Views, key: nat, d: nat)
    ensures Spoiling(views, key, d, 0) <==> SpoilsPath(views, key, d)
  {
    hide SpoilsAt;
  }

  /** A node that grows a child in front of a listed one is left with a list out of date. */
  lemma GrowthSpoils(views: Views, views': Views, key: nat, d: nat, i: nat, tmp: nat)
    requires 1 <= i < d && PathNode(key, d, i) == Child(PathNode(key, d, i - 1), tmp) && tmp < MAX_PER_NODE
    requires Grown(views, views', PathNode(key, d, i - 1), tmp, i == d - 1) && Spoiling(views, key, d, i - 1)
    ensures Spoiling(views', key, d, i)
  {
    hide Prefix, Spoils;
    assert Prefix(key, d, i) % 256 == tmp;
    if j :| 0 <= j < i - 1 && PathNode(key, d, j) in views && !views[PathNode(key, d, j)].accurate {
      assert !views'[PathNode(key, d, j)].accurate;
    } else {
      var j :| i - 1 <= j < d && SpoilsAt(views, key, d, j);
      if j >= i { assert SpoilsAt(views', key, d, j); }
    }
  }

  /** A slot that was taken before spoils nothing. */
  lemma SpoilingBelow(views: Views, key: nat, d: nat, i: nat)
    requires i < d && Spoiling(views, key, d, i) && PathNode(key, d, i) in views
    requires Prefix(key, d, i + 1) % 256 in views[PathNode(key, d, i)].bits
    ensures Spoiling(views, key, d, i + 1)
  {
    hide Prefix;
    if j :| 0 <= j < i && PathNode(key, d, j) in views && !views[PathNode(key, d, j)].accurate {
    } else {
      var j :| i <= j < d && SpoilsAt(views, key, d, j);
      assert j != i;
    }
  }

  lemma StoringSpoils(views: Views, views': Views, key: nat, d: nat, b: nat, value: Value)
    requires d >= 1 && b < MAX_PER_NODE && Prefix(key, d, d) == 256 * Prefix(key, d, d - 1) + b
    requires Stored(views, views', PathNode(key, d, d - 1), b, value) && Spoiling(views, key, d, d - 1)
    ensures !AllFresh(views')
  {
    hide Prefix, Spoils;
    assert Prefix(key, d, d) % 256 == b;
    if j :| 0 <= j < d - 1 && PathNode(key, d, j) in views && !views[PathNode(key, d, j)].accurate {
      assert !views'[PathNode(key, d, j)].accurate;
    } else {
      var j :| d - 1 <= j < d && SpoilsAt(views, key, d, j);
      assert j == d - 1;
    }
  }

  /** No node has listed its slots yet, as before the first query or write. */
  ghost predicate NoneListed(views: Views) {
    forall id :: id in views ==> !views[id].listed
  }

  lemma GrowthListsNothing(views: Views, views': Views, id: Id, b: nat, leaf: bool)
    requires Grown(views, views', id, b, leaf)
    ensures NoneListed(views) ==> NoneListed(views')
  {}

  lemma StoringListsNothing(views: Views, views': Views, id: Id, b: nat, value: Value)
    requires Stored(views, views', id, b, value)
    ensures NoneListed(views) ==> NoneListed(views')
  {}

  /** The node id has got the new child b. */
  ghost predicate Grown(views: Views, views': Views, id: Id, b: nat, leaf: bool) {
    && id in views && Child(id, b) !in views
    && views'.Keys == views.Keys + {Child(id, b)}
    && views'[Child(id, b)] == NewView(leaf)
    && views'[id] == views[id].(bits := views[id].bits + {b}, accurate := views'[id].accurate)
    && (!views[id].listed ==> views'[id].accurate) && (Spoils(views[id], b) ==> !views'[id].accurate)
    && forall j :: j in views && j != id ==> views'[j] == views[j]
  }

  lemma GrownIntro(views: Views, id: Id, view: View, b: nat, leaf: bool)
    requires id in views && Child(id, b) !in views
    requires view == views[id].(bits := views[id].bits + {b}, accurate := view.accurate)
    requires (!view.listed ==> view.accurate) && (Spoils(views[id], b) ==> !view.accurate)
    ensures Grown(views, views[id := view][Child(id, b) := NewView(leaf)], id, b, leaf)
  {
    hide NewView, Spoils;
  }

  lemma NewLeafHolds(id: Id, log: Log, d: nat)
    requires d >= 1 && id.level == d - 1 && id !in NodeIds(log, d)
    ensures Holds(NewView(true), id, log)
  {
    hide NodeIds;
    forall key: nat | key / 256 == id.prefix ensures ValuesOf(log, key) == [] {
      NothingLogged(log, d, id, key);
    }
  }

  /** A new node holds nothing, and nothing is logged for its keys. */
  lemma GrowthKeepsValues(views: Views, views': Views, id: Id, b: nat, log: Log, d: nat)
    requires id.level < d - 1 && Grown(views, views', id, b, id.level == d - 2)
    requires AllHold(views, log, d) && NodeIds(log, d) <= views.Keys
    ensures AllHold(views', log, d)
  {
    hide Holds, NodeIds;
    if id.level == d - 2 { NewLeafHolds(Child(id, b), log, d); }
  }

  /** A growing node that has not listed its slots leaves no list out of date. */
  lemma GrowthKeepsLists(views: Views, views': Views, key: nat, d: nat, i: nat, tmp: nat)
    requires 1 <= i < d && PathNode(key, d, i) == Child(PathNode(key, d, i - 1), tmp) && tmp < MAX_PER_NODE
    requires Grown(views, views', PathNode(key, d, i - 1), tmp, i == d - 1)
             && tmp !in views[PathNode(key, d, i - 1)].bits
    requires AllFresh(views) && KeepsLists(views, key, d, i - 1)
    ensures AllFresh(views') && KeepsLists(views', key, d, i)
  {
    hide Prefix;
    assert Prefix(key, d, i) % 256 == tmp;
    forall j | i <= j < d && PathNode(key, d, j) in views' && views'[PathNode(key, d, j)].listed
      ensures Prefix(key, d, j + 1) % 256 in views'[PathNode(key, d, j)].bits
    {
      assert views'[PathNode(key, d, j)] == views[PathNode(key, d, j)];
    }
  }

  lemma ChildInjective(id: Id, b: nat, other: Id, c: nat)
    requires b < MAX_PER_NODE && c < MAX_PER_NODE && Child(id, b) == Child(other, c)
    ensures id == other && b == c
  {}

  /** A new child below id does not concern the other nodes. */
  lemma LinksAfterGrowth(nodes: map<Id, TrieNode>, j: Id, bits: set<nat>, kids: seq<TrieNode?>, id: Id, b: nat,
                         child: TrieNode)
    requires b < MAX_PER_NODE && Child(id, b) !in nodes && Links(nodes, j, bits, kids)
    ensures j != id ==> Links(nodes[Child(id, b) := child], j, bits, kids)
    ensures j == id ==> Links(nodes[Child(id, b) := child], j, bits + {b}, kids[b := child])
  {
    forall c | 0 <= c < MAX_PER_NODE
      ensures Child(j, c) == Child(id, b) <==> j == id && c == b
    {
      if Child(j, c) == Child(id, b) { ChildInjective(j, c, id, b); }
    }
  }

  lemma PlacedAfterGrowth(nodes: map<Id, TrieNode>, d: nat, j: Id, id: Id, b: nat, child: TrieNode)
    requires b < MAX_PER_NODE && Child(id, b) !in nodes && j in nodes && j != id && Placed(nodes, d, j)
    ensures Placed(nodes[Child(id, b) := child], d, j)
  {
    hide Links, TrieNode.Valid;
    if j.level < d - 1 {
      LinksAfterGrowth(nodes, j, nodes[j].view.bits, nodes[j].childPtr[..], id, b, child);
    }
  }

  lemma PlacedIntro(nodes: map<Id, TrieNode>, d: nat, id: Id)
    requires id in nodes && nodes[id].Valid() && id.level < d && id.prefix < Pow256(id.level)
    requires nodes[id].isLeaf <==> id.level == d - 1
    requires id.level > 0 ==> Id(id.level - 1, id.prefix / 256) in nodes
    requires id.level < d - 1 ==> Links(nodes, id, nodes[id].view.bits, nodes[id].childPtr[..])
    ensures Placed(nodes, d, id)
  {}

  /** A fresh node has no links yet. */
  lemma PlacedChild(nodes: map<Id, TrieNode>, d: nat, id: Id, b: nat)
    requires id in nodes && id.level < d - 1 && id.prefix < Pow256(id.level) && b < MAX_PER_NODE
    requires Child(id, b) in nodes && forall c :: 0 <= c < MAX_PER_NODE ==> Child(Child(id, b), c) !in nodes
    requires nodes[Child(id, b)].Valid() && nodes[Child(id, b)].view.bits == {}
    requires nodes[Child(id, b)].isLeaf <==> id.level == d - 2
    ensures Placed(nodes, d, Child(id, b))
  {
    hide TrieNode.Valid;
  }

  lemma EmptyTrie(nodes: map<Id, TrieNode>, root: TrieNode, d: nat)
    requires nodes == map[ROOT := root] && d >= 1
    requires root.Valid() && root.view == NewView(d == 1) && (root.isLeaf <==> d == 1)
    ensures InPlace(nodes, map[ROOT := root.view], d, root.Repr) && Separate(nodes, root.Repr)
    ensures AllHold(map[ROOT := root.view], [], d) && !root.view.listed && root.view.accurate
    ensures nodes.Keys == NodeIds([], d) && |nodes| == 1
  {
    hide TrieNode.Valid, Holds;
    assert nodes.Keys == {ROOT};
    if d == 1 { NewLeafEmpty(); }
  }

  lemma NewLeafEmpty()
    ensures Holds(NewView(true), ROOT, [])
  {}

  /** The value has been appended to slot b of the leaf id. */
  ghost predicate Stored(views: Views, views': Views, id: Id, b: nat, value: Value) {
    && id in views && id in views' && |views[id].values| == MAX_PER_NODE && b < MAX_PER_NODE
    && views' == views[id := views[id].(bits := views[id].bits + {b}, accurate := views'[id].accurate,
                                        values := views[id].values[b := views[id].values[b] + [value]])]
    && (views[id].accurate && (!views[id].listed || b in views[id].bits) ==> views'[id].accurate)
    && (Spoils(views[id], b) ==> !views'[id].accurate)
  }

  lemma StoredIntro(views: Views, id: Id, view: View, b: nat, value: Value)
    requires id in views && |views[id].values| == MAX_PER_NODE && b < MAX_PER_NODE
    requires view == views[id].(bits := views[id].bits + {b}, accurate := view.accurate,
                                values := views[id].values[b := views[id].values[b] + [value]])
    requires views[id].accurate && (!views[id].listed || b in views[id].bits) ==> view.accurate
    requires Spoils(views[id], b) ==> !view.accurate
    ensures Stored(views, views[id := view], id, b, value)
  {
    hide Spoils;
  }

  lemma HoldsAppend(view: View, view': View, id: Id, log: Log, e: Entry)
    requires Holds(view, id, log) && |view'.values| == MAX_PER_NODE
    requires forall b :: 0 <= b < MAX_PER_NODE ==>
               view'.values[b] == if e.key == 256 * id.prefix + b then view.values[b] + [e.value] else view.values[b]
    requires forall b :: 0 <= b < MAX_PER_NODE ==> (b in view'.bits <==> b in view.bits || e.key == 256 * id.prefix + b)
    ensures Holds(view', id, log + [e])
  {
    hide ValuesOf;
    forall key: nat ensures ValuesOf(log + [e], key) == ValuesOf(log, key) + (if e.key == key then [e.value] else []) {
      ValuesOfAppend(log, e, key);
    }
  }

  lemma StoredIsLogged(views: Views, views': Views, id: Id, b: nat, log: Log, e: Entry, d: nat)
    requires Stored(views, views', id, b, e.value) && AllHold(views, log, d) && id.level == d - 1
    requires e.key == 256 * id.prefix + b
    ensures AllHold(views', log + [e], d)
  {
    hide Holds;
    forall j | j in views' && j.level == d - 1 ensures Holds(views'[j], j, log + [e]) {
      assert |views[j].values| == MAX_PER_NODE by { HoldsSize(views[j], j, log); }
      HoldsAppend(views[j], views'[j], j, log, e);
    }
  }

  lemma HoldsSize(view: View, id: Id, log: Log)
    requires Holds(view, id, log)
    ensures |view.values| == MAX_PER_NODE
  {}

  lemma StoredKeepsLists(views: Views, views': Views, key: nat, d: nat, b: nat, value: Value)
    requires d >= 1 && b < MAX_PER_NODE && Prefix(key, d, d) == 256 * Prefix(key, d, d - 1) + b
    requires Stored(views, views', PathNode(key, d, d - 1), b, value)
    ensures AllFresh(views) && KeepsLists(views, key, d, d - 1) ==> AllFresh(views')
  {
    hide Prefix;
    assert Prefix(key, d, d) % 256 == b;
  }

  lemma KeysFitAppend(log: Log, d: nat, e: Entry)
    requires KeysFit(log, d) && e.key < Pow256(d)
    ensures KeysFit(log + [e], d)
  {}

  lemma RootIsNode(log: Log, d: nat)
    ensures ROOT in NodeIds(log, d)
  {
    NodeIdsMember(log, d, ROOT);
  }

  lemma PlacedLeaf(nodes: map<Id, TrieNode>, d: nat, id: Id)
    requires id in nodes && nodes[id].Valid() && nodes[id].isLeaf && id.level == d - 1 && id.prefix < Pow256(id.level)
    requires id.level > 0 ==> Id(id.level - 1, id.prefix / 256) in nodes
    ensures Placed(nodes, d, id)
  {}

  lemma KeepsListsBelow(views: Views, key: nat, d: nat, i: nat)
    ensures KeepsLists(views, key, d, i) ==> KeepsLists(views, key, d, i + 1)
  {
    hide Prefix;
  }

  lemma PathIdsStep(key: nat, d: nat, i: nat)
    requires i < d
    ensures PathIds(key, d, i + 1) == PathIds(key, d, i) + {PathNode(key, d, i)}
  {}

  /** Growing the next node on the path keeps what the leaves hold and leaves no list out of date. */
  lemma PathGrows(views: Views, log: Log, key: nat, d: nat, i: nat, tmp: nat)
    requires 1 <= i < d && tmp < MAX_PER_NODE && PathNode(key, d, i) == Child(PathNode(key, d, i - 1), tmp)
    requires PathNode(key, d, i - 1) in views && tmp !in views[PathNode(key, d, i - 1)].bits
    requires AllHold(views, log, d) && NodeIds(log, d) <= views.Keys
    ensures forall views' :: Grown(views, views', PathNode(key, d, i - 1), tmp, i == d - 1) ==>
              && AllHold(views', log, d)
              && (AllFresh(views) && KeepsLists(views, key, d, i - 1) ==>
                   AllFresh(views') && KeepsLists(views', key, d, i))
  {
    hide AllHold, NodeIds, Prefix, AllFresh, KeepsLists, Grown;
    forall views' | Grown(views, views', PathNode(key, d, i - 1), tmp, i == d - 1)
      ensures AllHold(views', log, d)
      ensures AllFresh(views) && KeepsLists(views, key, d, i - 1) ==> AllFresh(views') && KeepsLists(views', key, d, i)
    {
      GrowthKeepsValues(views, views', PathNode(key, d, i - 1), tmp, log, d);
      if AllFresh(views) && KeepsLists(views, key, d, i - 1) {
        GrowthKeepsLists(views, views', key, d, i, tmp);
      }
    }
  }

  lemma NewViewBits(leaf: bool)
    ensures NewView(leaf).bits == {}
  {}

  /** Every node lives in the space and owns its parts. */
  ghost predicate Separate(nodes: map<Id, TrieNode>, space: set<object>)
    reads space
  {
    && (forall id :: id in nodes ==> nodes[id] in space && nodes[id].Repr <= space && nodes[id] in nodes[id].Repr)
    && (forall id, other :: id in nodes && other in nodes && id != other ==> nodes[id].Repr !! nodes[other].Repr)
  }

  /** The nodes are in place and show the views. */
  ghost predicate InPlace(nodes: map<Id, TrieNode>, views: Views, d: nat, space: set<object>)
    reads space
  {
    && views.Keys == nodes.Keys
    && forall id :: id in nodes ==>
         nodes[id] in space && nodes[id].Repr <= space && Placed(nodes, d, id) && nodes[id].view == views[id]
  }

  lemma SeparateGrows(nodes: map<Id, TrieNode>, space: set<object>, id: Id, child: TrieNode)
    requires Separate(nodes, space) && id !in nodes && child.Repr !! space && child in child.Repr
    ensures Separate(nodes[id := child], space + child.Repr)
  {}

  class Trie {
    const depth: nat
    const root: TrieNode
    var nodeCount: nat
    ghost var nodes: map<Id, TrieNode>
    ghost var views: Views
    ghost var log: Log
    ghost var Repr: set<object>

    ghost predicate Structure()
      reads this`nodes, this`views, this`Repr, Repr
    {
      && this !in Repr && depth >= 1 && ROOT in nodes && nodes[ROOT] == root
      && Separate(nodes, Repr)
      && InPlace(nodes, views, depth, Repr)
    }

    /** The nodes represent the log. */
    ghost predicate Represents()
      reads this`nodes, this`views, this`log, this`Repr, Repr
    {
      && Structure()
      && AllHold(views, log, depth)
      && KeysFit(log, depth)
      && nodes.Keys == NodeIds(log, depth)
    }

    /** The trie represents its log and has counted its nodes. */
    ghost predicate Valid()
      reads this, Repr
    {
      Represents() && nodeCount == |nodes|
    }

    constructor (keyBytes: nat)
      requires keyBytes >= 1
      ensures Valid() && fresh(Repr) && depth == keyBytes && log == []
      ensures forall id :: id in views ==> !views[id].listed && views[id].accurate
    {
      hide TrieNode.Valid, Placed, Holds, NodeIds, Pow256, InPlace, Separate, NewView;
      depth := keyBytes;
      root := new TrieNode(keyBytes == 1);
      nodeCount := 1;
      new;
      nodes, views, log := map[ROOT := root], map[ROOT := root.view], [];
      Repr := root.Repr;
      EmptyTrie(nodes, root, depth);
    }

    /** A change to one node's parts leaves the other nodes in place. */
    twostate lemma OthersInPlace(id: Id)
      requires id in nodes && nodes == old(nodes) && views == old(views) && Repr == old(Repr)
      requires old(Separate(nodes, Repr)) && old(InPlace(nodes, views, depth, Repr))
      requires forall o :: o in Repr && o !in old(nodes[id].Repr) ==> unchanged(o)
      requires forall o :: o in nodes[id].Repr ==> o in old(nodes[id].Repr) || o !in Repr
      requires nodes[id] in nodes[id].Repr && Placed(nodes, depth, id)
      ensures Separate(nodes, Repr + nodes[id].Repr)
      ensures InPlace(nodes, views[id := nodes[id].view], depth, Repr + nodes[id].Repr)
    {
      hide Placed;
      forall j | j in nodes && j != id
        ensures nodes[j].Repr == old(nodes[j].Repr) && nodes[j].Repr !! nodes[id].Repr
        ensures Placed(nodes, depth, j) && nodes[j].view == views[j]
      {
        assert old(nodes[j].Repr !! nodes[id].Repr) && old(Placed(nodes, depth, j));
      }
    }

    lemma PlacedFacts(id: Id)
      requires Structure() && id in nodes
      ensures nodes[id].Valid() && id.level < depth && id.prefix < Pow256(id.level)
      ensures nodes[id].isLeaf <==> id.level == depth - 1
      ensures id.level > 0 ==> Id(id.level - 1, id.prefix / 256) in nodes
      ensures id.level < depth - 1 ==> Links(nodes, id, nodes[id].view.bits, nodes[id].childPtr[..])
    {}

    lemma NodeInside(id: Id)
      requires Structure() && id in nodes
      ensures nodes[id].Repr <= Repr && this !in nodes[id].Repr && nodes[id].Valid()
    {
      hide TrieNode.Valid;
    }

    lemma NoOrphans(cid: Id)
      requires Structure() && cid !in nodes
      ensures forall c :: 0 <= c < MAX_PER_NODE ==> Child(cid, c) !in nodes
    {
      hide Placed;
      forall c | 0 <= c < MAX_PER_NODE ensures Child(cid, c) !in nodes {
        if Child(cid, c) in nodes { PlacedFacts(Child(cid, c)); }
      }
    }

    lemma SlotIsLink(id: Id, b: nat)
      requires Structure() && id in nodes && id.level < depth - 1 && b < MAX_PER_NODE
      ensures nodes[id].Valid() && !nodes[id].isLeaf && nodes[id].Repr <= Repr
      ensures b in views[id].bits <==> Child(id, b) in nodes
      ensures b in views[id].bits ==> nodes[id].childPtr[b] == nodes[Child(id, b)]
    {
      hide TrieNode.Valid, Placed;
      PlacedFacts(id);
      assert nodes[id].childPtr[b] == nodes[id].childPtr[..][b];
    }

    lemma BeforeGrowth(id: Id, b: nat)
      requires Structure() && id in nodes && id.level < depth - 1 && b < MAX_PER_NODE && Child(id, b) !in nodes
      ensures nodes[id].Valid() && !nodes[id].isLeaf && b !in views[id].bits && id.prefix < Pow256(id.level)
      ensures id.level > 0 ==> Id(id.level - 1, id.prefix / 256) in nodes
      ensures Links(nodes, id, views[id].bits, nodes[id].childPtr[..])
      ensures forall c :: 0 <= c < MAX_PER_NODE ==> Child(Child(id, b), c) !in nodes
    {
      hide TrieNode.Valid, Placed, Links;
      PlacedFacts(id);
      SlotIsLink(id, b);
      NoOrphans(Child(id, b));
    }

    /** There is room for the child b of id, and all other nodes are in place. */
    ghost predicate Site(b: nat, id: Id)
      reads this`nodes, this`views, this`Repr, Repr
    {
      && this !in Repr && depth >= 1 && ROOT in nodes && nodes[ROOT] == root && views.Keys == nodes.Keys
      && Separate(nodes, Repr)
      && id in nodes && b < MAX_PER_NODE && id.level < depth - 1 && id.prefix < Pow256(id.level)
      && Child(id, b) !in nodes && (forall c :: 0 <= c < MAX_PER_NODE ==> Child(Child(id, b), c) !in nodes)
      && (forall j :: j in nodes && j != id ==> Placed(nodes, depth, j) && nodes[j].view == views[j])
      && (id.level > 0 ==> Id(id.level - 1, id.prefix / 256) in nodes)
    }

    /** The child has been linked below id and can join the nodes. */
    ghost predicate Adoptable(child: TrieNode, b: nat, id: Id, kids: seq<TrieNode?>)
      reads this`nodes, this`views, this`Repr, Repr, child, child.Repr
    {
      && Site(b, id)
      && Links(nodes, id, views[id].bits, kids) && nodes[id].Valid() && !nodes[id].isLeaf
      && nodes[id].view == views[id].(bits := views[id].bits + {b}, accurate := nodes[id].view.accurate)
      && (!nodes[id].view.listed ==> nodes[id].view.accurate) && (Spoils(views[id], b) ==> !nodes[id].view.accurate)
      && nodes[id].childPtr[..] == kids[b := child]
      && child.Valid() && child.view == NewView(child.isLeaf) && (child.isLeaf <==> id.level == depth - 2)
      && child.Repr !! Repr && this !in child.Repr
    }

    /** Sets the child pointer; no other node notices. */
    method LinkChild(current: TrieNode, b: nat, child: TrieNode, ghost id: Id, ghost kids: seq<TrieNode?>)
      requires Structure() && id in nodes && nodes[id] == current && id.level < depth - 1
      requires b < MAX_PER_NODE && Child(id, b) !in nodes && kids == current.childPtr[..]
      requires child.Valid() && child.view == NewView(child.isLeaf) && (child.isLeaf <==> id.level == depth - 2)
      requires child.Repr !! Repr && this !in child.Repr
      modifies current.Repr
      ensures Adoptable(child, b, id, kids) && current.Repr == old(current.Repr)
    {
      hide TrieNode.Valid, Placed, Links, NewView, Pow256;
      BeforeGrowth(id, b);
      FreeSlot(current, b);
      var r := current.AddChild(b, child);
      forall j | j in nodes && j != id
        ensures Placed(nodes, depth, j) && nodes[j].view == views[j]
      {
        assert nodes[j].Repr !! current.Repr;
        assert old(Placed(nodes, depth, j));
      }
    }

    lemma AllPlaced(child: TrieNode, b: nat, id: Id, kids: seq<TrieNode?>)
      requires Adoptable(child, b, id, kids)
      ensures forall j :: j in nodes || j == Child(id, b) ==> Placed(nodes[Child(id, b) := child], depth, j)
    {
      hide TrieNode.Valid, Placed, Links, NewView;
      var grown := nodes[Child(id, b) := child];
      LinksAfterGrowth(nodes, id, views[id].bits, kids, id, b, child);
      PlacedIntro(grown, depth, id);
      forall c | 0 <= c < MAX_PER_NODE ensures Child(Child(id, b), c) !in grown {}
      NewViewBits(child.isLeaf);
      PlacedChild(grown, depth, id, b);
      forall j | j in nodes && j != id ensures Placed(grown, depth, j) {
        PlacedAfterGrowth(nodes, depth, j, id, b, child);
      }
    }

    lemma AllInPlace(child: TrieNode, b: nat, id: Id, kids: seq<TrieNode?>)
      requires Adoptable(child, b, id, kids)
      ensures InPlace(nodes[Child(id, b) := child], views[id := nodes[id].view][Child(id, b) := child.view], depth,
                      Repr + child.Repr)
    {
      hide TrieNode.Valid, Placed, Links, NewView;
      AllPlaced(child, b, id, kids);
    }

    lemma AdoptableGrows(child: TrieNode, b: nat, id: Id, kids: seq<TrieNode?>)
      requires Adoptable(child, b, id, kids)
      ensures Separate(nodes[Child(id, b) := child], Repr + child.Repr)
      ensures Grown(views, views[id := nodes[id].view][Child(id, b) := child.view], id, b, child.isLeaf)
    {
      hide TrieNode.Valid, Placed, Links, NewView, Grown, Separate;
      GrownIntro(views, id, nodes[id].view, b, child.isLeaf);
      SeparateGrows(nodes, Repr, Child(id, b), child);
    }

    /** The new child joins the nodes. */
    ghost method Adopt(child: TrieNode, b: nat, id: Id, kids: seq<TrieNode?>)
      requires Adoptable(child, b, id, kids)
      modifies this`nodes, this`views, this`Repr
      ensures Structure() && nodes == old(nodes)[Child(id, b) := child] && Repr == old(Repr) + child.Repr
      ensures Grown(old(views), views, id, b, child.isLeaf)
    {
      hide TrieNode.Valid, Placed, Links, NewView, Grown, InPlace, Separate;
      AllInPlace(child, b, id, kids);
      AdoptableGrows(child, b, id, kids);
      views := views[id := nodes[id].view][Child(id, b) := child.view];
      nodes := nodes[Child(id, b) := child];
      Repr := Repr + child.Repr;
    }

    /** Grows the child of an inner node that lacks it. */
    method GrowChild(current: TrieNode, b: nat, leaf: bool, ghost id: Id)
      requires Structure() && id in nodes && nodes[id] == current && id.level < depth - 1
      requires b < MAX_PER_NODE && Child(id, b) !in nodes && leaf == (id.level == depth - 2)
      modifies this`nodes, this`views, this`Repr, this`nodeCount, current.Repr
      ensures Structure() && fresh(Repr - old(Repr)) && nodeCount == old(nodeCount) + 1 && log == old(log)
      ensures nodes.Keys == old(nodes).Keys + {Child(id, b)} && nodes[id] == current
      ensures Grown(old(views), views, id, b, leaf)
    {
      hide TrieNode.Valid, NewView, Grown, Adoptable, Site, InPlace, Separate;
      NodeInside(id);
      var child := new TrieNode(leaf);
      ghost var kids := current.childPtr[..];
      LinkChild(current, b, child, id, kids);
      nodeCount := nodeCount + 1;
      Adopt(child, b, id, kids);
    }

    /** The trie while addItem is on its way down: the nodes on the path so far exist, the value is not stored yet. */
    ghost predicate OnTheWay(key: nat, i: nat)
      reads this, Repr
    {
      && Structure()
      && AllHold(views, log, depth)
      && KeysFit(log, depth) && key < Pow256(depth) && i <= depth
      && nodes.Keys == NodeIds(log, depth) + PathIds(key, depth, i)
      && nodeCount == |nodes|
    }

    lemma StartOnTheWay(key: nat)
      requires Valid() && key < Pow256(depth)
      ensures depth >= 1 && OnTheWay(key, 1) && PathNode(key, depth, 0) == ROOT && ROOT in nodes && nodes[ROOT] == root
    {
      hide InPlace, Separate, AllHold, KeysFit, Pow256;
      PrefixNone(key, depth);
      RootIsNode(log, depth);
      PathIdsStep(key, depth, 0);
    }

    /** One level of addItem where the child is missing. */
    method GrowOnPath(current: TrieNode, tmp: nat, leaf: bool, ghost key: nat, ghost i: nat)
      requires 1 <= i < depth && OnTheWay(key, i) && leaf == (i == depth - 1)
      requires PathNode(key, depth, i - 1) in nodes && current == nodes[PathNode(key, depth, i - 1)]
      requires tmp < MAX_PER_NODE && PathNode(key, depth, i) == Child(PathNode(key, depth, i - 1), tmp)
      requires PathNode(key, depth, i) !in nodes
      modifies this, Repr
      ensures OnTheWay(key, i + 1) && fresh(Repr - old(Repr)) && log == old(log)
      ensures PathNode(key, depth, i - 1) in nodes && current == nodes[PathNode(key, depth, i - 1)]
      ensures AllFresh(old(views)) && KeepsLists(old(views), key, depth, i - 1) ==>
                AllFresh(views) && KeepsLists(views, key, depth, i)
      ensures Spoiling(old(views), key, depth, i - 1) ==> Spoiling(views, key, depth, i)
      ensures NoneListed(old(views)) ==> NoneListed(views)
    {
      hide AllHold, NodeIds, PathIds, Prefix, KeysFit, AllFresh, KeepsLists, Spoiling, NoneListed, Grown, Pow256,
           InPlace, Separate;
      ghost var id := PathNode(key, depth, i - 1);
      SlotIsLink(id, tmp);
      ShownBits(id);
      PathGrows(views, log, key, depth, i, tmp);
      GrowChild(current, tmp, leaf, id);
      GrowthListsNothing(old(views), views, id, tmp, leaf);
      if Spoiling(old(views), key, depth, i - 1) { GrowthSpoils(old(views), views, key, depth, i, tmp); }
      PathIdsStep(key, depth, i);
    }

    /** One level of addItem: finds or grows the child on the path of the key. */
    method Descend(current: TrieNode, tmp: nat, leaf: bool, ghost key: nat, ghost i: nat) returns (next: TrieNode)
      requires 1 <= i < depth && OnTheWay(key, i) && leaf == (i == depth - 1)
      requires PathNode(key, depth, i - 1) in nodes && current == nodes[PathNode(key, depth, i - 1)]
      requires tmp < MAX_PER_NODE && PathNode(key, depth, i) == Child(PathNode(key, depth, i - 1), tmp)
      modifies this, Repr
      ensures OnTheWay(key, i + 1) && fresh(Repr - old(Repr)) && log == old(log)
      ensures PathNode(key, depth, i) in nodes && next == nodes[PathNode(key, depth, i)]
      ensures AllFresh(old(views)) && KeepsLists(old(views), key, depth, i - 1) ==>
                AllFresh(views) && KeepsLists(views, key, depth, i)
      ensures Spoiling(old(views), key, depth, i - 1) ==> Spoiling(views, key, depth, i)
      ensures NoneListed(old(views)) ==> NoneListed(views)
    {
      hide TrieNode.Valid, AllHold, NodeIds, PathIds, Prefix, KeysFit, AllFresh, KeepsLists, Spoiling, NoneListed,
           Pow256, InPlace, Separate;
      ghost var id := PathNode(key, depth, i - 1);
      SlotIsLink(id, tmp);
      ShownBits(id);
      var present := current.HasChildren(tmp);
      if !present {
        GrowOnPath(current, tmp, leaf, key, i);
        SlotIsLink(id, tmp);
      } else if Spoiling(views, key, depth, i - 1) {
        SpoilingBelow(views, key, depth, i - 1);
      }
      KeepsListsBelow(views, key, depth, i - 1);
      PathIdsStep(key, depth, i);
      next := current.childPtr[tmp];
    }

    lemma ShownBits(id: Id)
      requires Structure() && id in nodes
      ensures views.Keys == nodes.Keys && nodes[id].view == views[id]
    {}

    /** The value enters the leaf; no other node notices. */
    method AddToLeaf(current: TrieNode, tmp: nat, ghost id: Id, value: Value)
      requires Structure() && id in nodes && current == nodes[id] && id.level == depth - 1 && tmp < MAX_PER_NODE
      modifies this`views, this`Repr, current.Repr
      ensures Structure() && fresh(Repr - old(Repr)) && log == old(log) && nodes == old(nodes)
              && nodeCount == old(nodeCount)
      ensures Stored(old(views), views, id, tmp, value)
    {
      hide TrieNode.Valid, Stored, InPlace, Separate;
      NodeInside(id);
      ShownBits(id);
      LeafSize(id);
      TouchLeaf(current, tmp, id, value);
      StoredIntro(views, id, current.view, tmp, value);
      Repr := Repr + current.Repr;
      views := views[id := current.view];
    }

    method TouchLeaf(current: TrieNode, tmp: nat, ghost id: Id, value: Value)
      requires Structure() && id in nodes && current == nodes[id] && id.level == depth - 1 && tmp < MAX_PER_NODE
      modifies current.Repr
      ensures fresh(current.Repr - old(current.Repr)) && this !in current.Repr
      ensures Separate(nodes, Repr + current.Repr)
              && InPlace(nodes, views[id := current.view], depth, Repr + current.Repr)
      ensures current.view == views[id].(bits := views[id].bits + {tmp}, accurate := current.view.accurate,
                                         values := views[id].values[tmp := views[id].values[tmp] + [value]])
      ensures views[id].accurate && (!current.view.listed || tmp in views[id].bits) ==> current.view.accurate
      ensures Spoils(views[id], tmp) ==> !current.view.accurate
    {
      hide TrieNode.Valid, Placed, Pow256, InPlace, Separate;
      NodeInside(id);
      LeafFacts(id);
      current.AddValue(tmp, value);
      PlacedLeaf(nodes, depth, id);
      OthersInPlace(id);
    }

    lemma LeafFacts(id: Id)
      requires Structure() && id in nodes && id.level == depth - 1
      ensures nodes[id].Valid() && nodes[id].isLeaf && id.prefix < Pow256(id.level) && nodes[id].view == views[id]
      ensures id.level > 0 ==> Id(id.level - 1, id.prefix / 256) in nodes
    {
      hide TrieNode.Valid;
    }

    lemma LeafSize(id: Id)
      requires Structure() && id in nodes && id.level == depth - 1
      ensures |views[id].values| == MAX_PER_NODE
    {
      hide TrieNode.Valid;
      LeafFacts(id);
    }

    /** The last step of addItem: the value goes to the list of the key's last byte. */
    method Store(current: TrieNode, tmp: nat, ghost key: nat, value: Value)
      requires OnTheWay(key, depth)
      requires PathNode(key, depth, depth - 1) in nodes && current == nodes[PathNode(key, depth, depth - 1)]
      requires tmp < MAX_PER_NODE && Prefix(key, depth, depth) == 256 * Prefix(key, depth, depth - 1) + tmp
      modifies this, Repr
      ensures Valid() && fresh(Repr - old(Repr)) && log == old(log) + [Entry(key, value)]
      ensures AllFresh(old(views)) && KeepsLists(old(views), key, depth, depth - 1) ==> AllFresh(views)
      ensures Spoiling(old(views), key, depth, depth - 1) ==> !AllFresh(views)
      ensures NoneListed(old(views)) ==> NoneListed(views)
    {
      hide AllHold, NodeIds, Prefix, KeysFit, AllFresh, KeepsLists, Spoiling, NoneListed, Pow256, Stored, InPlace,
           Separate;
      ghost var id, e, before := PathNode(key, depth, depth - 1), Entry(key, value), views;
      NodeInside(id);
      AddToLeaf(current, tmp, id, value);
      PrefixAll(key, depth);
      StoredIsLogged(before, views, id, tmp, log, e, depth);
      StoredKeepsLists(before, views, key, depth, tmp, value);
      if Spoiling(before, key, depth, depth - 1) { StoringSpoils(before, views, key, depth, tmp, value); }
      StoringListsNothing(before, views, id, tmp, value);
      NodeIdsAppend(log, depth, e);
      KeysFitAppend(log, depth, e);
      log := log + [e];
    }

    /** addItem: the value is logged under the key. */
    method AddItem(key: nat, value: Value)
      requires Valid() && key < Pow256(depth)
      modifies this, Repr
      ensures Valid() && fresh(Repr - old(Repr))
      ensures log == old(log) + [Entry(key, value)]
      ensures AllFresh(old(views)) && KeepsLists(old(views), key, depth, 0) ==> AllFresh(views)
      ensures SpoilsPath(old(views), key, depth) ==> !AllFresh(views)
      ensures NoneListed(old(views)) ==> NoneListed(views)
    {
      hide AllHold, NodeIds, Prefix, KeysFit, AllFresh, KeepsLists, SpoilsPath, Spoiling, NoneListed, Pow256, Structure,
           OnTheWay, Rest, Div, Mod;
      var current := root;
      var k := key;
      RestStart(key, depth);
      StartOnTheWay(key);
      SpoilingStart(views, key, depth);
      var i := 1;
      while i < depth
        invariant 1 <= i <= depth && OnTheWay(key, i) && log == old(log) && fresh(Repr - old(Repr))
        invariant k == Rest(key, depth, i - 1)
        invariant PathNode(key, depth, i - 1) in nodes && current == nodes[PathNode(key, depth, i - 1)]
        invariant AllFresh(old(views)) && KeepsLists(old(views), key, depth, 0) ==>
                    AllFresh(views) && KeepsLists(views, key, depth, i - 1)
        invariant SpoilsPath(old(views), key, depth) ==> Spoiling(views, key, depth, i - 1)
        invariant NoneListed(old(views)) ==> NoneListed(views)
      {
        var tmp := Div(k, Pow256(depth - 1));
        RestStep(key, depth, i - 1);
        current := Descend(current, tmp, i == depth - 1, key, i);
        k := Mod(k * 256, Pow256(depth));
        i := i + 1;
      }
      var tmp := Div(k, Pow256(depth - 1));
      RestStep(key, depth, depth - 1);
      Store(current, tmp, key, value);
    }
  }
}
