/** Range queries on the in-memory trie. */
module TrieQueries {
  import opened Enumerate
  import opened FlowLog
  import opened LinkLists
  import opened ListFiles
  import opened Radix
  import opened TrieLevels
  import opened TrieNodes
  import opened TriePaths
  import opened Tries

  /** A trie in shape to be walked: its nodes are those of its log, and their position lists are up to date. */
  ghost predicate Shaped(t: Trie)
    reads t`nodes, t`views, t`log, t`Repr, t.Repr
  {
    && t.Structure() && AllFresh(t.views)
    && KeysFit(t.log, t.depth) && t.nodes.Keys == NodeIds(t.log, t.depth)
  }

  /** A trie in shape whose leaves hold the logged values. */
  ghost predicate Ready(t: Trie)
    reads t`nodes, t`views, t`log, t`Repr, t.Repr
  {
    Shaped(t) && AllHold(t.views, t.log, t.depth)
  }

  lemma NodeFacts(t: Trie, id: Id)
    requires t.Structure() && id in t.nodes
    ensures t.nodes[id].Valid() && t.nodes[id].Repr <= t.Repr && t !in t.nodes[id].Repr
    ensures t.views.Keys == t.nodes.Keys && t.nodes[id].view == t.views[id]
    ensures t.nodes[id].elemCount == |Ascending(t.views[id].bits, MAX_PER_NODE)|
    ensures forall b :: b in t.views[id].bits ==> b < MAX_PER_NODE
  {
    hide Ascending;
    CountedSlots(t.nodes[id]);
  }

  lemma CountedSlots(node: TrieNode)
    requires node.Valid()
    ensures node.elemCount == |Ascending(node.view.bits, MAX_PER_NODE)|
    ensures forall b :: b in node.view.bits ==> b < MAX_PER_NODE
  {
    hide Ascending;
    AscendingCountAll(node.view.bits, MAX_PER_NODE);
  }

  /** Nodes may have listed their slots in the meantime; nothing else has changed. */
  ghost predicate OnlyListed(views: Views, views': Views) {
    views'.Keys == views.Keys && forall id :: id in views ==> views'[id] == views[id].(listed := views'[id].listed)
  }

  lemma ListedStep(a: Views, b: Views, c: Views, id: Id)
    requires OnlyListed(a, b) && OnlyListed(b, c) && id in a
    ensures OnlyListed(a, c) && id in b && id in c && a[id].bits == b[id].bits == c[id].bits
  {}

  /** getOnePosition fills the node's cache; no other node notices. */
  method TouchPosition(t: Trie, node: TrieNode, pos: nat, ghost id: Id) returns (p: nat)
    requires t.Structure() && id in t.nodes && t.nodes[id] == node && t.views[id].accurate && pos < node.elemCount
    modifies node`bitPosition, node`view, node`Repr
    ensures fresh(node.Repr - old(node.Repr)) && t !in node.Repr && node.view == t.views[id].(listed := true)
    ensures Separate(t.nodes, t.Repr + node.Repr)
            && InPlace(t.nodes, t.views[id := node.view], t.depth, t.Repr + node.Repr)
    ensures pos < |Ascending(t.views[id].bits, MAX_PER_NODE)| && p == Ascending(t.views[id].bits, MAX_PER_NODE)[pos]
  {
    hide TrieNode.Valid, TrieNode.Shape, Placed, Ascending, Pow256, Links, Separate, InPlace;
    BeforeListing(t, id);
    node.HasShape();
    p := node.GetOnePosition(pos);
    PlacedIntro(t.nodes, t.depth, id);
    t.OthersInPlace(id);
  }

  /** getOnePosition on a node of the trie. */
  method Position(t: Trie, node: TrieNode, pos: nat, ghost id: Id) returns (p: nat)
    requires Shaped(t) && id in t.nodes && t.nodes[id] == node && pos < node.elemCount
    modifies t`views, t`Repr, node`bitPosition, node`view, node`Repr
    ensures Shaped(t) && fresh(t.Repr - old(t.Repr))
    ensures OnlyListed(old(t.views), t.views)
    ensures pos < |Ascending(t.views[id].bits, MAX_PER_NODE)| && p == Ascending(t.views[id].bits, MAX_PER_NODE)[pos]
  {
    hide TrieNode.Valid, NodeIds, Ascending, KeysFit, InPlace, Separate;
    NodeFacts(t, id);
    p := TouchPosition(t, node, pos, id);
    t.views := t.views[id := node.view];
    t.Repr := t.Repr + node.Repr;
  }

  lemma ReadyIntro(t: Trie)
    requires t.Valid() && AllFresh(t.views)
    ensures Ready(t)
  {
    hide TrieNode.Valid, InPlace, Separate, NodeIds, AllHold, AllFresh, KeysFit;
  }

  lemma ReadyIsShaped(t: Trie)
    requires Ready(t)
    ensures Shaped(t)
  {
    hide Shaped;
  }

  lemma ReadyHolds(t: Trie)
    requires Ready(t)
    ensures AllHold(t.views, t.log, t.depth)
  {
    hide Shaped;
  }

  lemma ReadyAgain(t: Trie, before: Views)
    requires Shaped(t) && OnlyListed(before, t.views) && AllHold(before, t.log, t.depth)
    ensures Ready(t)
  {
    hide Shaped;
    ListingKeeps(before, t.views, t.log, t.depth);
  }

  /** Listing slots does not change the values. */
  lemma ListingKeeps(views: Views, views': Views, log: Log, d: nat)
    requires OnlyListed(views, views') && AllHold(views, log, d)
    ensures AllHold(views', log, d)
  {
    hide ValuesOf;
  }

  lemma BeforeListing(t: Trie, id: Id)
    requires t.Structure() && id in t.nodes
    ensures t.nodes[id].Valid() && t.nodes[id].Repr <= t.Repr && t !in t.nodes[id].Repr
            && t.nodes[id].view == t.views[id]
    ensures id.level < t.depth && id.prefix < Pow256(id.level)
    ensures t.nodes[id].isLeaf <==> id.level == t.depth - 1
    ensures id.level > 0 ==> Id(id.level - 1, id.prefix / 256) in t.nodes
    ensures id.level < t.depth - 1 ==> Links(t.nodes, id, t.nodes[id].view.bits, t.nodes[id].childPtr[..])
  {
    hide TrieNode.Valid;
    t.PlacedFacts(id);
  }

  /** The slots before pos lie below lo, the others do not. */
  ghost predicate StartsAt(slots: seq<nat>, prefixValue: nat, lo: nat, pos: nat) {
    && pos <= |slots|
    && (forall i :: 0 <= i < pos ==> prefixValue + slots[i] < lo)
    && (forall i :: pos <= i < |slots| ==> lo <= prefixValue + slots[i])
  }

  /** The first taken slot from lo on. */
  method FindStart(t: Trie, node: TrieNode, prefixValue: nat, lo: nat, ghost id: Id) returns (pos: nat)
    requires Shaped(t) && id in t.nodes && t.nodes[id] == node
    modifies t`views, t`Repr, node`bitPosition, node`view, node`Repr
    ensures Shaped(t) && fresh(t.Repr - old(t.Repr)) && OnlyListed(old(t.views), t.views)
    ensures node.elemCount == |Ascending(t.views[id].bits, MAX_PER_NODE)|
    ensures StartsAt(Ascending(t.views[id].bits, MAX_PER_NODE), prefixValue, lo, pos)
  {
    hide TrieNode.Valid, Ascending, Shaped;
    KnownSlots(t, id);
    ghost var slots := Ascending(t.views[id].bits, MAX_PER_NODE);
    AscendingIsSortedEnumeration(t.views[id].bits, MAX_PER_NODE);
    pos := 0;
    while pos < node.elemCount
      invariant Shaped(t) && fresh(t.Repr - old(t.Repr)) && OnlyListed(old(t.views), t.views) && pos <= |slots|
      invariant forall i :: 0 <= i < pos ==> prefixValue + slots[i] < lo
    {
      var p := Position(t, node, pos, id);
      if prefixValue + p >= lo {
        break;
      }
      pos := pos + 1;
    }
  }

  lemma KnownSlots(t: Trie, id: Id)
    requires Shaped(t) && id in t.nodes
    ensures id in t.views && t.nodes[id].elemCount == |Ascending(t.views[id].bits, MAX_PER_NODE)|
    ensures t.nodes[id] in t.nodes[id].Repr && t.nodes[id].Repr <= t.Repr && t !in t.Repr
  {
    hide TrieNode.Valid, Ascending;
    NodeFacts(t, id);
  }

  lemma LeafHolds(t: Trie, id: Id)
    requires Ready(t) && id in t.nodes && id.level == t.depth - 1
    ensures id in t.views && t.nodes[id].Valid() && t.nodes[id].isLeaf && t.nodes[id].view == t.views[id]
    ensures Holds(t.views[id], id, t.log)
  {
    hide TrieNode.Valid, ValuesOf, Placed, InPlace, Separate, KeysFit, Pow256, NodeIds, Holds;
    t.ShownBits(id);
    t.LeafFacts(id);
  }

  /** The list in a leaf's slot holds the values logged for its key; an empty slot means that nothing was logged. */
  lemma SlotHolds(t: Trie, id: Id, b: nat)
    requires Ready(t) && id in t.nodes && id.level == t.depth - 1 && b < MAX_PER_NODE
    ensures id in t.views && t.nodes[id].Valid() && t.nodes[id].isLeaf
    ensures b in t.views[id].bits ==> t.nodes[id].resultArray[b] != null && t.nodes[id].resultArray[b].Valid() &&
                                      t.nodes[id].resultArray[b].contents == ValuesOf(t.log, 256 * id.prefix + b)
    ensures b !in t.views[id].bits ==> ValuesOf(t.log, 256 * id.prefix + b) == []
  {
    hide TrieNode.Valid, ValuesOf, LinkList.Valid, Ready, Shaped;
    LeafHolds(t, id);
    LeafLists(t.nodes[id], b);
  }

  /** Nothing is logged for the keys between two neighbouring slots of a leaf. */
  lemma NothingBetween(t: Trie, id: Id, pos: nat, from: nat, to: nat)
    requires Ready(t) && id in t.nodes && id.level == t.depth - 1 && id in t.views
    requires StartsAt(Ascending(t.views[id].bits, MAX_PER_NODE), 256 * id.prefix, from, pos)
    requires 256 * id.prefix <= from && to <= 256 * id.prefix + MAX_PER_NODE
    requires pos < |Ascending(t.views[id].bits, MAX_PER_NODE)| ==>
               to <= 256 * id.prefix + Ascending(t.views[id].bits, MAX_PER_NODE)[pos]
    ensures forall k :: from <= k < to ==> ValuesOf(t.log, k) == []
  {
    hide Ascending, Ready, Shaped, ValuesOf;
    var slots := Ascending(t.views[id].bits, MAX_PER_NODE);
    AscendingIsSortedEnumeration(t.views[id].bits, MAX_PER_NODE);
    forall k: nat | from <= k < to ensures ValuesOf(t.log, k) == [] {
      var b := k - 256 * id.prefix;
      if b in t.views[id].bits {
        assert b in slots;
        var i :| 0 <= i < |slots| && slots[i] == b;
      }
      SlotHolds(t, id, b);
    }
  }

  /** The leaf part of queryFromMem: the lists of the keys in range are merged into the answer, in key order. */
  method CollectLeaf(t: Trie, node: TrieNode, prefixValue: nat, begin: nat, end: nat, ret: seq<Value>, ghost id: Id)
      returns (ret': seq<Value>)
    requires Ready(t) && id in t.nodes && t.nodes[id] == node && id.level == t.depth - 1
             && prefixValue == 256 * id.prefix
    modifies t`views, t`Repr, node`bitPosition, node`view, node`Repr
    ensures Ready(t) && fresh(t.Repr - old(t.Repr)) && OnlyListed(old(t.views), t.views)
    ensures ret' == Absorb(t.log, Max(begin, prefixValue), Min(end + 1, prefixValue + MAX_PER_NODE), ret)
  {
    hide TrieNode.Valid, LinkList.Valid, Ascending, Ready, Shaped, Absorb, AllHold, Merge, ValuesOf, OnlyListed,
         StartsAt;
    ghost var from, to := Max(begin, prefixValue), Min(end + 1, prefixValue + MAX_PER_NODE);
    ReadyIsShaped(t);
    ghost var before := t.views;
    ReadyHolds(t);
    KnownSlots(t, id);
    var pos := FindStart(t, node, prefixValue, begin, id);
    KnownSlots(t, id);
    StartFrom(Ascending(t.views[id].bits, MAX_PER_NODE), prefixValue, begin, pos);
    ghost var bits, cur := t.views[id].bits, from;
    ghost var slots := Ascending(bits, MAX_PER_NODE);
    AscendingIsSortedEnumeration(bits, MAX_PER_NODE);
    ret' := ret;
    AbsorbNone(t.log, from, from, ret);
    while pos < node.elemCount
      invariant Shaped(t) && fresh(t.Repr - old(t.Repr)) && OnlyListed(before, t.views) && node.elemCount == |slots|
      invariant id in t.views && slots == Ascending(t.views[id].bits, MAX_PER_NODE)
      invariant from <= cur && (cur == from || cur <= to) && StartsAt(slots, prefixValue, cur, pos)
      invariant ret' == Absorb(t.log, from, cur, ret)
    {
      ghost var views := t.views;
      var idx := Position(t, node, pos, id);
      ListedStep(before, views, t.views, id);
      if prefixValue + idx > end {
        break;
      }
      ReadyAgain(t, before);
      ret', cur := CollectSlot(t, node, idx, ret', id, pos, from, cur, ret);
      pos := pos + 1;
    }
    ReadyAgain(t, before);
    CollectEnd(t, id, pos, from, cur, to, ret);
  }

  /** Behind the last list in range there are no values in range. */
  lemma CollectEnd(t: Trie, id: Id, pos: nat, from: nat, cur: nat, to: nat, ret: seq<Value>)
    requires Ready(t) && id in t.nodes && id.level == t.depth - 1 && id in t.views && (cur == from || cur <= to)
    requires StartsAt(Ascending(t.views[id].bits, MAX_PER_NODE), 256 * id.prefix, cur, pos)
    requires 256 * id.prefix <= from <= cur && to <= 256 * id.prefix + MAX_PER_NODE
    requires pos < |Ascending(t.views[id].bits, MAX_PER_NODE)| ==>
               to <= 256 * id.prefix + Ascending(t.views[id].bits, MAX_PER_NODE)[pos]
    ensures Absorb(t.log, from, to, ret) == Absorb(t.log, from, cur, ret)
  {
    hide Ready, StartsAt, Ascending, Absorb;
    if cur <= to {
      NothingBetween(t, id, pos, cur, to);
      AbsorbGap(t.log, from, cur, to, ret);
    } else {
      AbsorbNone(t.log, from, cur, ret);
      AbsorbNone(t.log, from, to, ret);
    }
  }

  /** Merges one list of a leaf into the answer. */
  method CollectSlot(t: Trie, node: TrieNode, idx: nat, answer: seq<Value>,
                     ghost id: Id, ghost pos: nat, ghost from: nat, ghost cur: nat, ghost ret: seq<Value>)
      returns (answer': seq<Value>, ghost cur': nat)
    requires Ready(t) && id in t.nodes && t.nodes[id] == node && id.level == t.depth - 1 && id in t.views
    requires pos < |Ascending(t.views[id].bits, MAX_PER_NODE)| && idx == Ascending(t.views[id].bits, MAX_PER_NODE)[pos]
    requires 256 * id.prefix <= from <= cur
             && StartsAt(Ascending(t.views[id].bits, MAX_PER_NODE), 256 * id.prefix, cur, pos)
    requires answer == Absorb(t.log, from, cur, ret)
    ensures cur' == 256 * id.prefix + idx + 1 && idx < MAX_PER_NODE && answer' == Absorb(t.log, from, cur', ret)
    ensures StartsAt(Ascending(t.views[id].bits, MAX_PER_NODE), 256 * id.prefix, cur', pos + 1)
  {
    hide TrieNode.Valid, LinkList.Valid, Ascending, Ready, Shaped, Merge, ValuesOf;
    AscendingIsSortedEnumeration(t.views[id].bits, MAX_PER_NODE);
    assert idx in Ascending(t.views[id].bits, MAX_PER_NODE);
    SlotHolds(t, id, idx);
    NothingBetween(t, id, pos, cur, 256 * id.prefix + idx);
    AbsorbGap(t.log, from, cur, 256 * id.prefix + idx, ret);
    answer' := MergeList(node.resultArray[idx], answer);
    cur' := 256 * id.prefix + idx + 1;
  }

  /** The queue holds the nodes of the level's given prefixes. */
  ghost predicate Enqueued(nodes: map<Id, TrieNode>, level: nat, queue: seq<TrieNode>, prefixes: seq<nat>) {
    |queue| == |prefixes| && forall k :: 0 <= k < |queue| ==>
      Id(level, prefixes[k]) in nodes && queue[k] == nodes[Id(level, prefixes[k])]
  }

  lemma EnqueueOne(nodes: map<Id, TrieNode>, level: nat, queue: seq<TrieNode>, prefixes: seq<nat>, node: TrieNode,
                   p: nat)
    requires Enqueued(nodes, level, queue, prefixes) && Id(level, p) in nodes && node == nodes[Id(level, p)]
    ensures Enqueued(nodes, level, queue + [node], prefixes + [p])
  {}

  /** A taken slot of an inner node leads to the child; an empty slot means that there is none. */
  lemma SlotLeads(t: Trie, id: Id, b: nat)
    requires Shaped(t) && id in t.nodes && id.level < t.depth - 1 && b < MAX_PER_NODE
    ensures id in t.views && t.nodes[id].Valid() && !t.nodes[id].isLeaf
    ensures b in t.views[id].bits <==> Child(id, b) in NodeIds(t.log, t.depth)
    ensures b in t.views[id].bits ==> Child(id, b) in t.nodes && t.nodes[id].childPtr[b] == t.nodes[Child(id, b)]
  {
    hide TrieNode.Valid, Placed, InPlace, Separate, NodeIds, AllFresh, KeysFit;
    t.ShownBits(id);
    t.SlotIsLink(id, b);
  }

  /** There are no nodes between those of two neighbouring slots. */
  lemma NoChildBetween(t: Trie, id: Id, pos: nat, from: nat, to: nat)
    requires Shaped(t) && id in t.nodes && id.level < t.depth - 1 && id in t.views
    requires StartsAt(Ascending(t.views[id].bits, MAX_PER_NODE), 256 * id.prefix, from, pos)
    requires 256 * id.prefix <= from && to <= 256 * id.prefix + MAX_PER_NODE
    requires pos < |Ascending(t.views[id].bits, MAX_PER_NODE)| ==>
               to <= 256 * id.prefix + Ascending(t.views[id].bits, MAX_PER_NODE)[pos]
    ensures NoNodes(NodeIds(t.log, t.depth), id.level + 1, from, to)
  {
    hide Ascending, Shaped, NodeIds;
    var slots, level := Ascending(t.views[id].bits, MAX_PER_NODE), id.level + 1;
    AscendingIsSortedEnumeration(t.views[id].bits, MAX_PER_NODE);
    forall c: nat | from <= c < to ensures Id(level, c) !in NodeIds(t.log, t.depth) {
      var b := c - 256 * id.prefix;
      assert Child(id, b) == Id(level, c);
      if b in t.views[id].bits {
        assert b in slots;
        var i :| 0 <= i < |slots| && slots[i] == b;
      }
      SlotLeads(t, id, b);
    }
  }

  /** The inner part of queryFromMem: the children in range are queued. */
  method Expand(t: Trie, node: TrieNode, prefixValue: nat, prefixBegin: nat, prefixEnd: nat,
                queue: seq<TrieNode>, prefixes: seq<nat>, ghost id: Id)
      returns (queue': seq<TrieNode>, prefixes': seq<nat>)
    requires Shaped(t) && id in t.nodes && t.nodes[id] == node && id.level < t.depth - 1
             && prefixValue == 256 * id.prefix
    requires Enqueued(t.nodes, id.level + 1, queue, prefixes)
    modifies t`views, t`Repr, node`bitPosition, node`view, node`Repr
    ensures Shaped(t) && fresh(t.Repr - old(t.Repr)) && OnlyListed(old(t.views), t.views)
    ensures Enqueued(t.nodes, id.level + 1, queue', prefixes')
    ensures prefixes' == prefixes + LevelPrefixes(NodeIds(t.log, t.depth), id.level + 1,
                                                  Max(prefixBegin, prefixValue),
                                                      Min(prefixEnd + 1, prefixValue + MAX_PER_NODE))
  {
    hide TrieNode.Valid, Ascending, Shaped, LevelPrefixes, NodeIds, Enqueued, OnlyListed, StartsAt;
    ghost var ids, level, before := NodeIds(t.log, t.depth), id.level + 1, t.views;
    ghost var from, to := Max(prefixBegin, prefixValue), Min(prefixEnd + 1, prefixValue + MAX_PER_NODE);
    KnownSlots(t, id);
    var pos := FindStart(t, node, prefixValue, prefixBegin, id);
    KnownSlots(t, id);
    StartFrom(Ascending(t.views[id].bits, MAX_PER_NODE), prefixValue, prefixBegin, pos);
    ghost var cur := from;
    ghost var slots := Ascending(t.views[id].bits, MAX_PER_NODE);
    queue', prefixes' := queue, prefixes;
    LevelNone(ids, level, from, from);
    while pos < node.elemCount
      invariant Shaped(t) && fresh(t.Repr - old(t.Repr)) && OnlyListed(before, t.views) && node.elemCount == |slots|
      invariant id in t.views && slots == Ascending(t.views[id].bits, MAX_PER_NODE)
      invariant from <= cur && (cur == from || cur <= to) && StartsAt(slots, prefixValue, cur, pos)
      invariant Enqueued(t.nodes, level, queue', prefixes')
      invariant prefixes' == prefixes + LevelPrefixes(ids, level, from, cur)
    {
      ghost var views := t.views;
      var idx := Position(t, node, pos, id);
      ListedStep(before, views, t.views, id);
      if prefixValue + idx > prefixEnd {
        break;
      }
      var next := NextChild(t, node, idx, id, pos, from, cur);
      EnqueueOne(t.nodes, level, queue', prefixes', next, prefixValue + idx);
      queue', prefixes' := queue' + [next], prefixes' + [prefixValue + idx];
      cur := prefixValue + idx + 1;
      pos := pos + 1;
    }
    ExpandEnd(t, id, pos, from, cur, to);
  }

  lemma StartFrom(slots: seq<nat>, prefixValue: nat, lo: nat, pos: nat)
    requires StartsAt(slots, prefixValue, lo, pos)
    ensures StartsAt(slots, prefixValue, Max(lo, prefixValue), pos)
  {}

  /** Behind the last child in range there are no nodes in range. */
  lemma ExpandEnd(t: Trie, id: Id, pos: nat, from: nat, cur: nat, to: nat)
    requires Shaped(t) && id in t.nodes && id.level < t.depth - 1 && id in t.views && (cur == from || cur <= to)
    requires StartsAt(Ascending(t.views[id].bits, MAX_PER_NODE), 256 * id.prefix, cur, pos)
    requires 256 * id.prefix <= from <= cur && to <= 256 * id.prefix + MAX_PER_NODE
    requires pos < |Ascending(t.views[id].bits, MAX_PER_NODE)| ==>
               to <= 256 * id.prefix + Ascending(t.views[id].bits, MAX_PER_NODE)[pos]
    ensures LevelPrefixes(NodeIds(t.log, t.depth), id.level + 1, from, to)
            == LevelPrefixes(NodeIds(t.log, t.depth), id.level + 1, from, cur)
  {
    hide Shaped, NodeIds, StartsAt, LevelPrefixes, Ascending;
    if cur <= to {
      NoChildBetween(t, id, pos, cur, to);
      LevelGap(NodeIds(t.log, t.depth), id.level + 1, from, cur, to);
    } else {
      LevelNone(NodeIds(t.log, t.depth), id.level + 1, from, cur);
      LevelNone(NodeIds(t.log, t.depth), id.level + 1, from, to);
    }
  }

  /** The child in a taken slot. It is never null, so the loop over the slots never skips one without advancing. */
  method NextChild(t: Trie, node: TrieNode, idx: nat, ghost id: Id, ghost pos: nat, ghost from: nat, ghost cur: nat)
      returns (next: TrieNode)
    requires Shaped(t) && id in t.nodes && t.nodes[id] == node && id.level < t.depth - 1 && id in t.views
    requires pos < |Ascending(t.views[id].bits, MAX_PER_NODE)| && idx == Ascending(t.views[id].bits, MAX_PER_NODE)[pos]
    requires 256 * id.prefix <= from <= cur
             && StartsAt(Ascending(t.views[id].bits, MAX_PER_NODE), 256 * id.prefix, cur, pos)
    ensures Child(id, idx) in t.nodes && next == t.nodes[Child(id, idx)] && idx < MAX_PER_NODE
    ensures LevelPrefixes(NodeIds(t.log, t.depth), id.level + 1, from, 256 * id.prefix + idx + 1)
            == LevelPrefixes(NodeIds(t.log, t.depth), id.level + 1, from, cur) + [256 * id.prefix + idx]
    ensures StartsAt(Ascending(t.views[id].bits, MAX_PER_NODE), 256 * id.prefix, 256 * id.prefix + idx + 1, pos + 1)
  {
    hide TrieNode.Valid, Ascending, Shaped, NodeIds;
    AscendingIsSortedEnumeration(t.views[id].bits, MAX_PER_NODE);
    assert idx in Ascending(t.views[id].bits, MAX_PER_NODE);
    SlotLeads(t, id, idx);
    NoChildBetween(t, id, pos, cur, 256 * id.prefix + idx);
    LevelGap(NodeIds(t.log, t.depth), id.level + 1, from, cur, 256 * id.prefix + idx);
    next := node.childPtr[idx];
  }

  /** One node of a level: a leaf adds to the answer, an inner node to the next queue. */
  method ProcessNode(t: Trie, node: TrieNode, prefixValue: nat, begin: nat, end: nat, prefixBegin: nat, prefixEnd: nat,
                     queue: seq<TrieNode>, prefixes: seq<nat>, answer: seq<Value>, ghost id: Id, ghost ret: seq<Value>)
      returns (queue': seq<TrieNode>, prefixes': seq<nat>, answer': seq<Value>)
    requires Ready(t) && id in t.nodes && t.nodes[id] == node && id.level < t.depth && prefixValue == 256 * id.prefix
    requires prefixBegin == Prefix(begin, t.depth, id.level + 1) && prefixEnd == Prefix(end, t.depth, id.level + 1)
    requires Enqueued(t.nodes, id.level + 1, queue, prefixes)
    requires Progress(t.log, t.depth, id.level, begin, end, id.prefix, prefixes, answer, ret)
    modifies t`views, t`Repr, t.Repr
    ensures Ready(t) && fresh(t.Repr - old(t.Repr)) && t.nodes == old(t.nodes) && t.log == old(t.log)
    ensures OnlyListed(old(t.views), t.views)
    ensures Enqueued(t.nodes, id.level + 1, queue', prefixes')
    ensures Progress(t.log, t.depth, id.level, begin, end, id.prefix + 1, prefixes', answer', ret)
  {
    hide TrieNode.Valid, Ready, Shaped, Enqueued, Progress, Absorb, LevelPrefixes, NodeIds, Prefix;
    ReadyIsShaped(t);
    ReadyHolds(t);
    KnownSlots(t, id);
    NodeKind(t, id);
    queue', prefixes', answer' := queue, prefixes, answer;
    if node.isLeaf {
      ProgressLeaf(t.log, t.depth, id.level, begin, end, id.prefix, prefixes, answer, ret);
      answer' := CollectLeaf(t, node, prefixValue, begin, end, answer, id);
    } else {
      ProgressInner(t.log, t.depth, id.level, begin, end, id.prefix, prefixes, answer, ret);
      queue', prefixes' := Expand(t, node, prefixValue, prefixBegin, prefixEnd, queue, prefixes, id);
      ReadyAgain(t, old(t.views));
    }
  }

  lemma NodeKind(t: Trie, id: Id)
    requires Shaped(t) && id in t.nodes
    ensures id.level < t.depth && id.prefix < Pow256(id.level)
    ensures t.nodes[id].isLeaf <==> id.level == t.depth - 1
  {
    hide TrieNode.Valid, NodeIds, KeysFit, AllFresh, Trie.Structure;
    BeforeListing(t, id);
  }

  /** One level of queryFromMem: the queue is drained, in ascending prefix order. */
  method ProcessLevel(t: Trie, i: nat, begin: nat, end: nat, queue: seq<TrieNode>, prefixes: seq<nat>, ret: seq<Value>)
      returns (queue': seq<TrieNode>, prefixes': seq<nat>, answer: seq<Value>)
    requires Ready(t) && i < t.depth
    requires Enqueued(t.nodes, i, queue, prefixes) && prefixes == InReach(t.log, t.depth, i, begin, end)
    modifies t`views, t`Repr, t.Repr
    ensures Ready(t) && fresh(t.Repr - old(t.Repr)) && t.nodes == old(t.nodes) && t.log == old(t.log)
    ensures OnlyListed(old(t.views), t.views)
    ensures Enqueued(t.nodes, i + 1, queue', prefixes')
    ensures i < t.depth - 1 ==> prefixes' == InReach(t.log, t.depth, i + 1, begin, end) && answer == ret
    ensures i == t.depth - 1 ==> answer == Absorb(t.log, begin, end + 1, ret)
  {
    hide TrieNode.Valid, Ready, Shaped, Enqueued, Progress, Absorb, LevelPrefixes, NodeIds, Prefix, Pow256, Mod, Div;
    var prefixBegin, prefixEnd := Prefix(begin, t.depth, i + 1), Prefix(end, t.depth, i + 1);
    ghost var ids, c, last := NodeIds(t.log, t.depth), Prefix(begin, t.depth, i), Prefix(end, t.depth, i) + 1;
    var q, ps := queue, prefixes;
    queue', prefixes', answer := [], [], ret;
    EnqueuedNone(t.nodes, i + 1);
    ProgressStart(t.log, t.depth, i, begin, end, ret);
    while q != []
      invariant Ready(t) && fresh(t.Repr - old(t.Repr)) && t.nodes == old(t.nodes) && t.log == old(t.log)
      invariant OnlyListed(old(t.views), t.views)
      invariant Enqueued(t.nodes, i, q, ps) && Enqueued(t.nodes, i + 1, queue', prefixes')
      invariant ps == LevelPrefixes(ids, i, c, last)
      invariant Progress(t.log, t.depth, i, begin, end, c, prefixes', answer, ret)
      decreases |q|
    {
      EnqueuedHead(t.nodes, i, q, ps);
      LevelHead(ids, i, c, last);
      var node, p := q[0], ps[0];
      ReadyIsShaped(t);
      NodeKind(t, Id(i, p));
      ShiftFits(p, i, t.depth);
      ProgressGap(t.log, t.depth, i, begin, end, c, p, prefixes', answer, ret);
      var prefixValue := Mod(p * 256, Pow256(t.depth));
      queue', prefixes', answer := ProcessNode(t, node, prefixValue, begin, end, prefixBegin, prefixEnd,
                                               queue', prefixes', answer, Id(i, p), ret);
      q, ps, c := q[1..], ps[1..], p + 1;
    }
    EnqueuedEmpty(t.nodes, i, q, ps);
    LevelEmpty(ids, i, c, last);
    ProgressEnd(t.log, t.depth, i, begin, end, c, prefixes', answer, ret);
  }

  lemma EnqueuedNone(nodes: map<Id, TrieNode>, level: nat)
    ensures Enqueued(nodes, level, [], [])
  {}

  lemma EnqueuedEmpty(nodes: map<Id, TrieNode>, level: nat, queue: seq<TrieNode>, prefixes: seq<nat>)
    requires Enqueued(nodes, level, queue, prefixes)
    ensures queue == [] <==> prefixes == []
  {}

  lemma EnqueuedHead(nodes: map<Id, TrieNode>, level: nat, queue: seq<TrieNode>, prefixes: seq<nat>)
    requires Enqueued(nodes, level, queue, prefixes) && queue != []
    ensures prefixes != [] && Id(level, prefixes[0]) in nodes && queue[0] == nodes[Id(level, prefixes[0])]
    ensures Enqueued(nodes, level, queue[1..], prefixes[1..])
  {}

  lemma RootQueued(t: Trie, begin: nat, end: nat)
    requires Ready(t) && begin < Pow256(t.depth) && end < Pow256(t.depth)
    ensures t.depth >= 1 && Enqueued(t.nodes, 0, [t.root], [0]) && InReach(t.log, t.depth, 0, begin, end) == [0]
  {
    hide TrieNode.Valid, NodeIds, KeysFit, AllHold, AllFresh, InPlace, Separate, Pow256, InReach;
    StartInReach(t.log, t.depth, begin, end);
  }

  /** queryFromMem: merges the values of the keys in [begin, end] into ret. False means that no leaf is in reach. */
  method QueryFromMem(t: Trie, begin: nat, end: nat, ret: seq<Value>) returns (ok: bool, ret': seq<Value>)
    requires Ready(t) && begin < Pow256(t.depth) && end < Pow256(t.depth)
    modifies t`views, t`Repr, t.Repr
    ensures Ready(t) && fresh(t.Repr - old(t.Repr)) && t.nodes == old(t.nodes) && t.log == old(t.log)
    ensures OnlyListed(old(t.views), t.views)
    ensures ret' == Absorb(t.log, begin, end + 1, ret)
    ensures t.depth >= 1 && (ok <==> InReach(t.log, t.depth, t.depth - 1, begin, end) != [])
  {
    hide TrieNode.Valid, Ready, Shaped, Enqueued, Absorb, LevelPrefixes, NodeIds, Prefix, Pow256, InReach;
    RootQueued(t, begin, end);
    var TQ: seq<seq<TrieNode>>, prefix: seq<seq<nat>> := [[t.root], []], [[0], []];
    ret' := ret;
    var i: nat := 0;
    while i < t.depth
      invariant Ready(t) && fresh(t.Repr - old(t.Repr)) && t.nodes == old(t.nodes) && t.log == old(t.log)
      invariant OnlyListed(old(t.views), t.views)
      invariant i <= t.depth && |TQ| == 2 && |prefix| == 2 && Enqueued(t.nodes, i, TQ[i % 2], prefix[i % 2])
      invariant i < t.depth ==> prefix[i % 2] == InReach(t.log, t.depth, i, begin, end) && ret' == ret
      invariant i > 0 ==> InReach(t.log, t.depth, i - 1, begin, end) != []
      invariant i == t.depth ==> ret' == Absorb(t.log, begin, end + 1, ret)
    {
      var currentQueue := i % 2;
      EnqueuedEmpty(t.nodes, i, TQ[currentQueue], prefix[currentQueue]);
      if TQ[currentQueue] == [] {
        OutOfReach(t.log, t.depth, i, begin, end, ret);
        return false, ret';
      }
      var next, nextPrefix;
      next, nextPrefix, ret' := ProcessLevel(t, i, begin, end, TQ[currentQueue], prefix[currentQueue], ret');
      TQ := TQ[currentQueue := []][1 - currentQueue := next];
      prefix := prefix[currentQueue := []][1 - currentQueue := nextPrefix];
      i := i + 1;
    }
    ok := true;
  }

  /** What a query on an empty vector answers. */
  lemma QueryAnswer(log: Log, d: nat, begin: nat, end: nat)
    requires d >= 1
    ensures multiset(Absorb(log, begin, end + 1, [])) == multiset(InRange(log, begin, end + 1))
    ensures InOrder(log) ==> OffsetSorted(Absorb(log, begin, end + 1, []))
    ensures StrictlyInOrder(log) ==> Absorb(log, begin, end + 1, []) == InRange(log, begin, end + 1)
    ensures InReach(log, d, d - 1, begin, end) == [] ==> InRange(log, begin, end + 1) == []
  {
    hide Absorb, InRange, InOrder, OffsetSorted, StrictlyInOrder, InReach;
    AbsorbMultiset(log, begin, end + 1, []);
    if InOrder(log) {
      SortedNone();
      AbsorbSorted(log, begin, end + 1, []);
    }
    if StrictlyInOrder(log) { AbsorbIsInRange(log, begin, end + 1); }
    if InReach(log, d, d - 1, begin, end) == [] {
      OutOfReach(log, d, d - 1, begin, end, []);
      assert multiset(InRange(log, begin, end + 1)) == multiset([]);
      BagSize(InRange(log, begin, end + 1), []);
    }
  }

  lemma SortedNone()
    ensures OffsetSorted([])
  {}

  lemma UnlistedIsFresh(views: Views)
    requires forall id :: id in views ==> !views[id].listed && views[id].accurate
    ensures AllFresh(views) && NoneListed(views)
  {}

  lemma UnlistedKeepsLists(views: Views, key: nat, d: nat)
    requires NoneListed(views)
    ensures KeepsLists(views, key, d, 0)
  {}

  /** A run of addItem calls on a new trie. */
  method Load(depth: nat, items: Log) returns (t: Trie)
    requires depth >= 1 && KeysFit(items, depth)
    ensures Ready(t) && t.log == items && t.depth == depth && fresh(t) && fresh(t.Repr)
  {
    hide AllFresh, NoneListed, KeepsLists, Trie.Represents, Ready, Pow256;
    t := new Trie(depth);
    UnlistedIsFresh(t.views);
    var n := 0;
    while n < |items|
      invariant 0 <= n <= |items| && t.Valid() && t.log == items[..n]
      invariant AllFresh(t.views) && NoneListed(t.views) && fresh(t) && fresh(t.Repr)
    {
      UnlistedKeepsLists(t.views, items[n].key, t.depth);
      t.AddItem(items[n].key, items[n].value);
      n := n + 1;
    }
    assert items[..n] == items;
    ReadyIntro(t);
  }

  /** Any run of addItem calls followed by a query. */
  method LoadAndQuery(depth: nat, items: Log, begin: nat, end: nat) returns (ok: bool, ret: seq<Value>)
    requires depth >= 1 && KeysFit(items, depth) && begin < Pow256(depth) && end < Pow256(depth)
    ensures multiset(ret) == multiset(InRange(items, begin, end + 1))
    ensures InOrder(items) ==> OffsetSorted(ret)
    ensures InOrder(items) ==> forall o: nat :: WithOffset(ret, o) == LargestFirst(items, begin, end + 1, o)
    ensures StrictlyInOrder(items) ==> ret == InRange(items, begin, end + 1)
    ensures !ok ==> InRange(items, begin, end + 1) == []
  {
    hide Absorb, InRange, InOrder, OffsetSorted, StrictlyInOrder, InReach, KeysFit, Ready, Pow256, WithOffset,
         LargestFirst;
    var t := Load(depth, items);
    ok, ret := QueryFromMem(t, begin, end, []);
    QueryAnswer(items, depth, begin, end);
    if InOrder(items) {
      forall o: nat ensures WithOffset(ret, o) == LargestFirst(items, begin, end + 1, o) {
        AbsorbTies(items, begin, end + 1, o);
      }
    }
  }
}
