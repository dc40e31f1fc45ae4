/** Runs of addItem on an empty B-tree. */
module BTreeRuns {
  import opened BTreeNodes
  import opened BTrees

  datatype Item = Item(key: nat, value: nat)

  /** The values given for one key, in order. */
  function ValuesFor(items: seq<Item>, key: nat): seq<nat> {
    if items == [] then []
    else
      var last := items[|items| - 1];
      ValuesFor(items[..|items| - 1], key) + (if last.key == key then [last.value] else [])
  }

  function KeysOf(items: seq<Item>): set<nat> {
    set item | item in items :: item.key
  }

  /** The list stored for a key. */
  function ListFor(c: Contents, key: nat): seq<nat> {
    if Has(c, key) && |c.keys| == |c.lists| then c.lists[Position(c.keys, key)] else []
  }

  /** With fewer keys than this a root with leaves below it cannot be full and have a full leaf, because no leaf is less
      than half full. */
  const FILL: nat := MAX_KEYS / 2 * (MAX_KEYS - 1) + MAX_KEYS

  // ---- what an insertion does to the lists ----

  lemma InsertAt<T>(xs: seq<T>, pos: nat, x: T, i: nat)
    requires pos <= |xs| && i <= |xs|
    ensures Insert(xs, pos, x)[i] == if i < pos then xs[i] else if i == pos then x else xs[i - 1]
  {}

  lemma PositionOf(keys: seq<nat>, i: nat)
    requires Ascends(keys) && i < |keys|
    ensures Position(keys, keys[i]) == i
  {
    PositionUnique(keys, keys[i], i);
  }

  lemma HasIs(c: Contents, key: nat)
    requires Ascends(c.keys)
    ensures Has(c, key) <==> key in c.keys
  {
    if key in c.keys {
      var i :| 0 <= i < |c.keys| && c.keys[i] == key;
      PositionOf(c.keys, i);
    }
  }

  /** The list of the i-th key. */
  lemma ListAt(c: Contents, i: nat)
    requires Ascends(c.keys) && |c.keys| == |c.lists| && i < |c.keys|
    ensures ListFor(c, c.keys[i]) == c.lists[i]
  {
    PositionOf(c.keys, i);
  }

  lemma AddedKeys(c: Contents, key: nat, value: nat, k: nat)
    requires |c.keys| == |c.lists| && Ascends(c.keys)
    ensures k in AddedTo(c, key, value).keys <==> k in c.keys || k == key
  {
    HasIs(c, key);
    var pos := Position(c.keys, key);
    if !Has(c, key) {
      assert c.keys == c.keys[..pos] + c.keys[pos..];
    }
  }

  /** An insertion appends to the list of its key and leaves every other list alone. */
  lemma AddedMeaning(c: Contents, key: nat, value: nat, k: nat)
    requires |c.keys| == |c.lists| && Ascends(c.keys)
    ensures ListFor(AddedTo(c, key, value), k) == ListFor(c, k) + (if k == key then [value] else [])
  {
    var c', pos := AddedTo(c, key, value), Position(c.keys, key);
    AddedAscends(c, key, value);
    AddedKeys(c, key, value, k);
    HasIs(c, k);
    HasIs(c', k);
    HasIs(c, key);
    hide Position, Ascends;
    if k in c.keys {
      var i :| 0 <= i < |c.keys| && c.keys[i] == k;
      ListAt(c, i);
      ListMoved(c, key, value, i);
    } else if k == key {
      InsertAt(c.keys, pos, key, pos);
      InsertAt(c.lists, pos, [value], pos);
      ListAt(c', pos);
    }
  }

  /** Where the list of the i-th key is afterwards. */
  lemma ListMoved(c: Contents, key: nat, value: nat, i: nat)
    requires |c.keys| == |c.lists| && Ascends(c.keys) && i < |c.keys|
    ensures ListFor(AddedTo(c, key, value), c.keys[i]) == c.lists[i] + (if c.keys[i] == key then [value] else [])
  {
    var c', pos := AddedTo(c, key, value), Position(c.keys, key);
    AddedAscends(c, key, value);
    if Has(c, key) {
      PositionOf(c.keys, i);
      ListAt(c', i);
    } else {
      var j := if i < pos then i else i + 1;
      PositionIs(c.keys, key);
      InsertAt(c.keys, pos, key, j);
      InsertAt(c.lists, pos, [value], j);
      ListAt(c', j);
    }
  }

  // ---- how full the leaves are ----

  /** No leaf below a root is less than half full, and there is one level below the root at most. */
  ghost predicate WellFilled(r: Root) {
    r.Root? && r.t.Inner? ==> r.h == 1 && forall i :: 0 <= i < |r.t.kids| ==>
          |Entries(r.t.kids[i]).keys| >= MAX_KEYS / 2
  }

  lemma {:induction false} KeysAtLeast(kids: seq<Tree>)
    requires forall i :: 0 <= i < |kids| ==> |Entries(kids[i]).keys| >= MAX_KEYS / 2
    ensures |AllEntries(kids).keys| >= MAX_KEYS / 2 * |kids|
  {
    if kids != [] { KeysAtLeast(kids[1..]); }
  }

  lemma KeysWithFullLeaf(kids: seq<Tree>, pos: nat)
    requires forall i :: 0 <= i < |kids| ==> |Entries(kids[i]).keys| >= MAX_KEYS / 2
    requires |kids| == MAX_KEYS && pos < |kids| && |Entries(kids[pos]).keys| == MAX_KEYS
    ensures |AllEntries(kids).keys| >= FILL
  {
    hide Entries, AllEntries;
    var a, b := AllEntries(kids[..pos]), AllEntries(kids[pos + 1..]);
    KeysAtLeast(kids[..pos]);
    KeysAtLeast(kids[pos + 1..]);
    assert kids == kids[..pos] + [kids[pos]] + kids[pos + 1..];
    EntriesAround(kids[..pos], [kids[pos]], kids[pos + 1..]);
    EntriesOfOne(kids[pos]);
    assert |AllEntries(kids).keys| == |a.keys| + MAX_KEYS + |b.keys|;
  }

  /** A stored key is in the child that the descent chooses. */
  lemma KeyInChosen(keys: seq<nat>, kids: seq<Tree>, h: nat, key: nat)
    requires Good(Inner(keys, kids), h) && key in AllEntries(kids).keys
    ensures key in Entries(kids[Descend(keys, key)]).keys
  {
    hide Ascends, Entries, AllEntries, Position;
    var pos := Descend(keys, key);
    Chosen(keys, kids, h, key, pos);
    assert kids == kids[..pos] + [kids[pos]] + kids[pos + 1..];
    EntriesAround(kids[..pos], [kids[pos]], kids[pos + 1..]);
    EntriesOfOne(kids[pos]);
    EntriesOfInner(keys, kids);
    EntriesSized(kids[pos], h - 1);
    var mid := Entries(kids[pos]);
    assert key !in AllEntries(kids[..pos]).keys;
    if pos < |kids| - 1 {
      AddedLast(mid, key, 0);
      if key in AllEntries(kids[pos + 1..]).keys {
        LaterIsMore(AllEntries(kids[..pos]).keys, mid.keys, AllEntries(kids[pos + 1..]).keys, LastKey(mid), key);
      }
    } else {
      assert kids[pos + 1..] == [];
      NoEntries();
    }
  }

  lemma NoEntries()
    ensures AllEntries([]) == NOTHING
  {}

  lemma LaterIsMore(a: seq<nat>, b: seq<nat>, c: seq<nat>, x: nat, y: nat)
    requires Ascends(a + b + c) && x in b && y in c
    ensures x < y
  {
    var i :| 0 <= i < |b| && b[i] == x;
    var j :| 0 <= j < |c| && c[j] == y;
    var s := a + b + c;
    assert s[|a| + i] < s[|a| + |b| + j];
  }

  /** A tree with well filled leaves and few keys takes any key in. */
  lemma FilledHasRoom(r: Root, key: nat)
    requires Sound(r) && WellFilled(r) && (|Stored(r).keys| < FILL || key in Stored(r).keys)
    ensures RootHasRoom(r, key)
  {
    if r.Root? && r.t.Inner? {
      hide Ascends, AllEntries, Position;
      var keys, kids := r.t.keys, r.t.kids;
      var pos := Descend(keys, key);
      Chosen(keys, kids, 1, key, pos);
      var c := kids[pos].c;
      if |c.keys| >= MAX_KEYS && |kids| >= MAX_KEYS {
        KeysWithFullLeaf(kids, pos);
        KeyInChosen(keys, kids, 1, key);
        HasIs(c, key);
      }
    }
  }

  /** Insertions keep the leaves well filled. */
  lemma FilledStays(r: Root, key: nat, value: nat)
    requires Sound(r) && WellFilled(r) && RootHasRoom(r, key)
    ensures AddItem(r, key, value).Done? && WellFilled(AddItem(r, key, value).root)
  {
    AddItemIsRight(r, key, value);
    if r.Root? {
      if r.t.Leaf? { LeafStaysFilled(r, key, value); } else { InnerStaysFilled(r, key, value); }
    }
  }

  lemma LeafStaysFilled(r: Root, key: nat, value: nat)
    requires Sound(r) && r.Root? && r.t.Leaf? && AddItem(r, key, value).Done?
    ensures WellFilled(AddItem(r, key, value).root)
  {
    hide AddedTo, Position, Ascends;
    if !Has(r.t.c, key) && |r.t.c.keys| == MAX_KEYS { HalvesFilled(r.t.c, key, value); }
  }

  lemma InnerStaysFilled(r: Root, key: nat, value: nat)
    requires Sound(r) && WellFilled(r) && r.Root? && r.t.Inner? && AddItem(r, key, value).Done?
    ensures WellFilled(AddItem(r, key, value).root)
  {
    hide AddedTo, Ascends, Position, Insert, AllEntries, SmallHalf, LargeHalf;
    var pos, kids := Descend(r.t.keys, key), r.t.kids;
    Chosen(r.t.keys, kids, 1, key, pos);
    var c := kids[pos].c;
    if Has(c, key) || |c.keys| < MAX_KEYS {
      AddedSize(c, key, value);
      assert Add(kids[pos], 0, key, value) == One(Leaf(AddedTo(c, key, value)));
      assert AddItem(r, key, value).root.t.kids == kids[pos := Leaf(AddedTo(c, key, value))];
    } else {
      HalvesFilled(c, key, value);
      var mid, small, large := c.keys[MAX_KEYS / 2 - 1], Leaf(SmallHalf(c, key, value)), Leaf(LargeHalf(c, key, value));
      assert Add(kids[pos], 0, key, value) == Two(mid, small, large);
      assert AddItem(r, key, value).root.t.kids
             == Insert(kids[pos := large], Position(Raised(r.t.keys, key), mid), small);
      InsertedFilled(kids[pos := large], Position(Raised(r.t.keys, key), mid), small);
    }
  }

  lemma InsertedFilled(kids: seq<Tree>, pos: nat, kid: Tree)
    requires pos <= |kids| && |Entries(kid).keys| >= MAX_KEYS / 2
    requires forall i :: 0 <= i < |kids| ==> |Entries(kids[i]).keys| >= MAX_KEYS / 2
    ensures forall i :: 0 <= i < |Insert(kids, pos, kid)| ==> |Entries(Insert(kids, pos, kid)[i]).keys| >= MAX_KEYS / 2
  {
    hide Entries;
  }

  lemma AddedSize(c: Contents, key: nat, value: nat)
    requires |c.keys| == |c.lists|
    ensures |AddedTo(c, key, value).keys| >= |c.keys|
  {}

  lemma HalvesFilled(c: Contents, key: nat, value: nat)
    requires |c.keys| == |c.lists| == MAX_KEYS
    ensures |SmallHalf(c, key, value).keys| >= MAX_KEYS / 2 && |LargeHalf(c, key, value).keys| >= MAX_KEYS / 2
  {
    AddedSize(LowPart(c), key, value);
    AddedSize(HighPart(c), key, value);
  }

  // ---- runs ----

  function Members(keys: seq<nat>): set<nat> {
    set k | k in keys
  }

  lemma {:induction false} AscendingDistinct(keys: seq<nat>)
    requires Ascends(keys)
    ensures |Members(keys)| == |keys|
  {
    if keys != [] {
      var init, last := keys[..|keys| - 1], keys[|keys| - 1];
      InitAscends(keys);
      hide Ascends, Members;
      AscendingDistinct(init);
      MembersSnoc(init, last);
      assert init + [last] == keys;
    }
  }

  lemma MembersSnoc(keys: seq<nat>, last: nat)
    ensures Members(keys + [last]) == Members(keys) + {last}
  {}

  lemma InitAscends(keys: seq<nat>)
    requires Ascends(keys) && keys != []
    ensures Ascends(keys[..|keys| - 1]) && keys[|keys| - 1] !in Members(keys[..|keys| - 1])
  {}

  /** The tree stores what the items say. */
  ghost predicate Shows(r: Root, items: seq<Item>) {
    && (forall k :: k in Stored(r).keys <==> k in KeysOf(items))
    && forall k :: ListFor(Stored(r), k) == ValuesFor(items, k)
  }

  lemma ShowsSnoc(r: Root, r': Root, items: seq<Item>, item: Item)
    requires Sound(r) && Shows(r, items) && Stored(r') == AddedTo(Stored(r), item.key, item.value)
    ensures Shows(r', items + [item])
  {
    hide ListFor, AddedTo, Ascends;
    StoredFine(r);
    forall k ensures k in Stored(r').keys <==> k in KeysOf(items + [item]) {
      AddedKeys(Stored(r), item.key, item.value, k);
      KeysOfSnoc(items, item, k);
    }
    forall k ensures ListFor(Stored(r'), k) == ValuesFor(items + [item], k) {
      AddedMeaning(Stored(r), item.key, item.value, k);
      assert (items + [item])[..|items|] == items;
    }
  }

  lemma KeysOfSnoc(items: seq<Item>, item: Item, k: nat)
    ensures k in KeysOf(items + [item]) <==> k in KeysOf(items) || k == item.key
  {
    if k in KeysOf(items) {
      var i :| i in items && i.key == k;
      assert i in items + [item];
    }
    assert item in items + [item];
  }

  lemma StoredFine(r: Root)
    requires Sound(r)
    ensures |Stored(r).keys| == |Stored(r).lists| && Ascends(Stored(r).keys)
  {
    hide Ascends, Entries;
    if r.Root? { EntriesSized(r.t, r.h); } else { NothingAscends(); }
  }

  lemma NothingAscends()
    ensures Ascends(NOTHING.keys)
  {}

  /** As long as the items have no more than FILL keys, the tree has room for the next one. */
  lemma NextFits(r: Root, items: seq<Item>, n: nat)
    requires n < |items| && |KeysOf(items)| <= FILL && Sound(r) && WellFilled(r) && Shows(r, items[..n])
    ensures RootHasRoom(r, items[n].key)
  {
    hide Ascends, WellFilled, ListFor;
    StoredFine(r);
    AscendingDistinct(Stored(r).keys);
    var stored, key := Members(Stored(r).keys), items[n].key;
    if key !in stored {
      forall k | k in stored + {key} ensures k in KeysOf(items) {
        if k in KeysOf(items[..n]) {
          var item :| item in items[..n] && item.key == k;
          assert item in items;
        }
      }
      SubsetSize(stored + {key}, KeysOf(items));
      assert |stored + {key}| == |stored| + 1;
    }
    FilledHasRoom(r, items[n].key);
  }

  lemma {:induction false} SubsetSize<T>(a: set<T>, b: set<T>)
    requires a <= b
    ensures |a| <= |b|
  {
    if a != {} {
      var x :| x in a;
      SubsetSize(a - {x}, b - {x});
    }
  }

  /** Any run of addItem calls with no more than 8256 keys goes through, and leaves a B-tree that has exactly these
      keys, each with its values in order. */
  method AddAll(items: seq<Item>) returns (r: Root)
    requires |KeysOf(items)| <= FILL
    ensures Sound(r) && forall k :: ListFor(Stored(r), k) == ValuesFor(items, k)
    ensures forall k :: k in Stored(r).keys <==> k in KeysOf(items)
  {
    hide Sound, WellFilled, KeysOf, ListFor, Stored;
    r := NoRoot;
    var n := 0;
    NothingShown();
    assert items[..0] == [];
    while n < |items|
      invariant 0 <= n <= |items| && Sound(r) && WellFilled(r) && Shows(r, items[..n])
    {
      var item := items[n];
      NextFits(r, items, n);
      AddItemIsRight(r, item.key, item.value);
      FilledStays(r, item.key, item.value);
      SoundIsShaped(r);
      ShowsSnoc(r, AddItem(r, item.key, item.value).root, items[..n], item);
      assert items[..n + 1] == items[..n] + [item];
      r := AddItem(r, item.key, item.value).root;
      n := n + 1;
    }
    assert items[..n] == items;
  }

  lemma SoundIsShaped(r: Root)
    requires Sound(r)
    ensures r.Root? ==> Shaped(r.t, r.h)
  {}

  lemma NothingShown()
    ensures Sound(NoRoot) && WellFilled(NoRoot) && Shows(NoRoot, [])
  {}

  // ---- the bound is sharp ----

  /** The tree after n ascending keys: every leaf but the last has been split off with half the keys. */
  ghost predicate Ladder(r: Root, n: nat) {
    && (forall k :: k in Stored(r).keys ==> k < n)
    && (n == 0 <==> r.NoRoot?)
    && (r.Root? && r.t.Leaf? ==> |r.t.c.keys| == n)
    && (r.Root? && r.t.Inner? ==> r.h == 1 && Rungs(r.t.kids, n))
  }

  ghost predicate Rungs(kids: seq<Tree>, n: nat) {
    && kids != []
    && (forall i :: 0 <= i < |kids| - 1 ==> |Entries(kids[i]).keys| == MAX_KEYS / 2)
    && |Entries(kids[|kids| - 1]).keys| + MAX_KEYS / 2 * (|kids| - 1) == n
  }

  /** The next key is larger than all keys of the tree, so it goes to the last leaf. */
  lemma LastChosen(keys: seq<nat>, kids: seq<Tree>, n: nat)
    requires Good(Inner(keys, kids), 1) && forall k :: k in AllEntries(kids).keys ==> k < n
    ensures Descend(keys, n) == |kids| - 1
    ensures kids[|kids| - 1].Leaf? && Fine(kids[|kids| - 1].c) && !Has(kids[|kids| - 1].c, n)
  {
    hide Ascends, AllEntries, Position;
    forall i | 0 <= i < |keys| ensures keys[i] < n {
      EntriesSized(kids[i], 0);
      LastKeyIsThere(kids, i);
    }
    PositionFirst(keys, n);
    Chosen(keys, kids, 1, n, |kids| - 1);
    var c := kids[|kids| - 1].c;
    FineAscends(c);
    HasIs(c, n);
    if Has(c, n) { KidIncluded(kids, |kids| - 1, n); }
  }

  lemma KidIncluded(kids: seq<Tree>, i: nat, key: nat)
    requires i < |kids| && key in Entries(kids[i]).keys
    ensures key in AllEntries(kids).keys
  {
    hide Entries, AllEntries;
    assert kids == kids[..i] + [kids[i]] + kids[i + 1..];
    EntriesAround(kids[..i], [kids[i]], kids[i + 1..]);
    EntriesOfOne(kids[i]);
  }

  lemma AddedOne(c: Contents, key: nat, value: nat)
    requires |c.keys| == |c.lists| && !Has(c, key)
    ensures |AddedTo(c, key, value).keys| == |c.keys| + 1
  {}

  /** The halves of a full leaf that a larger key splits. */
  lemma HalvesOfLast(c: Contents, n: nat, value: nat)
    requires Fine(c) && |c.keys| == MAX_KEYS && forall k :: k in c.keys ==> k < n
    ensures |SmallHalf(c, n, value).keys| == MAX_KEYS / 2 && |LargeHalf(c, n, value).keys| == MAX_KEYS / 2 + 1
  {
    hide AddedTo, Ascends;
    assert c.keys[MAX_KEYS / 2 - 1] in c.keys;
    LowIsFine(c);
    FineAscends(HighPart(c));
    HasIs(HighPart(c), n);
    assert forall k :: k in HighPart(c).keys ==> k in c.keys;
    AddedOne(HighPart(c), n, value);
  }

  /** The tree stays a ladder while there is room. */
  lemma LadderStep(r: Root, n: nat, value: nat)
    requires Sound(r) && Ladder(r, n) && RootHasRoom(r, n)
    ensures AddItem(r, n, value).Done? && Ladder(AddItem(r, n, value).root, n + 1)
  {
    hide Ascends, AddedTo, Position, SmallHalf, LargeHalf, Rungs;
    AddItemIsRight(r, n, value);
    StoredFine(r);
    forall k ensures k in AddedTo(Stored(r), n, value).keys <==> k in Stored(r).keys || k == n {
      AddedKeys(Stored(r), n, value, k);
    }
    if r.NoRoot? {
      FirstItem(n, value);
    } else if r.t.Leaf? {
      HasIs(r.t.c, n);
      if n < MAX_KEYS { AddedOne(r.t.c, n, value); } else { RootSplits(r.t.c, n, value); }
    } else {
      LadderGrows(r.t.keys, r.t.kids, n, value);
    }
  }

  lemma RootSplits(c: Contents, n: nat, value: nat)
    requires Fine(c) && |c.keys| == MAX_KEYS == n && forall k :: k in c.keys ==> k < n
    ensures Rungs([Leaf(SmallHalf(c, n, value)), Leaf(LargeHalf(c, n, value))], n + 1)
  {
    hide SmallHalf, LargeHalf, Fine;
    HalvesOfLast(c, n, value);
  }

  lemma LadderGrows(keys: seq<nat>, kids: seq<Tree>, n: nat, value: nat)
    requires Good(Inner(keys, kids), 1) && Rungs(kids, n) && (forall k :: k in AllEntries(kids).keys ==> k < n)
    requires Add(Inner(keys, kids), 1, n, value).One?
    ensures Add(Inner(keys, kids), 1, n, value).t.Inner? && Rungs(Add(Inner(keys, kids), 1, n, value).t.kids, n + 1)
  {
    hide Ascends, AddedTo, Position, SmallHalf, LargeHalf, AllEntries, Insert, Rungs;
    LastChosen(keys, kids, n);
    var pos := |kids| - 1;
    var c := kids[pos].c;
    if |c.keys| < MAX_KEYS {
      AddedOne(c, n, value);
      RungsGrow(kids, n, Leaf(AddedTo(c, n, value)));
      assert Add(kids[pos], 0, n, value) == One(Leaf(AddedTo(c, n, value)));
      assert Add(Inner(keys, kids), 1, n, value).t.kids == kids[pos := Leaf(AddedTo(c, n, value))];
    } else {
      forall k | k in c.keys ensures k < n { KidIncluded(kids, pos, k); }
      HalvesOfLast(c, n, value);
      var mid, small, large := c.keys[MAX_KEYS / 2 - 1], Leaf(SmallHalf(c, n, value)), Leaf(LargeHalf(c, n, value));
      assert Add(kids[pos], 0, n, value) == Two(mid, small, large);
      MidPosition(keys, kids, 1, n, value, mid);
      assert Add(Inner(keys, kids), 1, n, value).t.kids == Insert(kids[pos := large], pos, small);
      SplitOff(kids, small, large);
      RungsSplit(kids, n, small, large);
    }
  }

  lemma RungsGrow(kids: seq<Tree>, n: nat, kid: Tree)
    requires Rungs(kids, n) && |Entries(kid).keys| == |Entries(kids[|kids| - 1]).keys| + 1
    ensures Rungs(kids[|kids| - 1 := kid], n + 1)
  {
    hide Entries;
  }

  lemma RungsSplit(kids: seq<Tree>, n: nat, small: Tree, large: Tree)
    requires Rungs(kids, n) && |Entries(kids[|kids| - 1]).keys| == MAX_KEYS
    requires |Entries(small).keys| == MAX_KEYS / 2 && |Entries(large).keys| == MAX_KEYS / 2 + 1
    ensures Rungs(kids[..|kids| - 1] + [small, large], n + 1)
  {
    hide Entries;
  }

  lemma RungsFull(kids: seq<Tree>)
    requires Rungs(kids, FILL) && |kids| <= MAX_KEYS && |Entries(kids[|kids| - 1]).keys| <= MAX_KEYS
    ensures |kids| == MAX_KEYS && |Entries(kids[|kids| - 1]).keys| == MAX_KEYS
  {
    hide Entries;
  }

  lemma SplitOff(kids: seq<Tree>, small: Tree, large: Tree)
    requires kids != []
    ensures Insert(kids[|kids| - 1 := large], |kids| - 1, small) == kids[..|kids| - 1] + [small, large]
  {}

  /** With as many ascending keys as ever fit, root and last leaf are full. */
  lemma LadderFull(r: Root)
    requires Sound(r) && Ladder(r, FILL)
    ensures !RootHasRoom(r, FILL)
  {
    hide Ascends, Position, AllEntries, Rungs;
    if r.t.Inner? {
      LastChosen(r.t.keys, r.t.kids, FILL);
      RungsFull(r.t.kids);
    }
  }

  /** No more than 8256 keys are guaranteed to fit: after as many ascending ones the next is refused. */
  method AddAscending(value: nat) returns (r: Root)
    ensures Sound(r) && (forall k :: k in Stored(r).keys <==> 0 <= k < FILL)
    ensures AddItem(r, FILL, value) == Overfull
  {
    hide Sound, WellFilled, Ladder, Stored;
    r := NoRoot;
    NothingShown();
    NoRungs();
    var n := 0;
    while n < FILL
      invariant 0 <= n <= FILL && Sound(r) && WellFilled(r) && Ladder(r, n)
      invariant forall k :: k in Stored(r).keys <==> 0 <= k < n
    {
      KeysBelow(r, n);
      FilledHasRoom(r, n);
      AddItemIsRight(r, n, value);
      FilledStays(r, n, value);
      LadderStep(r, n, value);
      SoundIsShaped(r);
      StoredFine(r);
      forall k ensures k in AddedTo(Stored(r), n, value).keys <==> k in Stored(r).keys || k == n {
        AddedKeys(Stored(r), n, value, k);
      }
      r := AddItem(r, n, value).root;
      n := n + 1;
    }
    LadderFull(r);
    AddItemIsRight(r, FILL, value);
    SoundIsShaped(r);
  }

  lemma NoRungs()
    ensures Ladder(NoRoot, 0) && Stored(NoRoot).keys == []
  {}

  /** A tree whose keys are those below n has n of them. */
  lemma KeysBelow(r: Root, n: nat)
    requires Sound(r) && forall k :: k in Stored(r).keys ==> 0 <= k < n
    ensures |Stored(r).keys| <= n
  {
    hide Ascends;
    StoredFine(r);
    AscendingBelow(Stored(r).keys, n);
  }

  lemma {:induction false} AscendingBelow(keys: seq<nat>, n: nat)
    requires Ascends(keys) && forall k :: k in keys ==> k < n
    ensures |keys| <= n
    decreases n
  {
    if keys != [] {
      var init, last := keys[..|keys| - 1], keys[|keys| - 1];
      assert last in keys;
      InitAscends(keys);
      forall k | k in init ensures k < last {
        var i :| 0 <= i < |init| && init[i] == k;
        assert keys[i] < last;
      }
      AscendingBelow(init, last);
    }
  }
}
