/** Inserting into the B-tree as long as no inner node has to be split. */
module BTrees {
  import opened BTreeNodes

  /** The nodes of the tree. The keys of an inner node are the largest keys below its children. */
  datatype Tree = Leaf(c: Contents) | Inner(keys: seq<nat>, kids: seq<Tree>)

  function Cat(a: Contents, b: Contents): Contents {
    Contents(a.keys + b.keys, a.lists + b.lists)
  }

  const NOTHING: Contents := Contents([], [])

  /** What a tree stores, in key order. */
  function Entries(t: Tree): Contents
    decreases t
  {
    match t
    case Leaf(c) => c
    case Inner(_, kids) => AllEntries(kids)
  }

  function AllEntries(kids: seq<Tree>): Contents
    decreases kids
  {
    if kids == [] then NOTHING else Cat(Entries(kids[0]), AllEntries(kids[1..]))
  }

  function LastKey(c: Contents): nat {
    if c.keys == [] then 0 else c.keys[|c.keys| - 1]
  }

  /** All leaves are h levels down, no node is empty or too large, and every inner key is the largest below it. */
  ghost predicate Shaped(t: Tree, h: nat)
    decreases t
  {
    match t
    case Leaf(c) => h == 0 && Fine(c) && c.keys != []
    case Inner(keys, kids) =>
      && h > 0 && 0 < |keys| == |kids| <= MAX_KEYS
      && (forall i :: 0 <= i < |kids| ==> Shaped(kids[i], h - 1))
      && (forall i :: 0 <= i < |kids| ==> keys[i] == LastKey(Entries(kids[i])))
  }

  /** A B-tree: in shape, with all keys strictly ascending. */
  ghost predicate Good(t: Tree, h: nat) {
    Shaped(t, h) && Ascends(Entries(t).keys)
  }

  datatype Outcome = One(t: Tree) | Two(mid: nat, small: Tree, large: Tree) | NoRoom

  /** Where the descent goes, and the keys it leaves behind. */
  function Descend(keys: seq<nat>, key: nat): nat
    requires keys != []
  {
    if Position(keys, key) == |keys| then |keys| - 1 else Position(keys, key)
  }

  function Raised(keys: seq<nat>, key: nat): seq<nat>
    requires keys != []
  {
    if Position(keys, key) == |keys| then keys[|keys| - 1 := key] else keys
  }

  /** addItem below a node: the node with the new entry, or a split leaf for the parent to take in, with the key that
      the parent gives the smaller half. NoRoom means that the parent of a split leaf is full itself, so that an inner
      node would have to be split. */
  function Add(t: Tree, h: nat, key: nat, value: nat): Outcome
    requires Shaped(t, h)
    decreases t
  {
    match t
    case Leaf(c) =>
      if Has(c, key) || |c.keys| < MAX_KEYS then One(Leaf(AddedTo(c, key, value)))
      else Two(c.keys[MAX_KEYS / 2 - 1], Leaf(SmallHalf(c, key, value)), Leaf(LargeHalf(c, key, value)))
    case Inner(keys, kids) =>
      var pos, keys' := Descend(keys, key), Raised(keys, key);
      match Add(kids[pos], h - 1, key, value)
      case One(kid) => One(Inner(keys', kids[pos := kid]))
      case Two(mid, small, large) =>
        if |kids| == MAX_KEYS then NoRoom
        else
          var q := Position(keys', mid);
          One(Inner(Insert(keys', q, mid), Insert(kids[pos := large], q, small)))
      case NoRoom => NoRoom
  }

  /** The tree of a BTree object, which has no root before the first addItem. */
  datatype Root = NoRoot | Root(t: Tree, h: nat)

  /** What a whole addItem gives. */
  datatype Inserted = Done(root: Root) | Overfull

  /** addItem: the first item makes a root leaf, and a root leaf that splits gets a new root above its halves. Overfull
      means that an inner node would have to be split. */
  function AddItem(r: Root, key: nat, value: nat): Inserted
    requires r.Root? ==> Shaped(r.t, r.h)
  {
    if r.NoRoot? then Done(Root(Leaf(AddedTo(NOTHING, key, value)), 0))
    else
      match Add(r.t, r.h, key, value)
      case One(t') => Done(Root(t', r.h))
      case Two(_, small, large) => Done(Root(Inner([LastKey(Entries(small)), LastKey(Entries(large))], [small, large]),
                                             r.h + 1))
      case NoRoom => Overfull
  }

  /** The leaf that the descent reaches takes the key in, or the node above it takes in both halves of the leaf. A leaf
      that is the root has a new root made for its halves. */
  predicate HasRoom(t: Tree, key: nat)
    decreases t
  {
    match t
    case Leaf(_) => true
    case Inner(keys, kids) =>
      0 < |keys| == |kids| &&
      match kids[Descend(keys, key)]
      case Leaf(c) => Has(c, key) || |c.keys| < MAX_KEYS || |kids| < MAX_KEYS
      case Inner(_, _) => HasRoom(kids[Descend(keys, key)], key)
  }

  predicate RootHasRoom(r: Root, key: nat) {
    r.Root? ==> HasRoom(r.t, key)
  }

  ghost predicate Sound(r: Root) {
    r.Root? ==> Good(r.t, r.h)
  }

  function Stored(r: Root): Contents {
    if r.NoRoot? then NOTHING else Entries(r.t)
  }

  // ---- entries of a concatenation ----

  lemma {:induction false} EntriesSized(t: Tree, h: nat)
    requires Shaped(t, h)
    ensures |Entries(t).keys| == |Entries(t).lists| > 0
    decreases t
  {
    if t.Inner? {
      forall i | 0 <= i < |t.kids|
        ensures |Entries(t.kids[i]).keys| == |Entries(t.kids[i]).lists| > 0 { EntriesSized(t.kids[i], h - 1); }
      AllSized(t.kids);
    }
  }

  lemma {:induction false} AllSized(kids: seq<Tree>)
    requires forall i :: 0 <= i < |kids| ==> |Entries(kids[i]).keys| == |Entries(kids[i]).lists| > 0
    ensures |AllEntries(kids).keys| == |AllEntries(kids).lists| && (kids != [] ==> |AllEntries(kids).keys| > 0)
  {
    if kids != [] { AllSized(kids[1..]); }
  }

  lemma CatAssoc(a: Contents, b: Contents, c: Contents)
    ensures Cat(a, Cat(b, c)) == Cat(Cat(a, b), c) && Cat(NOTHING, a) == a && Cat(a, NOTHING) == a
  {
    assert a.keys + (b.keys + c.keys) == a.keys + b.keys + c.keys;
    assert a.lists + (b.lists + c.lists) == a.lists + b.lists + c.lists;
  }

  lemma EntriesCons(kid: Tree, rest: seq<Tree>)
    ensures AllEntries([kid] + rest) == Cat(Entries(kid), AllEntries(rest))
  {
    assert ([kid] + rest)[1..] == rest;
  }

  lemma {:induction false} EntriesSplit(a: seq<Tree>, b: seq<Tree>)
    ensures AllEntries(a + b) == Cat(AllEntries(a), AllEntries(b))
  {
    hide Cat, Entries;
    if a == [] {
      assert a + b == b;
      CatAssoc(AllEntries(b), NOTHING, NOTHING);
    } else {
      EntriesSplit(a[1..], b);
      assert a + b == [a[0]] + (a[1..] + b);
      EntriesCons(a[0], a[1..] + b);
      CatAssoc(Entries(a[0]), AllEntries(a[1..]), AllEntries(b));
    }
  }

  /** The entries before, in and behind the children in the middle. */
  lemma EntriesAround(a: seq<Tree>, mid: seq<Tree>, b: seq<Tree>)
    ensures AllEntries(a + mid + b) == Cat(Cat(AllEntries(a), AllEntries(mid)), AllEntries(b))
  {
    EntriesSplit(a + mid, b);
    EntriesSplit(a, mid);
  }

  lemma EntriesOfOne(kid: Tree)
    ensures AllEntries([kid]) == Entries(kid)
  {
    assert [kid] + [] == [kid];
    EntriesCons(kid, []);
    CatAssoc(Entries(kid), NOTHING, NOTHING);
  }

  lemma EntriesOfTwo(x: Tree, y: Tree)
    ensures AllEntries([x, y]) == Cat(Entries(x), Entries(y))
  {
    assert [x] + [y] == [x, y];
    EntriesCons(x, [y]);
    EntriesOfOne(y);
  }

  ghost predicate Below(keys: seq<nat>, key: nat) {
    forall i :: 0 <= i < |keys| ==> keys[i] < key
  }

  lemma {:induction false} PositionPast(a: seq<nat>, b: seq<nat>, key: nat)
    requires Below(a, key)
    ensures Position(a + b, key) == |a| + Position(b, key)
  {
    if a == [] {
      assert a + b == b;
    } else {
      PositionPast(a[1..], b, key);
      assert (a + b)[1..] == a[1..] + b;
    }
  }

  lemma {:induction false} PositionBefore(b: seq<nat>, c: seq<nat>, key: nat)
    requires Position(b, key) < |b| || c == []
    ensures Position(b + c, key) == Position(b, key)
  {
    if c == [] {
      assert b + c == b;
    } else if b[0] < key {
      PositionBefore(b[1..], c, key);
      assert (b + c)[1..] == b[1..] + c;
    }
  }

  lemma InsertInside<T>(a: seq<T>, b: seq<T>, c: seq<T>, pos: nat, x: T)
    requires pos <= |b|
    ensures Insert(a + b + c, |a| + pos, x) == a + Insert(b, pos, x) + c
  {
    assert (a + b + c)[..|a| + pos] == a + b[..pos];
    assert (a + b + c)[|a| + pos..] == b[pos..] + c;
  }

  lemma UpdateInside<T>(a: seq<T>, b: seq<T>, c: seq<T>, pos: nat, x: T)
    requires pos < |b|
    ensures (a + b + c)[|a| + pos] == b[pos] && (a + b + c)[|a| + pos := x] == a + b[pos := x] + c
  {}

  lemma PositionInside(a: seq<nat>, b: seq<nat>, c: seq<nat>, key: nat)
    requires Below(a, key) && (Position(b, key) < |b| || c == [])
    ensures Position(a + b + c, key) == |a| + Position(b, key)
  {
    assert a + b + c == a + (b + c);
    PositionPast(a, b + c, key);
    PositionBefore(b, c, key);
  }

  /** Adding to the middle part is adding to the whole, if the key belongs there. */
  lemma AddedInside(a: Contents, b: Contents, c: Contents, key: nat, value: nat)
    requires |a.keys| == |a.lists| && |b.keys| == |b.lists| && |c.keys| == |c.lists|
    requires Below(a.keys, key) && (Position(b.keys, key) < |b.keys| || c.keys == [])
    ensures AddedTo(Cat(Cat(a, b), c), key, value) == Cat(Cat(a, AddedTo(b, key, value)), c)
  {
    hide Position, Below, Insert;
    var pos := Position(b.keys, key);
    PositionInside(a.keys, b.keys, c.keys, key);
    if pos < |b.keys| {
      UpdateInside(a.keys, b.keys, c.keys, pos, key);
      UpdateInside(a.lists, b.lists, c.lists, pos, b.lists[pos] + [value]);
      if b.keys[pos] != key {
        InsertInside(a.keys, b.keys, c.keys, pos, key);
        InsertInside(a.lists, b.lists, c.lists, pos, [value]);
      }
    } else {
      InsertInside(a.keys, b.keys, c.keys, pos, key);
      InsertInside(a.lists, b.lists, c.lists, pos, [value]);
      assert c.keys == [] && c.lists == [];
    }
  }

  // ---- the insertion ----

  lemma {:induction false} PositionFirst(keys: seq<nat>, key: nat)
    ensures forall i :: 0 <= i < Position(keys, key) ==> keys[i] < key
    ensures Position(keys, key) < |keys| ==> key <= keys[Position(keys, key)]
  {
    if keys != [] && keys[0] < key { PositionFirst(keys[1..], key); }
  }

  lemma AddedAscends(c: Contents, key: nat, value: nat)
    requires |c.keys| == |c.lists| && Ascends(c.keys)
    ensures Ascends(AddedTo(c, key, value).keys)
  {
    PositionIs(c.keys, key);
  }

  /** The largest key after an insertion. */
  lemma AddedLast(c: Contents, key: nat, value: nat)
    requires |c.keys| == |c.lists| > 0 && Ascends(c.keys)
    ensures LastKey(AddedTo(c, key, value)) == if key <= LastKey(c) then LastKey(c) else key
    ensures Position(c.keys, key) < |c.keys| <==> key <= LastKey(c)
  {
    PositionIs(c.keys, key);
  }

  lemma PartAscends(a: seq<nat>, b: seq<nat>, c: seq<nat>)
    requires Ascends(a + b + c)
    ensures Ascends(a) && Ascends(b) && Ascends(c)
  {
    var s := a + b + c;
    forall i, j | 0 <= i < j < |a| ensures a[i] < a[j] { assert s[i] < s[j]; }
    forall i, j | 0 <= i < j < |b| ensures b[i] < b[j] { assert s[|a| + i] < s[|a| + j]; }
    forall i, j | 0 <= i < j < |c| ensures c[i] < c[j] { assert s[|a| + |b| + i] < s[|a| + |b| + j]; }
  }

  lemma KidAscends(kids: seq<Tree>, i: nat)
    requires i < |kids| && Ascends(AllEntries(kids).keys)
    ensures Ascends(Entries(kids[i]).keys)
  {
    hide Ascends, Entries, AllEntries;
    assert kids == kids[..i] + [kids[i]] + kids[i + 1..];
    EntriesAround(kids[..i], [kids[i]], kids[i + 1..]);
    EntriesOfOne(kids[i]);
    PartAscends(AllEntries(kids[..i]).keys, Entries(kids[i]).keys, AllEntries(kids[i + 1..]).keys);
  }

  lemma LastIsLargest(c: Contents, key: nat)
    requires Ascends(c.keys) && (c.keys != [] ==> LastKey(c) < key)
    ensures Below(c.keys, key)
  {}

  lemma {:induction false} AllBelow(kids: seq<Tree>, key: nat)
    requires forall i :: 0 <= i < |kids| ==> Ascends(Entries(kids[i]).keys) && LastKey(Entries(kids[i])) < key
    ensures Below(AllEntries(kids).keys, key)
  {
    if kids != [] {
      hide Ascends;
      LastIsLargest(Entries(kids[0]), key);
      AllBelow(kids[1..], key);
    }
  }

  /** The child the descent chooses is the one the key belongs in. */
  lemma Chosen(keys: seq<nat>, kids: seq<Tree>, h: nat, key: nat, pos: nat)
    requires Good(Inner(keys, kids), h)
    requires pos == Descend(keys, key)
    ensures Good(kids[pos], h - 1) && Below(AllEntries(kids[..pos]).keys, key)
    ensures Position(Entries(kids[pos]).keys, key) < |Entries(kids[pos]).keys| || pos == |kids| - 1
    ensures (if Position(keys, key) == |keys| then keys[pos := key] else keys)[pos]
            == if key <= keys[pos] then keys[pos] else key
  {
    hide Ascends;
    PositionFirst(keys, key);
    forall i | 0 <= i < |kids| ensures Ascends(Entries(kids[i]).keys) { KidAscends(kids, i); }
    AllBelow(kids[..pos], key);
    EntriesSized(kids[pos], h - 1);
    if Position(keys, key) < |keys| {
      AddedLast(Entries(kids[pos]), key, 0);
    }
  }

  /** The entries of an inner node when the chosen child is replaced. */
  lemma ReplacedEntries(kids: seq<Tree>, pos: nat, mid: seq<Tree>, key: nat, value: nat)
    requires pos < |kids| && |Entries(kids[pos]).keys| == |Entries(kids[pos]).lists|
    requires |AllEntries(kids[..pos]).keys| == |AllEntries(kids[..pos]).lists|
    requires |AllEntries(kids[pos + 1..]).keys| == |AllEntries(kids[pos + 1..]).lists|
    requires Below(AllEntries(kids[..pos]).keys, key)
    requires Position(Entries(kids[pos]).keys, key) < |Entries(kids[pos]).keys| || pos == |kids| - 1
    requires AllEntries(mid) == AddedTo(Entries(kids[pos]), key, value)
    requires |AllEntries(kids).keys| == |AllEntries(kids).lists|
    ensures AllEntries(kids[..pos] + mid + kids[pos + 1..]) == AddedTo(AllEntries(kids), key, value)
  {
    hide Below, Position, Cat, AddedTo;
    assert kids == kids[..pos] + [kids[pos]] + kids[pos + 1..];
    EntriesAround(kids[..pos], [kids[pos]], kids[pos + 1..]);
    EntriesAround(kids[..pos], mid, kids[pos + 1..]);
    EntriesOfOne(kids[pos]);
    AddedInside(AllEntries(kids[..pos]), Entries(kids[pos]), AllEntries(kids[pos + 1..]), key, value);
  }

  lemma HalvesOf(c: Contents)
    requires |c.keys| == |c.lists| == MAX_KEYS
    ensures Cat(LowPart(c), HighPart(c)) == c
  {}

  lemma LowIsFine(c: Contents)
    requires Fine(c) && |c.keys| == MAX_KEYS
    ensures Fine(LowPart(c)) && |LowPart(c).keys| == MAX_KEYS / 2 && LastKey(LowPart(c)) == c.keys[MAX_KEYS / 2 - 1]
    ensures Fine(HighPart(c)) && |HighPart(c).keys| == MAX_KEYS / 2
  {
    PartIsFine(c, 0, MAX_KEYS / 2);
    PartIsFine(c, MAX_KEYS / 2, MAX_KEYS / 2);
  }

  lemma FineAscends(c: Contents)
    requires Fine(c)
    ensures |c.keys| == |c.lists| && Ascends(c.keys)
  {}

  lemma AddedGrows(c: Contents, key: nat, value: nat)
    requires Fine(c) && |c.keys| > 0
    ensures AddedTo(c, key, value).keys != []
  {}

  /** The new key goes to the larger half. */
  lemma AddedAbove(low: Contents, high: Contents, key: nat, value: nat)
    requires Fine(low) && Fine(high) && low.keys != [] && high.keys != [] && LastKey(low) < key
             && |high.keys| < MAX_KEYS
    ensures Fine(AddedTo(high, key, value)) && AddedTo(high, key, value).keys != []
    ensures Cat(low, AddedTo(high, key, value)) == AddedTo(Cat(low, high), key, value)
  {
    hide Position, Below, AddedTo, Fine;
    FineAscends(low);
    FineAscends(high);
    LastIsLargest(low, key);
    AddedIsFine(high, key, value);
    AddedGrows(high, key, value);
    AddedInside(low, high, NOTHING, key, value);
    CatAssoc(Cat(low, high), NOTHING, NOTHING);
    CatAssoc(Cat(low, AddedTo(high, key, value)), NOTHING, NOTHING);
  }

  /** The new key goes to the smaller half, whose last key stays. */
  lemma AddedBelow(low: Contents, high: Contents, key: nat, value: nat)
    requires Fine(low) && Fine(high) && low.keys != [] && key <= LastKey(low) && |low.keys| < MAX_KEYS
    ensures Fine(AddedTo(low, key, value)) && AddedTo(low, key, value).keys != []
            && LastKey(AddedTo(low, key, value)) == LastKey(low)
    ensures Cat(AddedTo(low, key, value), high) == AddedTo(Cat(low, high), key, value)
  {
    hide Position, AddedTo, Fine, Ascends;
    FineAscends(low);
    FineAscends(high);
    AddedIsFine(low, key, value);
    AddedGrows(low, key, value);
    AddedLast(low, key, value);
    AddedInside(NOTHING, low, high, key, value);
    CatAssoc(low, NOTHING, NOTHING);
    CatAssoc(AddedTo(low, key, value), NOTHING, NOTHING);
  }

  /** A leaf splits into two that together hold the entries with the new one; the middle key is the smaller one's
      last. */
  lemma SplitIsRight(c: Contents, key: nat, value: nat)
    requires Fine(c) && |c.keys| == MAX_KEYS
    ensures Fine(SmallHalf(c, key, value)) && Fine(LargeHalf(c, key, value))
    ensures SmallHalf(c, key, value).keys != [] && LargeHalf(c, key, value).keys != []
    ensures Cat(SmallHalf(c, key, value), LargeHalf(c, key, value)) == AddedTo(c, key, value)
    ensures LastKey(SmallHalf(c, key, value)) == c.keys[MAX_KEYS / 2 - 1]
  {
    FineAscends(c);
    hide Fine, AddedTo, LastKey, Cat, LowPart, HighPart;
    HalvesOf(c);
    LowIsFine(c);
    if key > c.keys[MAX_KEYS / 2 - 1] {
      AddedAbove(LowPart(c), HighPart(c), key, value);
    } else {
      AddedBelow(LowPart(c), HighPart(c), key, value);
    }
  }

  /** What addItem below a node gives. */
  ghost predicate Right(t: Tree, h: nat, key: nat, value: nat)
    requires Shaped(t, h)
  {
    match Add(t, h, key, value)
    case One(t') => Shaped(t', h) && Entries(t') == AddedTo(Entries(t), key, value)
    case Two(mid, small, large) =>
      && h == 0 && Shaped(small, 0) && Shaped(large, 0) && mid == LastKey(Entries(small)) && mid in Entries(t).keys
      && Cat(Entries(small), Entries(large)) == AddedTo(Entries(t), key, value)
    case NoRoom => true
  }

  lemma LeafIsRight(c: Contents, key: nat, value: nat)
    requires Good(Leaf(c), 0)
    ensures Right(Leaf(c), 0, key, value)
  {
    if Has(c, key) || |c.keys| < MAX_KEYS {
      AddedIsFine(c, key, value);
    } else {
      SplitIsRight(c, key, value);
    }
  }

  lemma PartsSized(kids: seq<Tree>, h: nat, pos: nat)
    requires pos < |kids| && forall i :: 0 <= i < |kids| ==> Shaped(kids[i], h)
    ensures |AllEntries(kids).keys| == |AllEntries(kids).lists|
    ensures |Entries(kids[pos]).keys| == |Entries(kids[pos]).lists| > 0
    ensures |AllEntries(kids[..pos]).keys| == |AllEntries(kids[..pos]).lists|
    ensures |AllEntries(kids[pos + 1..]).keys| == |AllEntries(kids[pos + 1..]).lists|
  {
    hide Shaped;
    forall i | 0 <= i < |kids|
      ensures |Entries(kids[i]).keys| == |Entries(kids[i]).lists| > 0 { EntriesSized(kids[i], h); }
    AllSized(kids);
    AllSized(kids[..pos]);
    AllSized(kids[pos + 1..]);
  }

  lemma KidReplaced(keys: seq<nat>, kids: seq<Tree>, h: nat, pos: nat, kid: Tree)
    requires Shaped(Inner(keys, kids), h) && pos < |kids| && Shaped(kid, h - 1)
    ensures Shaped(Inner(keys[pos := LastKey(Entries(kid))], kids[pos := kid]), h)
  {
    hide Entries;
  }

  lemma KidInserted(keys: seq<nat>, kids: seq<Tree>, h: nat, pos: nat, kid: Tree)
    requires Shaped(Inner(keys, kids), h) && pos < |kids| < MAX_KEYS && Shaped(kid, h - 1)
    ensures Shaped(Inner(Insert(keys, pos, LastKey(Entries(kid))), Insert(kids, pos, kid)), h)
  {
    hide Entries;
  }

  /** The key above the chosen child is the largest key below it after the insertion. */
  lemma RaisedIsLast(keys: seq<nat>, kids: seq<Tree>, h: nat, key: nat, value: nat)
    requires Good(Inner(keys, kids), h)
    ensures var pos := Descend(keys, key);
            Raised(keys, key) == keys[pos := LastKey(AddedTo(Entries(kids[pos]), key, value))]
  {
    hide AddedTo, Ascends;
    var pos := Descend(keys, key);
    Chosen(keys, kids, h, key, pos);
    PartsSized(kids, h - 1, pos);
    AddedLast(Entries(kids[pos]), key, value);
    PositionFirst(keys, key);
  }

  /** The last key of a child before the chosen one is among the entries before it. */
  lemma {:induction false} LastKeyIsThere(kids: seq<Tree>, i: nat)
    requires i < |kids| && Entries(kids[i]).keys != []
    ensures LastKey(Entries(kids[i])) in AllEntries(kids).keys
  {
    if i > 0 { LastKeyIsThere(kids[1..], i - 1); }
  }

  lemma EarlierIsLess(a: seq<nat>, b: seq<nat>, c: seq<nat>, x: nat, y: nat)
    requires Ascends(a + b + c) && x in a && y in b
    ensures x < y
  {
    var i :| 0 <= i < |a| && a[i] == x;
    var j :| 0 <= j < |b| && b[j] == y;
    var s := a + b + c;
    assert s[i] < s[|a| + j];
  }

  lemma NotAbove(keys: seq<nat>, x: nat)
    requires Ascends(keys) && x in keys
    ensures x <= keys[|keys| - 1]
  {}

  lemma PositionHere(keys: seq<nat>, key: nat, pos: nat)
    requires pos < |keys| && (forall i :: 0 <= i < pos ==> keys[i] < key) && key <= keys[pos]
    ensures Position(keys, key) == pos
  {
    PositionFirst(keys, key);
  }

  /** The keys of a child lie above the inner keys of the children before it. */
  lemma AboveEarlier(keys: seq<nat>, kids: seq<Tree>, h: nat, pos: nat, i: nat, mid: nat)
    requires Good(Inner(keys, kids), h) && i < pos < |kids| && mid in Entries(kids[pos]).keys
    ensures keys[i] < mid
  {
    hide Ascends, Entries, AllEntries;
    assert kids == kids[..pos] + [kids[pos]] + kids[pos + 1..];
    EntriesAround(kids[..pos], [kids[pos]], kids[pos + 1..]);
    EntriesOfOne(kids[pos]);
    EntriesSized(kids[i], h - 1);
    LastKeyIsThere(kids[..pos], i);
    EntriesOfInner(keys, kids);
    EarlierIsLess(AllEntries(kids[..pos]).keys, Entries(kids[pos]).keys, AllEntries(kids[pos + 1..]).keys, keys[i],
                  mid);
  }

  lemma EntriesOfInner(keys: seq<nat>, kids: seq<Tree>)
    ensures Entries(Inner(keys, kids)) == AllEntries(kids)
  {}

  /** A key of the chosen child belongs right before that child. */
  lemma MidPosition(keys: seq<nat>, kids: seq<Tree>, h: nat, key: nat, value: nat, mid: nat)
    requires Good(Inner(keys, kids), h) && mid in Entries(kids[Descend(keys, key)]).keys
    ensures Position(Raised(keys, key), mid) == Descend(keys, key)
  {
    hide AddedTo, Ascends, Position;
    var pos := Descend(keys, key);
    RaisedIsLast(keys, kids, h, key, value);
    PartsSized(kids, h - 1, pos);
    KidAscends(kids, pos);
    AddedLast(Entries(kids[pos]), key, value);
    NotAbove(Entries(kids[pos]).keys, mid);
    forall i | 0 <= i < pos ensures keys[i] < mid { AboveEarlier(keys, kids, h, pos, i, mid); }
    PositionHere(Raised(keys, key), mid, pos);
  }

  lemma EntriesReplaced(keys: seq<nat>, kids: seq<Tree>, h: nat, key: nat, value: nat, mid: seq<Tree>)
    requires Good(Inner(keys, kids), h) && AllEntries(mid) == AddedTo(Entries(kids[Descend(keys, key)]), key, value)
    ensures AllEntries(kids[..Descend(keys, key)] + mid + kids[Descend(keys, key) + 1..])
            == AddedTo(AllEntries(kids), key, value)
  {
    hide AddedTo, Ascends, Below, Position;
    var pos := Descend(keys, key);
    Chosen(keys, kids, h, key, pos);
    PartsSized(kids, h - 1, pos);
    ReplacedEntries(kids, pos, mid, key, value);
  }

  /** The chosen child took the entry in. */
  lemma KidTookIn(keys: seq<nat>, kids: seq<Tree>, h: nat, key: nat, value: nat, kid: Tree)
    requires Good(Inner(keys, kids), h)
    requires Shaped(kid, h - 1) && Entries(kid) == AddedTo(Entries(kids[Descend(keys, key)]), key, value)
    ensures Shaped(Inner(Raised(keys, key), kids[Descend(keys, key) := kid]), h)
    ensures AllEntries(kids[Descend(keys, key) := kid]) == AddedTo(AllEntries(kids), key, value)
  {
    hide Ascends, AddedTo, Raised, Position;
    var pos := Descend(keys, key);
    RaisedIsLast(keys, kids, h, key, value);
    KidReplaced(keys, kids, h, pos, kid);
    EntriesOfOne(kid);
    EntriesReplaced(keys, kids, h, key, value, [kid]);
    assert kids[pos := kid] == kids[..pos] + [kid] + kids[pos + 1..];
  }

  lemma LastOfCat(a: Contents, b: Contents)
    requires b.keys != []
    ensures LastKey(Cat(a, b)) == LastKey(b)
  {}

  /** The chosen child was a leaf that split, and its halves are taken in. */
  lemma HalvesTakenIn(keys: seq<nat>, kids: seq<Tree>, h: nat, key: nat, value: nat, small: Tree, large: Tree)
    requires Good(Inner(keys, kids), h) && |kids| < MAX_KEYS
    requires Shaped(small, h - 1) && Shaped(large, h - 1)
    requires Cat(Entries(small), Entries(large)) == AddedTo(Entries(kids[Descend(keys, key)]), key, value)
    ensures var pos := Descend(keys, key);
            && Shaped(Inner(Insert(Raised(keys, key), pos, LastKey(Entries(small))),
                            Insert(kids[pos := large], pos, small)), h)
            && AllEntries(Insert(kids[pos := large], pos, small)) == AddedTo(AllEntries(kids), key, value)
  {
    hide Ascends, AddedTo, Raised, Position, Entries, AllEntries;
    var pos := Descend(keys, key);
    RaisedIsLast(keys, kids, h, key, value);
    EntriesSized(large, h - 1);
    LastOfCat(Entries(small), Entries(large));
    KidReplaced(keys, kids, h, pos, large);
    KidInserted(Raised(keys, key), kids[pos := large], h, pos, small);
    EntriesOfTwo(small, large);
    EntriesReplaced(keys, kids, h, key, value, [small, large]);
    assert Insert(kids[pos := large], pos, small) == kids[..pos] + [small, large] + kids[pos + 1..];
  }

  lemma {:induction false} AddIsRight(t: Tree, h: nat, key: nat, value: nat)
    requires Good(t, h)
    ensures Right(t, h, key, value)
    decreases t
  {
    match t {
      case Leaf(c) => LeafIsRight(c, key, value);
      case Inner(keys, kids) =>
        hide Ascends, AddedTo, Below, Insert;
        var pos := Descend(keys, key);
        Chosen(keys, kids, h, key, pos);
        AddIsRight(kids[pos], h - 1, key, value);
        match Add(kids[pos], h - 1, key, value) {
          case One(kid) => KidTookIn(keys, kids, h, key, value, kid);
          case Two(mid, small, large) =>
            MidPosition(keys, kids, h, key, value, mid);
            if |kids| < MAX_KEYS { HalvesTakenIn(keys, kids, h, key, value, small, large); }
          case NoRoom =>
        }
    }
  }

  /** Whether an addItem goes through can be read off the tree before. */
  lemma {:induction false} RoomIs(t: Tree, h: nat, key: nat, value: nat)
    requires Shaped(t, h)
    ensures Add(t, h, key, value).NoRoom? <==> !HasRoom(t, key)
    ensures Add(t, h, key, value).Two? ==> t.Leaf?
    decreases t
  {
    if t.Inner? { RoomIs(t.kids[Descend(t.keys, key)], h - 1, key, value); }
  }

  lemma FirstItem(key: nat, value: nat)
    ensures Good(Leaf(AddedTo(NOTHING, key, value)), 0) && AddedTo(NOTHING, key, value) == Contents([key], [[value]])
  {}

  /** addItem goes through exactly if no inner node has to be split. It then keeps the tree a B-tree with all leaves at
      one depth, and stores exactly what was stored before and the new entry. */
  lemma AddItemIsRight(r: Root, key: nat, value: nat)
    requires Sound(r)
    ensures AddItem(r, key, value).Done? <==> RootHasRoom(r, key)
    ensures RootHasRoom(r, key) ==>
              var r' := AddItem(r, key, value).root;
              Sound(r') && r'.Root? && Stored(r') == AddedTo(Stored(r), key, value)
  {
    hide Ascends, AddedTo, HasRoom;
    if r.NoRoot? {
      FirstItem(key, value);
    } else {
      RoomIs(r.t, r.h, key, value);
      AddIsRight(r.t, r.h, key, value);
      EntriesSized(r.t, r.h);
      AddedAscends(Entries(r.t), key, value);
      match Add(r.t, r.h, key, value) {
        case One(t') =>
        case Two(mid, small, large) => EntriesOfTwo(small, large);
        case NoRoom =>
      }
    }
  }
}
