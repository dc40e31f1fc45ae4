/** Leaves of the B-tree: sorted keys with their value lists in parallel arrays. */
module BTreeNodes {

  const MAX_KEYS: nat := 128

  ghost predicate Ascends(keys: seq<nat>) {
    forall i, j :: 0 <= i < j < |keys| ==> keys[i] < keys[j]
  }

  /** The first position whose key is not below the given one, or the end. */
  function Position(keys: seq<nat>, key: nat): (pos: nat)
    ensures pos <= |keys|
  {
    if keys == [] || key <= keys[0] then 0 else 1 + Position(keys[1..], key)
  }

  lemma {:induction false} PositionIs(keys: seq<nat>, key: nat)
    requires Ascends(keys)
    ensures forall i :: 0 <= i < Position(keys, key) ==> keys[i] < key
    ensures forall i :: Position(keys, key) <= i < |keys| ==> key <= keys[i]
  {
    if keys != [] && keys[0] < key { PositionIs(keys[1..], key); }
  }

  /** The position is determined by what lies before and behind it. */
  lemma PositionUnique(keys: seq<nat>, key: nat, pos: nat)
    requires Ascends(keys) && pos <= |keys|
    requires pos > 0 ==> keys[pos - 1] < key
    requires pos < |keys| ==> key <= keys[pos]
    ensures Position(keys, key) == pos
  {
    PositionIs(keys, key);
  }

  function Insert<T>(xs: seq<T>, pos: nat, x: T): seq<T>
    requires pos <= |xs|
  {
    xs[..pos] + [x] + xs[pos..]
  }

  /** A leaf's contents. */
  datatype Contents = Contents(keys: seq<nat>, lists: seq<seq<nat>>)

  ghost predicate Fine(c: Contents) {
    |c.keys| == |c.lists| <= MAX_KEYS && Ascends(c.keys) && forall i :: 0 <= i < |c.lists| ==> c.lists[i] != []
  }

  predicate Has(c: Contents, key: nat) {
    Position(c.keys, key) < |c.keys| && c.keys[Position(c.keys, key)] == key
  }

  /** addItem: the value joins its key's list, or a new list is put in its key's place. */
  function AddedTo(c: Contents, key: nat, value: nat): Contents {
    var pos := Position(c.keys, key);
    if |c.keys| != |c.lists| then c
    else if Has(c, key) then c.(lists := c.lists[pos := c.lists[pos] + [value]])
    else Contents(Insert(c.keys, pos, key), Insert(c.lists, pos, [value]))
  }

  lemma AddedIsFine(c: Contents, key: nat, value: nat)
    requires Fine(c) && (Has(c, key) || |c.keys| < MAX_KEYS)
    ensures Fine(AddedTo(c, key, value))
  {
    var pos := Position(c.keys, key);
    PositionIs(c.keys, key);
    if !Has(c, key) {
      InsertAscends(c.keys, pos, key);
      InsertFilled(c.lists, pos, [value]);
      hide Ascends, Insert, Position;
      InsertSize(c.keys, pos, key);
      InsertSize(c.lists, pos, [value]);
    }
  }

  lemma InsertSize<T>(xs: seq<T>, pos: nat, x: T)
    requires pos <= |xs|
    ensures |Insert(xs, pos, x)| == |xs| + 1
  {}

  lemma InsertFilled(lists: seq<seq<nat>>, pos: nat, list: seq<nat>)
    requires pos <= |lists| && list != [] && forall i :: 0 <= i < |lists| ==> lists[i] != []
    ensures forall i :: 0 <= i < |Insert(lists, pos, list)| ==> Insert(lists, pos, list)[i] != []
  {}

  lemma InsertAscends(keys: seq<nat>, pos: nat, key: nat)
    requires Ascends(keys) && pos <= |keys| && (pos < |keys| ==> key < keys[pos])
    requires forall i :: 0 <= i < pos ==> keys[i] < key
    ensures Ascends(Insert(keys, pos, key))
  {}

  class LeafNode {
    var elemCount: nat
    const keyArray: array<nat>
    const resultArray: array<seq<nat>>

    ghost predicate Valid()
      reads this, keyArray, resultArray
    {
      keyArray.Length == MAX_KEYS && resultArray.Length == MAX_KEYS && elemCount <= MAX_KEYS && Fine(View())
    }

    ghost function View(): Contents
      reads this, keyArray, resultArray
    {
      if elemCount <= keyArray.Length && elemCount <= resultArray.Length then
        Contents(keyArray[..elemCount], resultArray[..elemCount])
      else Contents([], [])
    }

    constructor ()
      ensures Valid() && View() == Contents([], []) && fresh(keyArray) && fresh(resultArray)
    {
      elemCount := 0;
      keyArray := new nat[MAX_KEYS];
      resultArray := new seq<nat>[MAX_KEYS];
    }

    /** findPosition: binary search; -1 if all keys are below. */
    method FindPosition(key: nat) returns (pos: int)
      requires Valid()
      ensures pos == if elemCount > 0 && Position(View().keys, key) == elemCount then -1 else Position(View().keys, key)
    {
      ghost var keys := View().keys;
      PositionIs(keys, key);
      if elemCount == 0 { return 0; }
      if keyArray[elemCount - 1] < key {
        PositionUnique(keys, key, elemCount);
        return -1;
      }
      var l, r := 0, elemCount - 1;
      while l < r
        invariant 0 <= l <= Position(keys, key) <= r < elemCount && keys == View().keys
        decreases r - l
      {
        var mid := (l + r) / 2;
        if keyArray[mid] > key {
          r := mid;
        } else if keyArray[mid] < key {
          l := mid + 1;
        } else {
          PositionUnique(keys, key, mid);
          return mid;
        }
      }
      return l;
    }

    /** addItem of a leaf; -1 if there is no room for a new key. */
    method AddItem(key: nat, value: nat) returns (r: int)
      requires Valid()
      modifies this, keyArray, resultArray
      ensures Valid() && r == if Has(old(View()), key) || old(elemCount) < MAX_KEYS then 0 else -1
      ensures View() == if r == 0 then AddedTo(old(View()), key, value) else old(View())
    {
      var pos := FindPosition(key);
      if 0 <= pos < elemCount && keyArray[pos] == key {
        AppendTo(pos, key, value);
        return 0;
      }
      if elemCount >= MAX_KEYS { return -1; }
      if pos == -1 { pos := elemCount; }
      NewKey(pos, key, value);
      r := 0;
    }

    method AppendTo(pos: nat, key: nat, value: nat)
      requires Valid() && Has(View(), key) && pos == Position(View().keys, key)
      modifies resultArray
      ensures Valid() && View() == AddedTo(old(View()), key, value)
    {
      AddedIsFine(View(), key, value);
      ghost var lists := View().lists;
      resultArray[pos] := resultArray[pos] + [value];
      assert View().lists == lists[pos := lists[pos] + [value]];
    }

    method NewKey(pos: nat, key: nat, value: nat)
      requires Valid() && !Has(View(), key) && elemCount < MAX_KEYS && pos == Position(View().keys, key)
      modifies this, keyArray, resultArray
      ensures Valid() && View() == AddedTo(old(View()), key, value)
    {
      ghost var before := View();
      AddedIsFine(before, key, value);
      ShiftUp(pos);
      PutAt(pos, key, value, before);
    }

    method PutAt(pos: nat, key: nat, value: nat, ghost c: Contents)
      requires keyArray.Length == MAX_KEYS && resultArray.Length == MAX_KEYS && pos <= elemCount < MAX_KEYS
      requires |c.keys| == |c.lists| == elemCount && !Has(c, key) && pos == Position(c.keys, key)
               && Fine(AddedTo(c, key, value))
      requires keyArray[..pos] == c.keys[..pos] && keyArray[pos + 1..elemCount + 1] == c.keys[pos..]
      requires resultArray[..pos] == c.lists[..pos] && resultArray[pos + 1..elemCount + 1] == c.lists[pos..]
      modifies this, keyArray, resultArray
      ensures Valid() && View() == AddedTo(c, key, value)
    {
      hide Ascends, Position, Fine;
      keyArray[pos] := key;
      resultArray[pos] := [value];
      elemCount := elemCount + 1;
      assert keyArray[..elemCount] == keyArray[..pos] + [keyArray[pos]] + keyArray[pos + 1..elemCount];
      assert resultArray[..elemCount] == resultArray[..pos] + [resultArray[pos]] + resultArray[pos + 1..elemCount];
    }

    /** Moves everything from pos on up by one. */
    method ShiftUp(pos: nat)
      requires keyArray.Length == MAX_KEYS && resultArray.Length == MAX_KEYS && pos <= elemCount < MAX_KEYS
      modifies keyArray, resultArray
      ensures keyArray[..pos] == old(keyArray[..pos])
              && keyArray[pos + 1..elemCount + 1] == old(keyArray[pos..elemCount])
      ensures resultArray[..pos] == old(resultArray[..pos])
              && resultArray[pos + 1..elemCount + 1] == old(resultArray[pos..elemCount])
    {
      hide Shifted;
      ghost var keys, lists := keyArray[..], resultArray[..];
      ShiftedStart(keys, elemCount);
      ShiftedStart(lists, elemCount);
      var i := elemCount;
      while i > pos
        invariant pos <= i <= elemCount
        invariant keyArray[..] == Shifted(keys, i, elemCount) && resultArray[..] == Shifted(lists, i, elemCount)
      {
        ShiftedStep(keys, i, elemCount);
        ShiftedStep(lists, i, elemCount);
        keyArray[i] := keyArray[i - 1];
        resultArray[i] := resultArray[i - 1];
        i := i - 1;
      }
      ShiftedParts(keyArray[..], keys, pos, elemCount);
      ShiftedParts(resultArray[..], lists, pos, elemCount);
    }

    /** copyItems: the keys of the other leaf from start on go behind this one's, as many of the n as fit; their lists
        go to the front. Only on an empty leaf does that give the n items. */
    method CopyItems(other: LeafNode, start: nat, n: nat)
      requires Valid() && other.Valid() && start + n <= other.elemCount
      requires other != this && other.keyArray != keyArray && other.resultArray != resultArray
      modifies this, keyArray, resultArray
      ensures elemCount == Fitting(old(elemCount), n)
      ensures keyArray[..] == Overwritten(old(keyArray[..]), old(elemCount), other.View().keys[start..start + n],
                                          elemCount - old(elemCount))
      ensures resultArray[..] == Overwritten(old(resultArray[..]), 0, other.View().lists[start..start + n], n)
      ensures old(elemCount) == 0 ==>
                Valid() && View() == Contents(other.View().keys[start..start + n], other.View().lists[start..start + n])
    {
      hide Ascends, Fine, Overwritten;
      ghost var from := other.View();
      ghost var keys, lists, first := from.keys[start..start + n], from.lists[start..start + n], elemCount;
      CopyKeys(other, start, n);
      ghost var oldLists, newKeys := resultArray[..], keyArray[..];
      OverwrittenNone(oldLists, 0, lists);
      var i := 0;
      while i < n && start + i < MAX_KEYS
        invariant 0 <= i <= n && other.View() == from && keyArray[..] == newKeys && elemCount == Fitting(first, n)
        invariant resultArray[..] == Overwritten(oldLists, 0, lists, i)
        modifies resultArray
      {
        assert other.resultArray[start + i] == lists[i];
        OverwrittenStep(oldLists, 0, lists, i);
        resultArray[i] := other.resultArray[start + i];
        i := i + 1;
      }
      if first == 0 {
        OverwrittenAll(keyArray[..], old(keyArray[..]), keys);
        OverwrittenAll(resultArray[..], oldLists, lists);
        PartIsFine(from, start, n);
      }
    }

    /** copyItems of the base class: the keys. */
    method CopyKeys(other: LeafNode, start: nat, n: nat)
      requires Valid() && other.Valid() && start + n <= other.elemCount && other != this && other.keyArray != keyArray
      modifies this, keyArray
      ensures elemCount == Fitting(old(elemCount), n)
      ensures keyArray[..] == Overwritten(old(keyArray[..]), old(elemCount), other.View().keys[start..start + n],
                                          elemCount - old(elemCount))
    {
      hide Ascends, Fine, Overwritten;
      ghost var from, first := other.View(), elemCount;
      ghost var keys, oldKeys := from.keys[start..start + n], keyArray[..];
      OverwrittenNone(oldKeys, first, keys);
      var i := 0;
      while i < n && elemCount < MAX_KEYS
        invariant 0 <= i <= n && elemCount == first + i <= MAX_KEYS && other.View() == from
        invariant keyArray[..] == Overwritten(oldKeys, first, keys, i)
      {
        assert other.keyArray[start + i] == keys[i];
        OverwrittenStep(oldKeys, first, keys, i);
        keyArray[elemCount] := other.keyArray[start + i];
        elemCount := elemCount + 1;
        i := i + 1;
      }
    }

    /** The leaf part of splitNode: the larger half moves to a new leaf, and the value goes where its key belongs. */
    method Split(key: nat, value: nat) returns (newLeaf: LeafNode)
      requires Valid() && elemCount == MAX_KEYS && !Has(View(), key)
      modifies this, keyArray, resultArray
      ensures Valid() && newLeaf.Valid() && fresh(newLeaf) && fresh(newLeaf.keyArray) && fresh(newLeaf.resultArray)
      ensures View() == SmallHalf(old(View()), key, value) && newLeaf.View() == LargeHalf(old(View()), key, value)
    {
      hide Ascends, Position, AddedTo, Overwritten, Fitting;
      ghost var before := View();
      newLeaf := new LeafNode();
      var midIndex := elemCount / 2 - 1;
      var midvalue := keyArray[midIndex];
      newLeaf.CopyItems(this, midIndex + 1, midIndex + 1);
      PartIsFine(before, 0, midIndex + 1);
      elemCount := midIndex + 1;
      HalvesAre(before);
      assert View() == LowPart(before) && newLeaf.View() == HighPart(before);
      if key > midvalue {
        var r := newLeaf.AddItem(key, value);
      } else {
        var r := this.AddItem(key, value);
      }
    }
  }

  /** The elements from i to n have been moved up by one. */
  function Shifted<T>(xs: seq<T>, i: nat, n: nat): (ys: seq<T>)
    requires i <= n < |xs|
    ensures |ys| == |xs|
  {
    xs[..i + 1] + xs[i..n] + xs[n + 1..]
  }

  lemma ShiftedStart<T>(xs: seq<T>, n: nat)
    requires n < |xs|
    ensures Shifted(xs, n, n) == xs
  {}

  lemma ShiftedStep<T>(xs: seq<T>, i: nat, n: nat)
    requires 0 < i <= n < |xs|
    ensures Shifted(xs, i, n)[i := Shifted(xs, i, n)[i - 1]] == Shifted(xs, i - 1, n)
  {}

  lemma ShiftedParts<T>(ys: seq<T>, xs: seq<T>, i: nat, n: nat)
    requires i <= n < |xs| && ys == Shifted(xs, i, n)
    ensures ys[..i] == xs[..i] && ys[i + 1..n + 1] == xs[i..n]
  {}

  /** How many keys a node has when n more have been put behind its own, as far as there is room. */
  function Fitting(count: nat, n: nat): nat {
    if count + n <= MAX_KEYS then count + n else if count <= MAX_KEYS then MAX_KEYS else count
  }

  /** The first i of ys stand in xs from at on. */
  function Overwritten<T>(xs: seq<T>, at: nat, ys: seq<T>, i: nat): (zs: seq<T>)
    requires i <= |ys| && at + i <= |xs|
    ensures |zs| == |xs|
  {
    xs[..at] + ys[..i] + xs[at + i..]
  }

  lemma OverwrittenNone<T>(xs: seq<T>, at: nat, ys: seq<T>)
    requires at <= |xs|
    ensures Overwritten(xs, at, ys, 0) == xs
  {}

  lemma OverwrittenStep<T>(xs: seq<T>, at: nat, ys: seq<T>, i: nat)
    requires i < |ys| && at + i < |xs|
    ensures Overwritten(xs, at, ys, i)[at + i := ys[i]] == Overwritten(xs, at, ys, i + 1)
  {}

  lemma OverwrittenAll<T>(zs: seq<T>, xs: seq<T>, ys: seq<T>)
    requires |ys| <= |xs| && zs == Overwritten(xs, 0, ys, |ys|)
    ensures zs[..|ys|] == ys
  {}

  lemma HalvesAre(c: Contents)
    requires |c.keys| == |c.lists| == MAX_KEYS
    ensures Contents(c.keys[..MAX_KEYS / 2], c.lists[..MAX_KEYS / 2]) == LowPart(c)
    ensures Contents(c.keys[MAX_KEYS / 2..MAX_KEYS], c.lists[MAX_KEYS / 2..MAX_KEYS]) == HighPart(c)
  {}

  lemma PartIsFine(c: Contents, start: nat, n: nat)
    requires Fine(c) && start + n <= |c.keys|
    ensures Fine(Contents(c.keys[start..start + n], c.lists[start..start + n]))
  {}

  function LowPart(c: Contents): Contents
    requires |c.keys| == |c.lists| == MAX_KEYS
  {
    Contents(c.keys[..MAX_KEYS / 2], c.lists[..MAX_KEYS / 2])
  }

  function HighPart(c: Contents): Contents
    requires |c.keys| == |c.lists| == MAX_KEYS
  {
    Contents(c.keys[MAX_KEYS / 2..], c.lists[MAX_KEYS / 2..])
  }

  function SmallHalf(c: Contents, key: nat, value: nat): Contents
    requires |c.keys| == |c.lists| == MAX_KEYS
  {
    if key > c.keys[MAX_KEYS / 2 - 1] then LowPart(c) else AddedTo(LowPart(c), key, value)
  }

  function LargeHalf(c: Contents, key: nat, value: nat): Contents
    requires |c.keys| == |c.lists| == MAX_KEYS
  {
    if key > c.keys[MAX_KEYS / 2 - 1] then AddedTo(HighPart(c), key, value) else HighPart(c)
  }
}
