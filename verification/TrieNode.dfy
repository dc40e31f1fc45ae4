/** Inner and leaf nodes of the trie. */
module TrieNodes {
  import opened Bitmaps
  import opened Enumerate
  import opened FlowLog
  import opened LinkLists

  const MAX_PER_NODE: nat := 256

  /** What a node holds: the taken slots, whether it has listed them and whether that list is right, and a leaf's
      values. */
  datatype View = View(bits: set<nat>, listed: bool, accurate: bool, values: seq<seq<Value>>)

  /** The lists live in the given space, share nothing, and hold the given values. */
  ghost predicate ListsShow(lists: seq<LinkList?<Value>>, values: seq<seq<Value>>, space: set<object>)
    reads space
  {
    && |values| == |lists|
    && (forall b :: 0 <= b < |lists| && lists[b] == null ==> values[b] == [])
    && (forall b :: 0 <= b < |lists| && lists[b] != null ==>
          lists[b] in space && lists[b].Repr <= space && lists[b].Valid() && lists[b].contents == values[b])
    && (forall b, c :: 0 <= b < c < |lists| && lists[b] != null && lists[c] != null ==> lists[b].Repr !! lists[c].Repr)
  }

  /** The slot is new, but the node has listed its slots, and a later one is among them. */
  ghost predicate Spoils(view: View, pos: nat) {
    view.listed && view.accurate && pos !in view.bits && exists c :: c in view.bits && pos < c
  }

  lemma ListsShowNone(lists: seq<LinkList?<Value>>, values: seq<seq<Value>>, space: set<object>)
    requires |values| == |lists| && forall b :: 0 <= b < |lists| ==> lists[b] == null && values[b] == []
    ensures ListsShow(lists, values, space)
  {}

  lemma ListsShowNew(lists: seq<LinkList?<Value>>, values: seq<seq<Value>>, space: set<object>, pos: nat,
                     list: LinkList<Value>)
    requires ListsShow(lists, values, space) && pos < |lists| && lists[pos] == null
    requires list.Valid() && list.contents == [] && list.Repr !! space
    ensures ListsShow(lists[pos := list], values, space + list.Repr)
  {
    hide LinkList.Valid;
  }

  /** Appends to one list; the others do not notice. */
  method AppendToList(list: LinkList<Value>, value: Value,
                      ghost lists: seq<LinkList?<Value>>, ghost values: seq<seq<Value>>, ghost space: set<object>,
                          ghost pos: nat)
    requires ListsShow(lists, values, space) && pos < |lists| && lists[pos] == list
    modifies space
    ensures ListsShow(lists, values[pos := values[pos] + [value]], space + list.Repr)
    ensures fresh(list.Repr - space)
  {
    hide LinkList.Valid;
    list.AddElement(value);
    forall b | 0 <= b < |lists| && lists[b] != null && b != pos
      ensures lists[b].Repr == old(lists[b].Repr) && lists[b].Repr !! list.Repr
      ensures lists[b].Valid() && lists[b].contents == values[b]
    {
      assert old(lists[b].Repr !! list.Repr);
    }
  }

  /** A node is an inner node with child pointers or a leaf with result lists, one slot per byte. */
  class TrieNode {
    const isLeaf: bool
    const bitmap: Bitmap
    const childPtr: array<TrieNode?>
    const resultArray: array<LinkList?<Value>>
    var elemCount: nat
    var fileOffArray: array?<nat>
    var bitPosition: array?<nat>
    ghost var view: View
    ghost var space: set<object>
    ghost var Repr: set<object>

    ghost predicate Shape()
      reads this, Repr
    {
      && this in Repr && bitmap in Repr && childPtr in Repr && resultArray in Repr && space <= Repr
      && bitmap.byteArray in Repr && bitmap.byteArray !in space
      && this !in space && bitmap !in space && childPtr !in space && resultArray !in space
      && (bitPosition != null ==> bitPosition in Repr && bitPosition !in space && bitPosition.Length == MAX_PER_NODE)
      && bitmap.Valid() && bitmap.bitSize == MAX_PER_NODE
      && elemCount == |bitmap.bits|
      && childPtr.Length == (if isLeaf then 0 else MAX_PER_NODE)
      && resultArray.Length == (if isLeaf then MAX_PER_NODE else 0)
      && bitPosition != bitmap.byteArray
      && view.bits == bitmap.bits && view.listed == (bitPosition != null) && view.accurate == CacheFresh()
    }

    /** The taken slots are those of the given bits. */
    ghost predicate Slots(bits: set<nat>)
      reads this, Repr
    {
      && childPtr in Repr && resultArray in Repr
      && (forall b :: 0 <= b < childPtr.Length ==> (childPtr[b] != null <==> b in bits))
      && (forall b :: 0 <= b < resultArray.Length ==> (resultArray[b] != null <==> b in bits))
    }

    ghost predicate Valid()
      reads this, Repr
      ensures Valid() ==>
                this in Repr && bitmap in Repr && childPtr in Repr && resultArray in Repr && bitmap.byteArray in Repr
      ensures Valid() ==> childPtr.Length == (if isLeaf then 0 else MAX_PER_NODE)
      ensures Valid() ==> resultArray.Length == (if isLeaf then MAX_PER_NODE else 0)
      ensures Valid() ==> |view.values| == resultArray.Length
    {
      && Shape() && Slots(view.bits)
      && space <= Repr && ListsShow(resultArray[..], view.values, space)
    }

    lemma HasShape()
      requires Valid()
      ensures Shape() && elemCount == |view.bits| && elemCount <= MAX_PER_NODE && space <= Repr
    {
      hide ListsShow;
      BitsFit(bitmap.bits);
    }

    /** The cached position list, if there is one, lists the current bits. */
    ghost predicate CacheFresh()
      reads this`bitPosition, bitPosition, bitmap`bits
    {
      bitPosition != null ==>
        |bitmap.bits| <= bitPosition.Length && bitPosition[..|bitmap.bits|] == Ascending(bitmap.bits, MAX_PER_NODE)
    }

    constructor (leaf: bool)
      ensures Valid() && fresh(Repr) && isLeaf == leaf && view == NewView(leaf)
    {
      isLeaf := leaf;
      bitmap := new Bitmap(MAX_PER_NODE);
      childPtr := new TrieNode?[if leaf then 0 else MAX_PER_NODE](_ => null);
      resultArray := new LinkList?<Value>[if leaf then MAX_PER_NODE else 0](_ => null);
      elemCount, fileOffArray, bitPosition, view, space := 0, null, null, NewView(leaf), {};
      new;
      hide Ascending, Bitmap.Valid, TrieNode.CacheFresh, ListsShow, TrieNode.Valid, NewView;
      Repr := {this, bitmap, bitmap.byteArray, childPtr, resultArray};
      NewIsValid();
    }

    lemma NewIsValid()
      requires Repr == {this, bitmap, bitmap.byteArray, childPtr, resultArray} && space == {} && bitPosition == null
      requires bitmap.Valid() && bitmap.bits == {} && bitmap.bitSize == MAX_PER_NODE && elemCount == 0
      requires childPtr.Length == if isLeaf then 0 else MAX_PER_NODE
      requires forall b :: 0 <= b < childPtr.Length ==> childPtr[b] == null
      requires resultArray.Length == if isLeaf then MAX_PER_NODE else 0
      requires (forall b :: 0 <= b < resultArray.Length ==> resultArray[b] == null) && view == NewView(isLeaf)
      ensures Valid()
    {
      hide Ascending, Bitmap.Valid, ListsShow;
      ListsShowNone(resultArray[..], view.values, space);
    }

    /** The list of positions has not been touched. */
    twostate predicate KeptPositions()
      reads this, bitPosition
    {
      bitPosition == old(bitPosition) && (bitPosition != null ==> bitPosition[..] == old(bitPosition[..]))
    }

    method HasChildren(pos: nat) returns (r: bool)
      requires Valid() && pos < MAX_PER_NODE
      ensures r <==> pos in view.bits
    {
      r := bitmap.GetBit(pos);
    }

    /** Links a child under a free slot. A full node refuses. */
    method AddChild(pos: nat, child: TrieNode) returns (r: int)
      requires Valid() && !isLeaf && pos < MAX_PER_NODE && (elemCount < MAX_PER_NODE ==> pos !in view.bits)
      modifies this`elemCount, this`view, childPtr, bitmap`bits, bitmap.byteArray
      ensures Valid()
      ensures r == if old(elemCount) >= MAX_PER_NODE then -1 else 0
      ensures view == if r == 0 then old(view).(bits := old(view).bits + {pos}, accurate := view.accurate)
              else old(view)
      ensures !view.listed ==> view.accurate
      ensures r == 0 && Spoils(old(view), pos) ==> !view.accurate
      ensures childPtr[..] == if r == 0 then old(childPtr[..])[pos := child] else old(childPtr[..])
    {
      if elemCount >= MAX_PER_NODE {
        return -1;
      }
      hide Bitmap.Valid, ListsShow, TrieNode.CacheFresh;
      childPtr[pos] := child;
      MarkSlot(pos);
      r := 0;
    }

    /** Appends the value to the list of the slot, which is created on first use. */
    method AddValue(pos: nat, value: Value)
      requires Valid() && isLeaf && pos < MAX_PER_NODE
      modifies Repr
      ensures Valid() && fresh(Repr - old(Repr)) && old(Repr) <= Repr
      ensures view == old(view).(bits := old(view).bits + {pos}, accurate := view.accurate,
                                 values := old(view).values[pos := old(view).values[pos] + [value]])
      ensures old(view).accurate && (!view.listed || pos in old(view).bits) ==> view.accurate
      ensures Spoils(old(view), pos) ==> !view.accurate
      ensures KeptPositions()
    {
      hide TrieNode.Valid;
      SlotIsList(pos);
      if resultArray[pos] == null {
        AddList(pos);
      }
      AppendValue(pos, value);
    }

    method AddList(pos: nat)
      requires Valid() && isLeaf && pos < MAX_PER_NODE && resultArray[pos] == null
      modifies this`elemCount, this`view, this`Repr, this`space, resultArray, bitmap`bits, bitmap.byteArray
      ensures Valid() && fresh(Repr - old(Repr)) && old(Repr) <= Repr
      ensures view == old(view).(bits := old(view).bits + {pos}, accurate := view.accurate)
      ensures !view.listed ==> view.accurate
      ensures Spoils(old(view), pos) ==> !view.accurate
      ensures resultArray[pos] != null && pos !in old(view).bits && KeptPositions()
    {
      hide LinkList.Valid, Bitmap.Valid, TrieNode.CacheFresh, ListsShow;
      ghost var lists := resultArray[..];
      var list := new LinkList<Value>();
      ListsShowNew(lists, view.values, space, pos, list);
      resultArray[pos] := list;
      assert resultArray[..] == lists[pos := list];
      space := space + list.Repr;
      Repr := Repr + list.Repr;
      MarkSlot(pos);
    }

    /** Counts the new slot and sets its bit. */
    method MarkSlot(pos: nat)
      requires Shape() && pos < MAX_PER_NODE && pos !in view.bits && Slots(view.bits + {pos})
      requires ListsShow(resultArray[..], view.values, space)
      modifies this`elemCount, this`view, bitmap`bits, bitmap.byteArray
      ensures Valid()
      ensures view == old(view).(bits := old(view).bits + {pos}, accurate := view.accurate)
      ensures !view.listed ==> view.accurate
      ensures Spoils(old(view), pos) ==> !view.accurate
    {
      hide Bitmap.Valid, ListsShow, Ascending;
      elemCount := elemCount + 1;
      if Spoils(view, pos) { SpoiledList(bitmap, bitPosition[..], pos); }
      assert |bitmap.bits + {pos}| == |bitmap.bits| + 1;
      bitmap.SetBit(pos);
      view := view.(bits := view.bits + {pos}, accurate := CacheFresh());
    }

    lemma SlotIsList(pos: nat)
      requires Valid() && isLeaf && pos < MAX_PER_NODE
      ensures resultArray[pos] != null <==> pos in view.bits
    {}

    method AppendValue(pos: nat, value: Value)
      requires Valid() && isLeaf && pos < MAX_PER_NODE && resultArray[pos] != null
      modifies Repr
      ensures Valid() && fresh(Repr - old(Repr)) && old(Repr) <= Repr
      ensures view == old(view).(values := old(view).values[pos := old(view).values[pos] + [value]])
      ensures pos in view.bits && KeptPositions()
    {
      hide LinkList.Valid, Bitmap.Valid, TrieNode.CacheFresh, ListsShow;
      AppendToList(resultArray[pos], value, resultArray[..], view.values, space, pos);
      space := space + resultArray[pos].Repr;
      Repr := Repr + resultArray[pos].Repr;
      view := view.(values := view.values[pos := view.values[pos] + [value]]);
    }

    /** The idx-th taken slot. The list of positions is computed on first use and kept; if it is out of date, the answer
        is what it has in this place. */
    method GetOnePosition(idx: nat) returns (p: nat)
      requires Shape() && idx < elemCount
      modifies this`bitPosition, this`view, this`Repr
      ensures Shape() && (old(Valid()) ==> Valid()) && view == old(view).(listed := true)
      ensures fresh(Repr - old(Repr)) && old(Repr) <= Repr
      ensures view.accurate ==>
                idx < |Ascending(view.bits, MAX_PER_NODE)| && p == Ascending(view.bits, MAX_PER_NODE)[idx]
      ensures bitPosition != null && idx < bitPosition.Length && p == bitPosition[idx]
      ensures if old(bitPosition) == null then fresh(bitPosition) else bitPosition == old(bitPosition)
    {
      BitsFit(bitmap.bits);
      hide Ascending, Bitmap.Valid, ListsShow;
      if bitPosition == null {
        GetBitPosition();
      }
      p := bitPosition[idx];
      assert view.accurate ==> bitPosition[..elemCount][idx] == p;
    }

    method GetBitPosition()
      requires Shape()
      modifies this`bitPosition, this`view, this`Repr
      ensures Shape() && (old(Valid()) ==> Valid()) && bitPosition != null && fresh(bitPosition)
      ensures view == old(view).(listed := true, accurate := true)
      ensures fresh(Repr - old(Repr)) && old(Repr) <= Repr
    {
      hide ListsShow, Ascending;
      bitPosition := new nat[MAX_PER_NODE];
      Repr := Repr + {bitPosition};
      BitsFit(bitmap.bits);
      bitmap.GetOnePosition(bitPosition);
      view := view.(listed := true, accurate := true);
    }
  }

  /** A kept list of positions that misses a new slot before its end does not list the slots any more. */
  lemma SpoiledList(bitmap: Bitmap, list: seq<nat>, pos: nat)
    requires bitmap.Valid() && bitmap.bitSize == MAX_PER_NODE
    requires |bitmap.bits| <= |list| && list[..|bitmap.bits|] == Ascending(bitmap.bits, MAX_PER_NODE)
    requires pos !in bitmap.bits && exists c :: c in bitmap.bits && pos < c
    ensures |bitmap.bits| + 1 <= |list| ==> list[..|bitmap.bits| + 1] != Ascending(bitmap.bits + {pos}, MAX_PER_NODE)
  {
    var c :| c in bitmap.bits && pos < c;
    ListedTooEarly(bitmap.bits, pos, c, MAX_PER_NODE);
  }

  lemma LeafLists(node: TrieNode, b: nat)
    requires node.Valid() && node.isLeaf && b < MAX_PER_NODE
    ensures b in node.view.bits ==>
              node.resultArray[b] != null && node.resultArray[b].Valid()
                  && node.resultArray[b].contents == node.view.values[b]
    ensures b !in node.view.bits ==> node.view.values[b] == []
  {
    assert node.resultArray[..][b] == node.resultArray[b];
  }

  function NewView(leaf: bool): View {
    View({}, false, true, seq(if leaf then MAX_PER_NODE else 0, _ => []))
  }

  /** A node with a free slot is not full. */
  lemma FreeSlot(node: TrieNode, b: nat)
    requires node.Valid() && b < MAX_PER_NODE && b !in node.view.bits
    ensures node.elemCount < MAX_PER_NODE
  {
    BitsFit(node.view.bits + {b});
  }

  lemma BitsFit(bits: set<nat>)
    requires forall b :: b in bits ==> b < MAX_PER_NODE
    ensures |bits| <= MAX_PER_NODE
  {
    AscendingCountAll(bits, MAX_PER_NODE);
    AscendingLength(bits, MAX_PER_NODE);
  }
}
