/** Inputs on which the code does not do what one would expect of it. */
module Failures {
  import opened Enumerate
  import opened Filters
  import opened FlowLog
  import opened Indexes
  import opened ListFiles
  import opened NodeFiles
  import opened OffsetsResults
  import opened Radix
  import opened SkipLists
  import opened Storages
  import opened TrieNodes
  import opened TrieImages
  import opened TriePaths
  import opened TrieQueries
  import opened TrieReads
  import opened TrieWriters
  import opened Words
  import opened WriteFlags

  /** Two ports that lie below different leaves. */
  const TWO_LEAVES: Log := [Entry(400, Value(1, 0)), Entry(600, Value(2, 0))]

  lemma SmallLog(log: Log)
    requires |log| <= 3 && forall e :: e in log ==> e.key < 0x1_0000
    ensures KeysFit(log, 2) && ShortLists(log) && (1 + |log| * 2) * NodeBound(log) < WORD
  {
    hide ValuesOf;
    Pow256Values();
    forall e | e in log ensures |ValuesOf(log, e.key)| < SPAN { ValuesBound(log, e.key); }
    TimesMonotone(1 + |log| * 2, 7, NodeBound(log));
  }

  /** The values of a log of two keys. */
  lemma TwoKeys(first: Entry, second: Entry)
    requires first.key < second.key < 0x1_0000 && first.value.offset < second.value.offset
    ensures var log := [first, second];
            && KeysFit(log, 2) && StrictlyInOrder(log) && ShortLists(log) && (1 + |log| * 2) * NodeBound(log) < WORD
            && (forall k: nat :: ValuesOf(log, k) == if k == first.key then [first.value]
                                                     else if k == second.key then [second.value] else [])
  {
    SmallLog([first, second]);
    assert [first, second] == [first] + [second] && [first] == [] + [first];
    forall k: nat
      ensures ValuesOf([first, second], k) == if k == first.key then [first.value]
                                              else if k == second.key then [second.value] else []
    {
      ValuesOfAppend([first], second, k);
      ValuesOfAppend([], first, k);
    }
  }

  lemma TwoLeaves()
    ensures !KeyBefore(TWO_LEAVES, 300) && |Reach(TWO_LEAVES, 2, 300, 600)| >= 2
  {
    hide Reach, ValuesOf;
    TwoKeys(TWO_LEAVES[0], TWO_LEAVES[1]);
    BothLeaves(TWO_LEAVES, 300, 600, 400, 600);
  }

  /** Two leaves with keys in range are both in reach. */
  lemma BothLeaves(log: Log, begin: nat, end: nat, k: nat, l: nat)
    requires begin <= k <= end && begin <= l <= end && k / 256 != l / 256 && ValuesOf(log, k) != []
             && ValuesOf(log, l) != []
    ensures |Reach(log, 2, begin, end)| >= 2
  {
    hide Reach, ValuesOf;
    var i := InSomeLeaf(log, 2, begin, end, k);
    var j := InSomeLeaf(log, 2, begin, end, l);
  }

  /** A query of the file over two leaves misses what the query of the memory finds. */
  method QueryTwoLeaves(stray: u32) returns (fromMem: seq<Value>, fromFile: seq<Value>)
    ensures multiset(fromMem) == multiset(ByKey(TWO_LEAVES, 300, 601)) && fromFile != ByKey(TWO_LEAVES, 300, 601)
  {
    hide ByKey, Absorb, StrictlyInOrder, Reach, KeyBefore, ShortLists, NodeBound, InRange, KeysFit, ValuesOf;
    TwoKeys(TWO_LEAVES[0], TWO_LEAVES[1]);
    TwoLeaves();
    Pow256Values();
    var image;
    fromMem, image, fromFile := QueryBoth(2, TWO_LEAVES, 300, 600, stray);
    TrieReads.SameValues(TWO_LEAVES, 300, 600);
  }

  /** Three ports below two leaves. */
  const THREE_KEYS: Log := [Entry(0, Value(1, 0)), Entry(512, Value(2, 0)), Entry(513, Value(3, 0))]

  lemma ThreeKeys()
    ensures forall k: nat :: ValuesOf(THREE_KEYS, k) == if k == 0 then [Value(1, 0)] else if k == 512 then [Value(2, 0)]
                                                        else if k == 513 then [Value(3, 0)] else []
    ensures KeysFit(THREE_KEYS, 2) && ShortLists(THREE_KEYS) && (1 + |THREE_KEYS| * 2) * NodeBound(THREE_KEYS) < WORD
  {
    SmallLog(THREE_KEYS);
    var a, b, c := THREE_KEYS[0], THREE_KEYS[1], THREE_KEYS[2];
    assert THREE_KEYS == [a, b] + [c] && [a, b] == [a] + [b] && [a] == [] + [a];
    forall k: nat
      ensures ValuesOf(THREE_KEYS, k) == if k == 0 then [Value(1, 0)] else if k == 512 then [Value(2, 0)]
                                         else if k == 513 then [Value(3, 0)] else []
    {
      ValuesOfAppend([a, b], c, k);
      ValuesOfAppend([a], b, k);
      ValuesOfAppend([], a, k);
    }
  }

  /** The last leaf holds the two larger keys. */
  lemma LastOfThree()
    ensures |Reach(THREE_KEYS, 2, 0, 767)| >= 2 && LastLeaf(THREE_KEYS, 2, 0, 767) == Id(1, 2)
    ensures |SlotsOf(THREE_KEYS, 2, Id(1, 2))| == 2
    ensures SlotValues(THREE_KEYS, 2, Id(1, 2), 2) == [Value(2, 0), Value(3, 0)]
    ensures |KeysIn(THREE_KEYS, 0, 768)| == 3 && NothingBehind(THREE_KEYS, 2)
  {
    hide Reach, ValuesOf, SlotsOf, SlotValues, KeyCount, ByKey;
    ThreeKeys();
    BothLeaves(THREE_KEYS, 0, 767, 0, 512);
    var last := |Reach(THREE_KEYS, 2, 0, 767)| - 1;
    var m := InSomeLeaf(THREE_KEYS, 2, 0, 767, 512);
    ReachIs(THREE_KEYS, 2, 0, 767, m);
    ReachIs(THREE_KEYS, 2, 0, 767, last);
    SlotValuesAre(THREE_KEYS, 2, Id(1, 2), 768);
    CountOfThree();
    hide KeysIn;
    EndOfSlots(THREE_KEYS, 2, Id(1, 2), 2);
  }

  lemma CountOfThree()
    ensures KeyCount(THREE_KEYS, 512, 768) == 2 && |KeysIn(THREE_KEYS, 0, 768)| == 3
    ensures ByKey(THREE_KEYS, 512, 768) == [Value(2, 0), Value(3, 0)]
  {
    hide ValuesOf, KeyCount, ByKey, KeysIn;
    ThreeKeys();
    KeyCountIs(THREE_KEYS, 0, 768);
    KeyCountNone(THREE_KEYS, 0, 0);
    KeyCountStep(THREE_KEYS, 0, 0);
    KeyCountGap(THREE_KEYS, 0, 1, 512);
    KeyCountNone(THREE_KEYS, 512, 512);
    KeyCountStep(THREE_KEYS, 512, 512);
    KeyCountStep(THREE_KEYS, 512, 513);
    KeyCountGap(THREE_KEYS, 512, 514, 768);
    KeyCountCompose(THREE_KEYS, 0, 512, 768);
    ByKeyNone(THREE_KEYS, 512, 512);
    ByKeyStep(THREE_KEYS, 512, 512);
    ByKeyStep(THREE_KEYS, 512, 513);
    ByKeyGap(THREE_KEYS, 512, 514, 768);
  }

  /** No slot lies behind the keys of a leaf. */
  lemma EndOfSlots(log: Log, d: nat, id: Id, pos: nat)
    requires StartsAt(SlotsOf(log, d, id), 256 * id.prefix, 256 * id.prefix + MAX_PER_NODE, pos)
    ensures pos == |SlotsOf(log, d, id)|
  {
    hide SlotsOf;
    if pos < |SlotsOf(log, d, id)| { SlotBound(log, d, id, pos); }
  }

  /** All leaves in reach read on from the last one's lists: the flow of key 0 is missed, the others are found. */
  method QueryThreeKeys(stray: u32) returns (fromFile: seq<Value>)
    ensures fromFile == [Value(2, 0), Value(3, 0)]
  {
    hide ByKey, Absorb, StrictlyInOrder, Reach, KeyBefore, Straddled, ShortLists, NodeBound, InRange, KeysFit, ValuesOf,
         SlotsOf, SlotValues, KeysIn, NothingBehind;
    ThreeKeys();
    LastOfThree();
    Pow256Values();
    FromLeafStart(THREE_KEYS, 0);
    NotStraddled(THREE_KEYS, 0);
    var fromMem, image;
    fromMem, image, fromFile := QueryBoth(2, THREE_KEYS, 0, 767, stray);
  }

  /** Two ports, of which the first lies before the range, but in the leaf of its begin. */
  const ONE_BEFORE: Log := [Entry(5, Value(1, 0)), Entry(300, Value(2, 0))]

  lemma OneBefore()
    ensures KeyBefore(ONE_BEFORE, 10) && !HasFrom(ONE_BEFORE, 10, 0) && |Reach(ONE_BEFORE, 2, 10, 400)| >= 2
    ensures OnlyLastLeaf(ONE_BEFORE, 2, 10, 400) && ByKey(ONE_BEFORE, 10, 401) != []
  {
    hide Reach, ValuesOf, OnlyLastLeaf, ByKey;
    TwoKeys(ONE_BEFORE[0], ONE_BEFORE[1]);
    var i := InSomeLeaf(ONE_BEFORE, 2, 10, 400, 300);
    assert ValuesOf(ONE_BEFORE, 5) != [] && 5 / 256 == 10 / 256;
    LeafOfBegin(ONE_BEFORE, 2, 10, 400);
    OnlyLeafOf(ONE_BEFORE, 10, 400, 300);
    ByKeyHas(ONE_BEFORE, 10, 401, 300);
  }

  /** If only one key is in range, it is below the last leaf as soon as that is so of the end. */
  lemma OnlyLeafOf(log: Log, begin: nat, end: nat, key: nat)
    requires begin <= key <= end && key / 256 == end / 256 && ValuesOf(log, key) != []
    requires forall k :: begin <= k <= end && ValuesOf(log, k) != [] ==> k == key
    ensures OnlyLastLeaf(log, 2, begin, end)
  {
    hide Reach, ValuesOf;
    var m := InSomeLeaf(log, 2, begin, end, key);
    ReachIs(log, 2, begin, end, m);
    ReachIs(log, 2, begin, end, |Reach(log, 2, begin, end)| - 1);
  }

  /** Whether the same query of the same file is right depends on the number behind an offset array in memory. */
  method QueryOneBefore() returns (withZero: seq<Value>, withMost: seq<Value>)
    ensures withZero == ByKey(ONE_BEFORE, 10, 401) != withMost
  {
    hide ByKey, Absorb, StrictlyInOrder, OnlyLastLeaf, Reach, Straddled, KeyBefore, HasFrom, ShortLists, NodeBound,
         InRange,
         KeysFit, ValuesOf;
    TwoKeys(ONE_BEFORE[0], ONE_BEFORE[1]);
    OneBefore();
    Pow256Values();
    var fromMem, image;
    fromMem, image, withZero := QueryBoth(2, ONE_BEFORE, 10, 400, 0);
    fromMem, image, withMost := QueryBoth(2, ONE_BEFORE, 10, 400, 0xffff_ffff);
  }

  /** A leaf that lists its slots and then takes an earlier one answers with the old list: the slot 3 is missed. */
  method StaleList(value: Value) returns (before: nat, after: nat)
    ensures before == after == 5
  {
    hide TrieNode.Valid, TrieNode.Shape, TrieNode.CacheFresh, Ascending;
    var node := new TrieNode(true);
    node.AddValue(5, value);
    node.HasShape();
    assert node.view.bits == {5} && |node.view.bits| == 1;
    before := node.GetOnePosition(0);
    SlotInBits({5}, 0);
    assert Spoils(node.view, 3) by { assert 5 in node.view.bits; }
    node.AddValue(3, value);
    node.HasShape();
    assert node.view.bits == {3, 5} && |node.view.bits| == 2;
    after := node.GetOnePosition(0);
    assert !node.view.accurate;
  }

  function FromPort(port: u16): Ipv4Record {
    Ipv4Record(0, 0, port, 0, 0, 0)
  }

  const EITHER_PORT: Expr := Or(One(SportIs(1)), SportIs(2))

  /** OR drops the second of two flows, though the filter selects both. */
  method SecondFlow(clock: u32) returns (answer: seq<Value>)
    ensures forall id: nat :: HasOffset(answer, id) <==> id == 1
    ensures forall id: nat :: Selected(EITHER_PORT, [FromPort(1), FromPort(2)], id) <==> id == 1 || id == 2
  {
    var records := [FromPort(1), FromPort(2)];
    answer := StoreAndFilter(records, clock, EITHER_PORT);
    OnePort(records, 1);
    OnePort(records, 2);
    assert Found(EITHER_PORT, records) == {0} by {
      assert Reaches({0}, 0) && Reaches({1}, 0) && !Reaches({0}, 1);
    }
    hide HasOffset, Found;
  }

  lemma OnePort(records: seq<Ipv4Record>, port: u16)
    requires records == [FromPort(1), FromPort(2)] && 1 <= port <= 2
    ensures FoundBy(SportIs(port), records) == {port - 1} && SelectedBy(One(SportIs(port)), records) == {port - 1}
  {}

  /** A request that arrives while the index of a thread has been written, but its bit not yet been reset, is lost; so
      is what was staged when the index was written. */
  lemma LostRequest(mask: nat, k: nat, e: Entry) returns (run: seq<Action>)
    requires k < 6 && Bit(mask, k)
    ensures Runs(Start(mask), run) && Enabled(After(Start(mask), run), SetFlag) && !Honoured(After(Start(mask), run), k)
    ensures After(Start(mask), run).threads[k].lost == [e]
  {
    hide Bit, Words.And, Xor, Pow2, Runs, After, Honoured;
    var s := Start(mask);
    var s1 := Next(s, SetFlag);
    var s2 := Next(s1, Build(k));
    var s3 := Next(s2, Add(k, e));
    AndMask(mask, k);
    var s4 := Next(s3, Check(k));
    var s5 := Next(s4, Write(k));
    NoSteps(s5);
    StepBefore(s4, Write(k), []);
    var r4 := [Write(k)] + [];
    StepBefore(s3, Check(k), r4);
    var r3 := [Check(k)] + r4;
    StepBefore(s2, Add(k, e), r3);
    var r2 := [Add(k, e)] + r3;
    StepBefore(s1, Build(k), r2);
    var r1 := [Build(k)] + r2;
    StepBefore(s, SetFlag, r1);
    run := [SetFlag] + r1;
    StartSafe(mask);
    RunSafe(s, run);
    RequestHonoured(s5, k);
  }

  lemma NoSteps(s: State)
    ensures Runs(s, []) && After(s, []) == s
  {}

  lemma StepBefore(s: State, a: Action, rest: seq<Action>)
    requires Enabled(s, a) && Runs(Next(s, a), rest)
    ensures Runs(s, [a] + rest) && After(s, [a] + rest) == After(Next(s, a), rest)
  {
    assert ([a] + rest)[1..] == rest;
  }

  /** merge leaves the tail of the first list where it was, though the other list ends behind it. */
  method LeftTail() returns (list: SkipList)
    ensures list.Chained() && |list.nodes| == 2 && list.tail == list.nodes[0]
  {
    hide Linked, Skips;
    list := new SkipList();
    list.AddElement(1);
    var other := new SkipList();
    other.AddElement(2);
    list.Merge(other);
  }
}
