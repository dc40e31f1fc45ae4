/** What an index means: the log of (key, value) pairs added to it, and the answers a range query owes. */
module FlowLog {

  type u16 = x: nat | x < 0x1_0000
  type u32 = x: nat | x < 0x1_0000_0000

  /** The stored value: the flow's offset and its number of packets. */
  datatype Value = Value(offset: u32, packetsNum: u16)

  datatype Entry = Entry(key: nat, value: Value)

  type Log = seq<Entry>

  /** The values of one key, in insertion order. */
  function ValuesOf(log: Log, key: nat): seq<Value> {
    if log == [] then []
    else
      var last := log[|log| - 1];
      ValuesOf(log[..|log| - 1], key) + (if last.key == key then [last.value] else [])
  }

  /** The values whose key lies in [lo, hi), in insertion order. */
  function InRange(log: Log, lo: nat, hi: nat): seq<Value> {
    if log == [] then []
    else
      var last := log[|log| - 1];
      InRange(log[..|log| - 1], lo, hi) + (if lo <= last.key < hi then [last.value] else [])
  }

  /** The values whose key lies in [lo, hi), key by key. */
  function ByKey(log: Log, lo: nat, hi: nat): seq<Value>
    decreases hi
  {
    if hi <= lo then [] else ByKey(log, lo, hi - 1) + ValuesOf(log, hi - 1)
  }

  /** The number of keys in [lo, hi) with values. */
  function KeyCount(log: Log, lo: nat, hi: nat): nat
    decreases hi
  {
    if hi <= lo then 0 else KeyCount(log, lo, hi - 1) + if ValuesOf(log, hi - 1) != [] then 1 else 0
  }

  /** The logged keys in [lo, hi). */
  function KeysIn(log: Log, lo: nat, hi: nat): set<nat> {
    set e | e in log && lo <= e.key < hi :: e.key
  }

  ghost predicate OffsetSorted(vs: seq<Value>) {
    forall i, j :: 0 <= i < j < |vs| ==> vs[i].offset <= vs[j].offset
  }

  ghost predicate OffsetAscending(vs: seq<Value>) {
    forall i, j :: 0 <= i < j < |vs| ==> vs[i].offset < vs[j].offset
  }

  /** Flows are logged with offsets that never decrease. */
  ghost predicate InOrder(log: Log) {
    forall i, j :: 0 <= i < j < |log| ==> log[i].value.offset <= log[j].value.offset
  }

  /** Every flow is logged once per index, under a larger offset than all earlier flows. */
  ghost predicate StrictlyInOrder(log: Log) {
    forall i, j :: 0 <= i < j < |log| ==> log[i].value.offset < log[j].value.offset
  }

  /** The two-way merge of a key's list into the answer: on equal offsets the list goes first. */
  function Merge(list: seq<Value>, answer: seq<Value>): seq<Value>
    decreases |list| + |answer|
  {
    if list == [] then answer
    else if answer != [] && list[0].offset > answer[0].offset then [answer[0]] + Merge(list, answer[1..])
    else [list[0]] + Merge(list[1..], answer)
  }

  /** What a range query makes of an answer: the lists of the keys in [lo, hi) merged in, in key order. */
  function Absorb(log: Log, lo: nat, hi: nat, answer: seq<Value>): seq<Value>
    decreases hi
  {
    if hi <= lo then answer else Merge(ValuesOf(log, hi - 1), Absorb(log, lo, hi - 1, answer))
  }

  // ---- the log grows at its end ----

  lemma ValuesOfAppend(log: Log, e: Entry, key: nat)
    ensures ValuesOf(log + [e], key) == ValuesOf(log, key) + (if e.key == key then [e.value] else [])
  {
    assert (log + [e])[..|log|] == log;
  }

  lemma {:induction false} ValuesOfNone(log: Log, key: nat)
    ensures ValuesOf(log, key) == [] <==> forall e :: e in log ==> e.key != key
  {
    if log != [] {
      var init, last := log[..|log| - 1], log[|log| - 1];
      assert log == init + [last];
      ValuesOfNone(init, key);
    }
  }

  lemma {:induction false} ValuesOfIsInRange(log: Log, key: nat)
    ensures ValuesOf(log, key) == InRange(log, key, key + 1)
  {
    if log != [] { ValuesOfIsInRange(log[..|log| - 1], key); }
  }

  // ---- merging keeps every value and the order of offsets ----

  lemma BagOfCons<T>(x: T, xs: seq<T>)
    ensures multiset([x] + xs) == multiset{x} + multiset(xs)
  {}

  lemma BagOfHead<T>(xs: seq<T>)
    requires xs != []
    ensures multiset(xs) == multiset{xs[0]} + multiset(xs[1..])
  {
    assert xs == [xs[0]] + xs[1..];
  }

  lemma MergeStep(list: seq<Value>, answer: seq<Value>)
    requires list != []
    ensures Merge(list, answer) ==
              if answer != [] && list[0].offset > answer[0].offset then [answer[0]] + Merge(list, answer[1..])
              else [list[0]] + Merge(list[1..], answer)
  {}

  lemma {:induction false} MergeMultiset(list: seq<Value>, answer: seq<Value>)
    ensures multiset(Merge(list, answer)) == multiset(list) + multiset(answer)
    decreases |list| + |answer|
  {
    if list != [] {
      MergeStep(list, answer);
      hide Merge;
      if answer != [] && list[0].offset > answer[0].offset {
        MergeMultiset(list, answer[1..]);
        BagOfCons(answer[0], Merge(list, answer[1..]));
        BagOfHead(answer);
      } else {
        MergeMultiset(list[1..], answer);
        BagOfCons(list[0], Merge(list[1..], answer));
        BagOfHead(list);
      }
    }
  }

  lemma {:induction false} MergeSorted(list: seq<Value>, answer: seq<Value>)
    requires OffsetSorted(list) && OffsetSorted(answer)
    ensures OffsetSorted(Merge(list, answer))
    ensures Merge(list, answer) != [] ==>
              Merge(list, answer)[0].offset
                  == (if list == [] then answer[0].offset else if answer == [] then list[0].offset
                                                else if list[0].offset <= answer[0].offset then list[0].offset
                                                    else answer[0].offset)
    decreases |list| + |answer|
  {
    if list != [] {
      if answer != [] && list[0].offset > answer[0].offset {
        MergeSorted(list, answer[1..]);
      } else {
        MergeSorted(list[1..], answer);
      }
    }
  }

  lemma {:induction false} InRangeSplit(log: Log, lo: nat, hi: nat)
    requires lo < hi
    ensures multiset(InRange(log, lo, hi)) == multiset(InRange(log, lo, hi - 1)) + multiset(ValuesOf(log, hi - 1))
  {
    if log != [] { InRangeSplit(log[..|log| - 1], lo, hi); }
  }

  lemma {:induction false} InRangeEmpty(log: Log, lo: nat, hi: nat)
    requires hi <= lo
    ensures InRange(log, lo, hi) == []
  {
    if log != [] { InRangeEmpty(log[..|log| - 1], lo, hi); }
  }

  lemma Regroup<T>(merged: multiset<T>, list: multiset<T>, before: multiset<T>, inner: multiset<T>, answer: multiset<T>)
    requires merged == list + before && before == inner + answer
    ensures merged == inner + list + answer
  {}

  lemma BagOfConcat<T>(xs: seq<T>, ys: seq<T>)
    ensures multiset(xs + ys) == multiset(xs) + multiset(ys)
  {}

  lemma AbsorbStep(log: Log, lo: nat, hi: nat, answer: seq<Value>)
    requires lo < hi
    ensures multiset(Absorb(log, lo, hi, answer))
            == multiset(ValuesOf(log, hi - 1)) + multiset(Absorb(log, lo, hi - 1, answer))
  {
    hide Merge, ValuesOf;
    MergeMultiset(ValuesOf(log, hi - 1), Absorb(log, lo, hi - 1, answer));
  }

  lemma AbsorbOne(log: Log, lo: nat, hi: nat, answer: seq<Value>)
    requires lo < hi
    requires multiset(Absorb(log, lo, hi - 1, answer)) == multiset(InRange(log, lo, hi - 1)) + multiset(answer)
    ensures multiset(Absorb(log, lo, hi, answer)) == multiset(InRange(log, lo, hi)) + multiset(answer)
  {
    AbsorbStep(log, lo, hi, answer);
    InRangeSplit(log, lo, hi);
    hide *;
    Regroup(multiset(Absorb(log, lo, hi, answer)), multiset(ValuesOf(log, hi - 1)),
            multiset(Absorb(log, lo, hi - 1, answer)),
            multiset(InRange(log, lo, hi - 1)), multiset(answer));
  }

  lemma AbsorbEmpty(log: Log, lo: nat, hi: nat, answer: seq<Value>)
    requires hi <= lo
    ensures multiset(Absorb(log, lo, hi, answer)) == multiset(InRange(log, lo, hi)) + multiset(answer)
  {
    InRangeEmpty(log, lo, hi);
    hide InRange;
  }

  lemma {:induction false} AbsorbMultiset(log: Log, lo: nat, hi: nat, answer: seq<Value>)
    ensures multiset(Absorb(log, lo, hi, answer)) == multiset(InRange(log, lo, hi)) + multiset(answer)
    decreases hi
  {
    hide Absorb, InRange;
    if hi <= lo {
      AbsorbEmpty(log, lo, hi, answer);
    } else {
      AbsorbMultiset(log, lo, hi - 1, answer);
      AbsorbOne(log, lo, hi, answer);
    }
  }

  lemma {:induction false} InRangeSorted(log: Log, lo: nat, hi: nat)
    requires InOrder(log)
    ensures OffsetSorted(InRange(log, lo, hi))
    ensures StrictlyInOrder(log) ==> OffsetAscending(InRange(log, lo, hi))
  {
    if log != [] {
      var init := log[..|log| - 1];
      InRangeSorted(init, lo, hi);
      forall i | 0 <= i < |InRange(init, lo, hi)|
        ensures InRange(init, lo, hi)[i].offset <= log[|log| - 1].value.offset
        ensures StrictlyInOrder(log) ==> InRange(init, lo, hi)[i].offset < log[|log| - 1].value.offset
      {
        var k := LoggedAt(init, lo, hi, i);
      }
    }
  }

  lemma {:induction false} LoggedAt(log: Log, lo: nat, hi: nat, i: nat) returns (k: nat)
    requires i < |InRange(log, lo, hi)|
    ensures k < |log| && log[k].value == InRange(log, lo, hi)[i] && lo <= log[k].key < hi
  {
    var init := log[..|log| - 1];
    if i < |InRange(init, lo, hi)| {
      k := LoggedAt(init, lo, hi, i);
    } else {
      k := |log| - 1;
    }
  }

  lemma ValuesSorted(log: Log, key: nat)
    requires InOrder(log)
    ensures OffsetSorted(ValuesOf(log, key))
  {
    ValuesOfIsInRange(log, key);
    InRangeSorted(log, key, key + 1);
  }

  lemma {:induction false} AbsorbSorted(log: Log, lo: nat, hi: nat, answer: seq<Value>)
    requires InOrder(log) && OffsetSorted(answer)
    ensures OffsetSorted(Absorb(log, lo, hi, answer))
    decreases hi
  {
    hide OffsetSorted, InRange, ValuesOf, InOrder, StrictlyInOrder, OffsetAscending, Merge;
    if lo < hi {
      AbsorbSorted(log, lo, hi - 1, answer);
      ValuesSorted(log, hi - 1);
      MergeSorted(ValuesOf(log, hi - 1), Absorb(log, lo, hi - 1, answer));
    }
  }

  lemma BagOfRest<T>(xs: seq<T>)
    requires xs != []
    ensures multiset(xs[1..]) == multiset(xs) - multiset{xs[0]} && xs[0] in multiset(xs)
  {
    assert xs == [xs[0]] + xs[1..];
  }

  lemma HeadAndRest<T>(xs: seq<T>, ys: seq<T>)
    requires xs != [] && ys != [] && xs[0] == ys[0] && xs[1..] == ys[1..]
    ensures xs == ys
  {
    assert xs == [xs[0]] + xs[1..] && ys == [ys[0]] + ys[1..];
  }

  lemma SameRest(xs: seq<Value>, ys: seq<Value>)
    requires xs != [] && ys != [] && xs[0] == ys[0]
    requires OffsetSorted(xs) && OffsetAscending(ys) && multiset(xs) == multiset(ys)
    ensures OffsetSorted(xs[1..]) && OffsetAscending(ys[1..]) && multiset(xs[1..]) == multiset(ys[1..])
  {
    BagOfRest(xs);
    BagOfRest(ys);
  }

  lemma SameHead(xs: seq<Value>, ys: seq<Value>)
    requires xs != [] && ys != []
    requires OffsetSorted(xs) && OffsetAscending(ys) && multiset(xs) == multiset(ys)
    ensures xs[0] == ys[0]
  {
    assert xs[0] in multiset(xs) && ys[0] in multiset(ys);
    var i :| 0 <= i < |ys| && ys[i] == xs[0];
    var j :| 0 <= j < |xs| && xs[j] == ys[0];
  }

  lemma BagSize<T>(xs: seq<T>, ys: seq<T>)
    requires multiset(xs) == multiset(ys)
    ensures |xs| == |ys|
  {
    assert |multiset(xs)| == |xs| && |multiset(ys)| == |ys|;
  }

  /** A list sorted by offset is determined by its values when their offsets are distinct. */
  lemma {:induction false} SortedUnique(xs: seq<Value>, ys: seq<Value>)
    requires OffsetSorted(xs) && OffsetAscending(ys) && multiset(xs) == multiset(ys)
    ensures xs == ys
  {
    hide OffsetSorted, OffsetAscending;
    BagSize(xs, ys);
    if ys != [] {
      SameHead(xs, ys);
      SameRest(xs, ys);
      SortedUnique(xs[1..], ys[1..]);
      HeadAndRest(xs, ys);
    }
  }

  /** With one offset per flow, merging the lists of a key range gives the matching flows in the order they were
      logged. */
  lemma AbsorbIsInRange(log: Log, lo: nat, hi: nat)
    requires StrictlyInOrder(log)
    ensures Absorb(log, lo, hi, []) == InRange(log, lo, hi)
  {
    AbsorbMultiset(log, lo, hi, []);
    AbsorbSorted(log, lo, hi, []);
    InRangeSorted(log, lo, hi);
    SortedUnique(Absorb(log, lo, hi, []), InRange(log, lo, hi));
  }

  lemma ByKeySplit(log: Log, lo: nat, hi: nat)
    requires lo < hi
    ensures multiset(ByKey(log, lo, hi)) == multiset(ByKey(log, lo, hi - 1)) + multiset(ValuesOf(log, hi - 1))
  {
    hide ValuesOf;
    BagOfConcat(ByKey(log, lo, hi - 1), ValuesOf(log, hi - 1));
  }

  /** Key order and log order hold the same values. */
  lemma {:induction false} ByKeyMultiset(log: Log, lo: nat, hi: nat)
    ensures multiset(ByKey(log, lo, hi)) == multiset(InRange(log, lo, hi))
    decreases hi
  {
    hide InRange, ValuesOf;
    if hi <= lo {
      InRangeEmpty(log, lo, hi);
    } else {
      ByKeyMultiset(log, lo, hi - 1);
      InRangeSplit(log, lo, hi);
      ByKeySplit(log, lo, hi);
    }
  }

  /** Keys without values do not change an answer. */
  lemma {:induction false} AbsorbGap(log: Log, lo: nat, mid: nat, hi: nat, answer: seq<Value>)
    requires mid <= hi && forall k :: mid <= k < hi ==> ValuesOf(log, k) == []
    ensures Absorb(log, lo, hi, answer) == Absorb(log, lo, mid, answer)
    decreases hi
  {
    if mid < hi { AbsorbGap(log, lo, mid, hi - 1, answer); }
  }

  lemma AbsorbNone(log: Log, lo: nat, hi: nat, answer: seq<Value>)
    requires hi <= lo
    ensures Absorb(log, lo, hi, answer) == answer
  {}

  lemma {:induction false} AbsorbCompose(log: Log, lo: nat, mid: nat, hi: nat, answer: seq<Value>)
    requires lo <= mid <= hi
    ensures Absorb(log, mid, hi, Absorb(log, lo, mid, answer)) == Absorb(log, lo, hi, answer)
    decreases hi
  {
    if mid < hi { AbsorbCompose(log, lo, mid, hi - 1, answer); }
  }

  lemma {:induction false} ByKeyGap(log: Log, lo: nat, mid: nat, hi: nat)
    requires mid <= hi && forall k :: mid <= k < hi ==> ValuesOf(log, k) == []
    ensures ByKey(log, lo, hi) == ByKey(log, lo, mid)
    decreases hi
  {
    if mid < hi { ByKeyGap(log, lo, mid, hi - 1); }
  }

  lemma {:induction false} ByKeyCompose(log: Log, lo: nat, mid: nat, hi: nat)
    requires lo <= mid <= hi
    ensures ByKey(log, lo, mid) + ByKey(log, mid, hi) == ByKey(log, lo, hi)
    decreases hi
  {
    if mid < hi { ByKeyCompose(log, lo, mid, hi - 1); }
  }

  lemma ByKeyNone(log: Log, lo: nat, hi: nat)
    requires hi <= lo
    ensures ByKey(log, lo, hi) == []
  {}

  /** Leading keys without values do not change the answer. */
  lemma ByKeySkip(log: Log, lo: nat, mid: nat, hi: nat)
    requires lo <= mid <= hi && forall k :: lo <= k < mid ==> ValuesOf(log, k) == []
    ensures ByKey(log, lo, hi) == ByKey(log, mid, hi)
  {
    ByKeyGap(log, lo, lo, mid);
    ByKeyNone(log, lo, lo);
    ByKeyCompose(log, lo, mid, hi);
  }

  lemma ByKeyStep(log: Log, lo: nat, key: nat)
    requires lo <= key
    ensures ByKey(log, lo, key + 1) == ByKey(log, lo, key) + ValuesOf(log, key)
  {}

  // ---- the order of values with equal offsets ----

  /** The values with an offset, in order. */
  function WithOffset(vs: seq<Value>, offset: nat): seq<Value> {
    if vs == [] then [] else (if vs[0].offset == offset then [vs[0]] else []) + WithOffset(vs[1..], offset)
  }

  /** The values with an offset of the keys in [lo, hi), those of larger keys first, and of one key in insertion
      order. */
  function LargestFirst(log: Log, lo: nat, hi: nat, offset: nat): seq<Value>
    decreases hi
  {
    if hi <= lo then [] else WithOffset(ValuesOf(log, hi - 1), offset) + LargestFirst(log, lo, hi - 1, offset)
  }

  lemma {:induction false} NoneWithOffset(vs: seq<Value>, offset: nat)
    requires forall i :: 0 <= i < |vs| ==> vs[i].offset != offset
    ensures WithOffset(vs, offset) == []
  {
    if vs != [] { NoneWithOffset(vs[1..], offset); }
  }

  function HeadWith(v: Value, offset: nat): seq<Value> {
    if v.offset == offset then [v] else []
  }

  lemma WithOffsetCons(v: Value, vs: seq<Value>, offset: nat)
    ensures WithOffset([v] + vs, offset) == HeadWith(v, offset) + WithOffset(vs, offset)
  {
    assert ([v] + vs)[1..] == vs;
  }

  lemma ConcatAssoc<T>(x: seq<T>, y: seq<T>, z: seq<T>)
    ensures x + (y + z) == (x + y) + z
  {}

  lemma ConcatNone<T>(x: seq<T>)
    ensures [] + x == x && x + [] == x
  {}

  lemma SortedRest(vs: seq<Value>)
    requires OffsetSorted(vs) && vs != []
    ensures OffsetSorted(vs[1..]) && forall i :: 0 <= i < |vs| ==> vs[0].offset <= vs[i].offset
  {}

  /** A value in front of both: the next value of the answer has a smaller offset than all of the list. */
  lemma TiesOfAnswer(list: seq<Value>, answer: seq<Value>, rest: seq<Value>, offset: nat)
    requires list != [] && answer != [] && list[0].offset > answer[0].offset && OffsetSorted(list)
    requires WithOffset(rest, offset) == WithOffset(list, offset) + WithOffset(answer[1..], offset)
    ensures WithOffset([answer[0]] + rest, offset) == WithOffset(list, offset) + WithOffset(answer, offset)
  {
    SortedRest(list);
    var head := HeadWith(answer[0], offset);
    WithOffsetCons(answer[0], rest, offset);
    WithOffsetCons(answer[0], answer[1..], offset);
    assert answer == [answer[0]] + answer[1..];
    if answer[0].offset == offset { NoneWithOffset(list, offset); }
    hide WithOffset;
    ConcatNone(WithOffset(rest, offset));
    ConcatNone(WithOffset(answer[1..], offset));
    ConcatNone(WithOffset(answer, offset));
  }

  lemma TiesOfList(list: seq<Value>, answer: seq<Value>, rest: seq<Value>, offset: nat)
    requires list != [] && WithOffset(rest, offset) == WithOffset(list[1..], offset) + WithOffset(answer, offset)
    ensures WithOffset([list[0]] + rest, offset) == WithOffset(list, offset) + WithOffset(answer, offset)
  {
    WithOffsetCons(list[0], rest, offset);
    WithOffsetCons(list[0], list[1..], offset);
    assert list == [list[0]] + list[1..];
    hide WithOffset;
    ConcatAssoc(HeadWith(list[0], offset), WithOffset(list[1..], offset), WithOffset(answer, offset));
  }

  /** On equal offsets the values of the list go in front of those of the answer. */
  lemma {:induction false} MergeTies(list: seq<Value>, answer: seq<Value>, offset: nat)
    requires OffsetSorted(list) && OffsetSorted(answer)
    ensures WithOffset(Merge(list, answer), offset) == WithOffset(list, offset) + WithOffset(answer, offset)
    decreases |list| + |answer|
  {
    if list == [] {
      ConcatNone(WithOffset(answer, offset));
    } else {
      MergeStep(list, answer);
      SortedRest(list);
      if answer != [] { SortedRest(answer); }
      hide Merge, OffsetSorted, WithOffset;
      if answer != [] && list[0].offset > answer[0].offset {
        MergeTies(list, answer[1..], offset);
        TiesOfAnswer(list, answer, Merge(list, answer[1..]), offset);
      } else {
        MergeTies(list[1..], answer, offset);
        TiesOfList(list, answer, Merge(list[1..], answer), offset);
      }
    }
  }

  /** Of values with equal offsets, those of larger keys come first. */
  lemma {:induction false} AbsorbTies(log: Log, lo: nat, hi: nat, offset: nat)
    requires InOrder(log)
    ensures WithOffset(Absorb(log, lo, hi, []), offset) == LargestFirst(log, lo, hi, offset)
    decreases hi
  {
    if lo < hi {
      AbsorbTies(log, lo, hi - 1, offset);
      AbsorbOneTie(log, lo, hi, offset);
    }
  }

  lemma AbsorbOneTie(log: Log, lo: nat, hi: nat, offset: nat)
    requires InOrder(log) && lo < hi
    ensures WithOffset(Absorb(log, lo, hi, []), offset)
            == WithOffset(ValuesOf(log, hi - 1), offset) + WithOffset(Absorb(log, lo, hi - 1, []), offset)
  {
    hide Merge, ValuesOf, WithOffset, InOrder, OffsetSorted;
    ValuesSorted(log, hi - 1);
    NothingSorted();
    AbsorbSorted(log, lo, hi - 1, []);
    MergeTies(ValuesOf(log, hi - 1), Absorb(log, lo, hi - 1, []), offset);
  }

  lemma NothingSorted()
    ensures OffsetSorted([])
  {}

  // ---- counting keys ----

  lemma {:induction false} KeyCountIs(log: Log, lo: nat, hi: nat)
    ensures KeyCount(log, lo, hi) == |KeysIn(log, lo, hi)|
    decreases hi
  {
    if hi <= lo {
      assert KeysIn(log, lo, hi) == {};
    } else {
      KeyCountIs(log, lo, hi - 1);
      hide ValuesOf;
      ValuesOfNone(log, hi - 1);
      if ValuesOf(log, hi - 1) != [] {
        assert KeysIn(log, lo, hi) == KeysIn(log, lo, hi - 1) + {hi - 1};
      } else {
        assert KeysIn(log, lo, hi) == KeysIn(log, lo, hi - 1);
      }
    }
  }

  lemma KeyCountNone(log: Log, lo: nat, hi: nat)
    requires hi <= lo
    ensures KeyCount(log, lo, hi) == 0
  {}

  lemma {:induction false} KeyCountGap(log: Log, lo: nat, mid: nat, hi: nat)
    requires mid <= hi && forall k :: mid <= k < hi ==> ValuesOf(log, k) == []
    ensures KeyCount(log, lo, hi) == KeyCount(log, lo, mid)
    decreases hi
  {
    if mid < hi { KeyCountGap(log, lo, mid, hi - 1); }
  }

  lemma KeyCountStep(log: Log, lo: nat, key: nat)
    requires lo <= key && ValuesOf(log, key) != []
    ensures KeyCount(log, lo, key + 1) == KeyCount(log, lo, key) + 1
  {}

  lemma {:induction false} KeyCountCompose(log: Log, lo: nat, mid: nat, hi: nat)
    requires lo <= mid <= hi
    ensures KeyCount(log, lo, mid) + KeyCount(log, mid, hi) == KeyCount(log, lo, hi)
    decreases hi
  {
    if mid < hi { KeyCountCompose(log, lo, mid, hi - 1); }
  }
}
