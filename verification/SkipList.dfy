/** The singly linked list with skip pointers: one element per node, merged and intersected by relinking its nodes. */
module SkipLists {

  const SKIP_NUM: nat := 200

  class Node {
    const data: nat
    var next: Node?
    var skip: Node?

    constructor (value: nat)
      ensures data == value && next == null && skip == null
    {
      data, next, skip := value, null, null;
    }
  }

  /** The nodes are linked in order and each occurs once. */
  ghost predicate Linked(nodes: seq<Node>)
    reads (set n | n in nodes)`next
  {
    && (forall k :: 0 <= k < |nodes| ==> nodes[k].next == NodeAt(nodes, k + 1))
    && (forall j, k :: 0 <= j < k < |nodes| ==> nodes[j] != nodes[k])
  }

  /** The skip pointer of every node leads SKIP_NUM nodes ahead. */
  ghost predicate Skips(nodes: seq<Node>)
    reads (set n | n in nodes)`skip
  {
    forall k :: 0 <= k < |nodes| ==> nodes[k].skip == NodeAt(nodes, k + SKIP_NUM)
  }

  /** The node whose skip pointer is set next. */
  function SkipFrom(nodes: seq<Node>): Node? {
    if |nodes| >= SKIP_NUM then nodes[|nodes| - SKIP_NUM] else null
  }

  function NodeAt(nodes: seq<Node>, k: nat): Node? {
    if k < |nodes| then nodes[k] else null
  }

  function LastOf(nodes: seq<Node>): Node? {
    if nodes == [] then null else nodes[|nodes| - 1]
  }

  /** What merge makes of the rest of two lists, once a node stands in front of them. */
  function Zip(x: seq<Node>, y: seq<Node>): seq<Node>
    decreases |x| + |y|
  {
    if y == [] then x
    else if x == [] then y
    else if x[0].data < y[0].data then [x[0]] + Zip(x[1..], y)
    else [y[0]] + Zip(x, y[1..])
  }

  /** The chain that merge builds: the list with the smaller head takes in the other. */
  function Merged(a: seq<Node>, b: seq<Node>): seq<Node> {
    if b == [] then a
    else if a == [] then b
    else if b[0].data < a[0].data then [b[0]] + Zip(b[1..], a)
    else [a[0]] + Zip(a[1..], b)
  }

  ghost predicate Disjoint(x: seq<Node>, y: seq<Node>) {
    forall j, k :: 0 <= j < |x| && 0 <= k < |y| ==> x[j] != y[k]
  }

  /** The first node of a list that is not yet merged goes behind the last one placed. */
  method InsertNode(curA: Node, curB: Node, ghost done: seq<Node>, ghost xs: seq<Node>, ghost ys: seq<Node>)
      returns (curA': Node, curB': Node?)
    requires Linked(done + xs) && Linked(ys) && Disjoint(done + xs, ys) && done != [] && ys != []
    requires curA == LastOf(done) && curB == ys[0]
    modifies curA`next, curB`next
    ensures curA' == ys[0] && curB' == NodeAt(ys, 1)
    ensures Linked(done + [ys[0]] + xs) && Linked(ys[1..]) && Disjoint(done + [ys[0]] + xs, ys[1..])
  {
    LinkedParts(done, xs);
    LinkedParts([ys[0]], ys[1..]);
    assert ys == [ys[0]] + ys[1..];
    DisjointParts(done, xs, ys);
    var nextPtr := curA.next;
    curA.next := curB;
    curA' := curB;
    curB' := curB.next;
    curA'.next := nextPtr;
    Spliced(done, ys[0], xs);
  }

  ghost predicate NoRepeat(nodes: seq<Node>) {
    forall j, k :: 0 <= j < k < |nodes| ==> nodes[j] != nodes[k]
  }

  /** Neighbours in the list are linked. */
  ghost predicate Steps(nodes: seq<Node>)
    reads (set n | n in nodes)`next
  {
    forall k :: 0 <= k < |nodes| - 1 ==> nodes[k].next == nodes[k + 1]
  }

  lemma LinkedParts(done: seq<Node>, xs: seq<Node>)
    requires Linked(done + xs) && done != []
    ensures Steps(done) && LastOf(done).next == NodeAt(xs, 0) && Linked(xs)
    ensures NoRepeat(done) && Disjoint(done, xs)
  {
    var all := done + xs;
    forall k | 0 <= k < |done| ensures done[k] == all[k] && done[k].next == NodeAt(all, k + 1) {}
    forall k | 0 <= k < |xs| ensures xs[k] == all[|done| + k] && xs[k].next == NodeAt(xs, k + 1) {
      assert all[|done| + k].next == NodeAt(all, |done| + k + 1);
    }
    forall j, k | 0 <= j < k < |xs| ensures xs[j] != xs[k] { assert all[|done| + j] != all[|done| + k]; }
    forall j, k | 0 <= j < |done| && 0 <= k < |xs| ensures done[j] != xs[k] { assert all[j] != all[|done| + k]; }
  }

  lemma DisjointParts(done: seq<Node>, xs: seq<Node>, ys: seq<Node>)
    requires Disjoint(done + xs, ys) && ys != [] && Disjoint([ys[0]], ys[1..])
    ensures ys[0] !in done && ys[0] !in xs && Disjoint(done, ys) && Disjoint(xs, ys)
    ensures Disjoint(done + [ys[0]] + xs, ys[1..])
  {
    var all := done + xs;
    assert forall k :: 0 <= k < |done| ==> all[k] == done[k];
    assert forall k :: 0 <= k < |xs| ==> all[|done| + k] == xs[k];
  }

  /** The k-th node once n stands between the others. */
  lemma Between(done: seq<Node>, n: Node, xs: seq<Node>, k: nat)
    requires k <= |done| + |xs|
    ensures (done + [n] + xs)[k] == if k < |done| then done[k] else if k == |done| then n else xs[k - |done| - 1]
  {}

  lemma Spliced(done: seq<Node>, n: Node, xs: seq<Node>)
    requires done != [] && Steps(done) && LastOf(done).next == n && n.next == NodeAt(xs, 0) && Linked(xs)
    requires NoRepeat(done) && Disjoint(done, xs) && n !in done && n !in xs
    ensures Linked(done + [n] + xs)
  {
    var all := done + [n] + xs;
    forall k | 0 <= k < |all| ensures all[k].next == NodeAt(all, k + 1) {
      Between(done, n, xs, k);
      if k + 1 < |all| { Between(done, n, xs, k + 1); }
    }
    forall j, k | 0 <= j < k < |all| ensures all[j] != all[k] {
      Between(done, n, xs, j);
      Between(done, n, xs, k);
    }
  }

  /** Walks past the placed nodes that come before curB. */
  method Advance(curA: Node, curB: Node, ghost done: seq<Node>, ghost xs: seq<Node>, ghost ys: seq<Node>)
      returns (curA': Node, ghost done': seq<Node>, ghost xs': seq<Node>)
    requires Linked(done + xs) && done != [] && curA == LastOf(done) && ys != [] && curB == ys[0]
    ensures done' != [] && curA' == LastOf(done') && done' + xs' == done + xs
    ensures done' + Zip(xs', ys) == done + Zip(xs, ys)
    ensures xs' != [] ==> xs'[0].data >= curB.data
  {
    hide Linked, Zip;
    curA', done', xs' := curA, done, xs;
    NextOf(done', xs');
    while curA'.next != null && curA'.next.data < curB.data
      invariant done' != [] && curA' == LastOf(done') && done' + xs' == done + xs
      invariant done' + Zip(xs', ys) == done + Zip(xs, ys) && curA'.next == NodeAt(xs', 0)
      decreases |xs'|
    {
      ZipPasses(done', xs', ys);
      curA', done', xs' := curA'.next, done' + [xs'[0]], xs'[1..];
      NextOf(done', xs');
    }
  }

  lemma MoveOne(done: seq<Node>, n: Node, rest: seq<Node>)
    ensures done + ([n] + rest) == done + [n] + rest && LastOf(done + [n]) == n
  {}

  lemma ZipPasses(done: seq<Node>, xs: seq<Node>, ys: seq<Node>)
    requires xs != [] && ys != [] && xs[0].data < ys[0].data
    ensures done + Zip(xs, ys) == done + [xs[0]] + Zip(xs[1..], ys) && done + xs == done + [xs[0]] + xs[1..]
    ensures LastOf(done + [xs[0]]) == xs[0]
  {
    hide LastOf;
    assert Zip(xs, ys) == [xs[0]] + Zip(xs[1..], ys);
    assert xs == [xs[0]] + xs[1..];
    MoveOne(done, xs[0], Zip(xs[1..], ys));
    MoveOne(done, xs[0], xs[1..]);
  }

  lemma NextOf(done: seq<Node>, xs: seq<Node>)
    requires Linked(done + xs) && done != []
    ensures LastOf(done).next == NodeAt(xs, 0)
  {
    assert (done + xs)[|done| - 1] == LastOf(done);
    assert NodeAt(done + xs, |done|) == NodeAt(xs, 0);
  }

  /** The end of the first list has been reached: the rest of the second follows. */
  method Attach(curA: Node, curB: Node, ghost done: seq<Node>, ghost ys: seq<Node>)
    requires Linked(done) && Linked(ys) && Disjoint(done, ys) && done != [] && ys != [] && curA == LastOf(done)
             && curB == ys[0]
    modifies curA`next
    ensures Linked(done + ys)
  {
    curA.next := curB;
  }

  lemma ZipTakes(done: seq<Node>, xs: seq<Node>, ys: seq<Node>)
    requires xs != [] && ys != [] && xs[0].data >= ys[0].data
    ensures done + Zip(xs, ys) == done + [ys[0]] + Zip(xs, ys[1..])
  {}

  lemma ZipEnds(xs: seq<Node>, ys: seq<Node>)
    ensures Zip([], ys) == ys && Zip(xs, []) == xs
  {}

  /** The nodes all belong to the space. */
  ghost predicate Within(nodes: seq<Node>, space: set<Node>) {
    forall n :: n in nodes ==> n in space
  }

  lemma WithinMoves(done: seq<Node>, xs: seq<Node>, ys: seq<Node>, done': seq<Node>, xs': seq<Node>, space: set<Node>)
    requires Within(done + xs, space) && Within(ys, space) && done' + xs' == done + xs && done' != [] && ys != []
    ensures LastOf(done') in space && ys[0] in space
    ensures Within(done' + [ys[0]] + xs', space) && Within(ys[1..], space)
  {
    assert LastOf(done') == (done' + xs')[|done'| - 1];
    forall n | n in done' + [ys[0]] + xs' ensures n in space {
      assert n in done' + xs' || n == ys[0];
    }
  }

  /** The relinking loop of merge. */
  method Relink(head: Node, first: Node?, ghost xs0: seq<Node>, ghost ys0: seq<Node>, ghost space: set<Node>)
    requires Linked([head] + xs0) && Linked(ys0) && Disjoint([head] + xs0, ys0) && first == NodeAt(ys0, 0)
    requires Within([head] + xs0, space) && Within(ys0, space)
    modifies space`next
    ensures Linked([head] + Zip(xs0, ys0))
  {
    hide Linked, Disjoint, Zip, Within;
    var curA, curB := head, first;
    ghost var done, xs, ys := [head], xs0, ys0;
    while curB != null
      invariant Linked(done + xs) && Linked(ys) && Disjoint(done + xs, ys) && Within(done + xs, space)
                && Within(ys, space)
      invariant done != [] && curA == LastOf(done) && curB == NodeAt(ys, 0)
      invariant done + Zip(xs, ys) == [head] + Zip(xs0, ys0)
      decreases |ys|
    {
      ghost var before, rest := done, xs;
      curA, done, xs := Advance(curA, curB, done, xs, ys);
      NextOf(done, xs);
      WithinMoves(before, rest, ys, done, xs, space);
      ZipEnds(xs, ys);
      if curA.next == null {
        assert done + xs == done;
        Attach(curA, curB, done, ys);
        return;
      }
      ZipTakes(done, xs, ys);
      curA, curB := InsertNode(curA, curB, done, xs, ys);
      done, ys := done + [ys[0]], ys[1..];
    }
    ZipEnds(xs, ys);
  }

  // ---- what merging means ----

  ghost predicate Sorted(nodes: seq<Node>) {
    forall j, k :: 0 <= j < k < |nodes| ==> nodes[j].data <= nodes[k].data
  }

  ghost predicate StrictlySorted(nodes: seq<Node>) {
    forall j, k :: 0 <= j < k < |nodes| ==> nodes[j].data < nodes[k].data
  }

  ghost predicate DistinctData(x: seq<Node>, y: seq<Node>) {
    forall j, k :: 0 <= j < |x| && 0 <= k < |y| ==> x[j].data != y[k].data
  }

  lemma BagOfCons(x: seq<Node>, rest: seq<Node>)
    requires x != []
    ensures multiset(x) == multiset{x[0]} + multiset(x[1..])
            && multiset([x[0]] + rest) == multiset{x[0]} + multiset(rest)
  {
    assert x == [x[0]] + x[1..];
  }

  lemma {:induction false} ZipBag(x: seq<Node>, y: seq<Node>)
    ensures multiset(Zip(x, y)) == multiset(x) + multiset(y)
    decreases |x| + |y|
  {
    if x != [] && y != [] {
      if x[0].data < y[0].data {
        ZipBag(x[1..], y);
        BagOfCons(x, Zip(x[1..], y));
      } else {
        ZipBag(x, y[1..]);
        BagOfCons(y, Zip(x, y[1..]));
      }
    }
  }

  /** No node is below the bound. */
  ghost predicate From(nodes: seq<Node>, bound: nat) {
    forall n :: n in nodes ==> bound <= n.data
  }

  lemma {:induction false} ZipSorted(x: seq<Node>, y: seq<Node>, bound: nat)
    requires Sorted(x) && Sorted(y) && From(x, bound) && From(y, bound)
    ensures Sorted(Zip(x, y)) && From(Zip(x, y), bound)
    decreases |x| + |y|
  {
    if x != [] && y != [] {
      assert x[0] in x && y[0] in y;
      if x[0].data < y[0].data {
        SortedRest(x);
        SortedFrom(y);
        ZipSorted(x[1..], y, x[0].data);
        SortedCons(x[0], Zip(x[1..], y));
      } else {
        SortedRest(y);
        SortedFrom(x);
        ZipSorted(x, y[1..], y[0].data);
        SortedCons(y[0], Zip(x, y[1..]));
      }
    }
  }

  lemma SortedRest(x: seq<Node>)
    requires Sorted(x) && x != []
    ensures Sorted(x[1..]) && From(x[1..], x[0].data)
  {}

  lemma SortedFrom(x: seq<Node>)
    requires Sorted(x) && x != []
    ensures From(x, x[0].data)
  {}

  lemma SortedCons(n: Node, x: seq<Node>)
    requires Sorted(x) && From(x, n.data)
    ensures Sorted([n] + x)
  {
    assert forall k :: 0 <= k < |x| ==> x[k] in x;
  }

  lemma MergedSorted(a: seq<Node>, b: seq<Node>)
    requires Sorted(a) && Sorted(b)
    ensures Sorted(Merged(a, b))
  {
    if a != [] && b != [] {
      SortedRest(a);
      SortedRest(b);
      SortedFrom(a);
      SortedFrom(b);
      if b[0].data < a[0].data {
        ZipSorted(b[1..], a, b[0].data);
        SortedCons(b[0], Zip(b[1..], a));
      } else {
        ZipSorted(a[1..], b, a[0].data);
        SortedCons(a[0], Zip(a[1..], b));
      }
    }
  }

  /** Every node of both lists is in the merged chain once. */
  lemma MergedBag(a: seq<Node>, b: seq<Node>)
    ensures multiset(Merged(a, b)) == multiset(a) + multiset(b)
  {
    if a != [] && b != [] {
      if b[0].data < a[0].data {
        ZipBag(b[1..], a);
        BagOfCons(b, Zip(b[1..], a));
      } else {
        ZipBag(a[1..], b);
        BagOfCons(a, Zip(a[1..], b));
      }
    }
  }

  ghost predicate NoTwins(nodes: seq<Node>) {
    forall j, k :: 0 <= j < k < |nodes| ==> nodes[j] != nodes[k]
  }

  /** Two strictly ascending lists without common values merge into a strictly ascending list. */
  lemma MergedAscends(a: seq<Node>, b: seq<Node>)
    requires StrictlySorted(a) && StrictlySorted(b) && DistinctData(a, b) && NoTwins(Merged(a, b))
    ensures StrictlySorted(Merged(a, b))
  {
    hide Merged;
    MergedSorted(a, b);
    MergedBag(a, b);
    var m := Merged(a, b);
    forall j, k | 0 <= j < k < |m| ensures m[j].data < m[k].data {
      assert m[j] in multiset(m) && m[k] in multiset(m);
      assert m[j] in a || m[j] in b;
      assert m[k] in a || m[k] in b;
    }
  }

  lemma SortedEnds(x: seq<Node>)
    requires Sorted(x) && x != []
    ensures x[0].data <= LastOf(x).data && (|x| > 1 ==> LastOf(x[1..]) == LastOf(x) && Sorted(x[1..]))
    ensures |x| == 1 ==> x[1..] == [] && LastOf(x) == x[0]
  {}

  lemma LastOfCons(n: Node, x: seq<Node>)
    ensures LastOf([n] + x) == if x == [] then n else LastOf(x)
  {}

  lemma {:induction false} ZipLast(x: seq<Node>, y: seq<Node>)
    requires Sorted(x) && Sorted(y) && y != []
    ensures Zip(x, y) != [] && LastOf(Zip(x, y)) == if x != [] && LastOf(y).data <= LastOf(x).data then LastOf(x)
            else LastOf(y)
    decreases |x| + |y|
  {
    hide Sorted, LastOf;
    SortedEnds(y);
    if x != [] {
      SortedEnds(x);
      if x[0].data < y[0].data {
        if |x| > 1 { ZipLast(x[1..], y); } else { ZipEnds([], y); }
        LastOfCons(x[0], Zip(x[1..], y));
      } else {
        if |y| > 1 { ZipLast(x, y[1..]); } else { ZipEnds(x, []); }
        LastOfCons(y[0], Zip(x, y[1..]));
      }
    }
  }

  lemma StrictIsSorted(x: seq<Node>)
    requires StrictlySorted(x)
    ensures Sorted(x)
  {}

  /** The old tail is the last node of the merged chain only if the other list ends no later. */
  lemma MergedLast(a: seq<Node>, b: seq<Node>)
    requires StrictlySorted(a) && StrictlySorted(b) && DistinctData(a, b) && b != []
    ensures LastOf(Merged(a, b)) == LastOf(a) <==> a != [] && LastOf(b).data < LastOf(a).data
  {
    if a != [] {
      assert a[0].data != b[0].data && LastOf(a).data != LastOf(b).data;
      StrictIsSorted(a);
      StrictIsSorted(b);
      hide StrictlySorted, Sorted, DistinctData, Zip;
      if b[0].data < a[0].data {
        SortedEnds(b);
        ZipLast(b[1..], a);
      } else {
        SortedEnds(a);
        ZipLast(a[1..], b);
      }
    }
  }

  // ---- the order of nodes with equal values ----

  function HeadWith(n: Node, value: nat): seq<Node> {
    if n.data == value then [n] else []
  }

  /** The nodes with a value, in order. */
  function WithData(nodes: seq<Node>, value: nat): seq<Node> {
    if nodes == [] then [] else HeadWith(nodes[0], value) + WithData(nodes[1..], value)
  }

  lemma WithDataCons(n: Node, nodes: seq<Node>, value: nat)
    ensures WithData([n] + nodes, value) == HeadWith(n, value) + WithData(nodes, value)
  {
    assert ([n] + nodes)[1..] == nodes;
  }

  lemma {:induction false} NoneWithData(nodes: seq<Node>, value: nat)
    requires forall k :: 0 <= k < |nodes| ==> nodes[k].data != value
    ensures WithData(nodes, value) == []
  {
    if nodes != [] { NoneWithData(nodes[1..], value); }
  }

  lemma RestIsSorted(nodes: seq<Node>)
    requires Sorted(nodes) && nodes != []
    ensures Sorted(nodes[1..]) && forall k :: 0 <= k < |nodes| ==> nodes[0].data <= nodes[k].data
  {}

  lemma ConcatAssoc<T>(x: seq<T>, y: seq<T>, z: seq<T>)
    ensures x + (y + z) == (x + y) + z
  {}

  lemma ConcatNone<T>(x: seq<T>)
    ensures [] + x == x && x + [] == x
  {}

  /** The next node comes from the placed list. */
  lemma TiesOfPlaced(x: seq<Node>, y: seq<Node>, rest: seq<Node>, value: nat)
    requires x != [] && y != [] && x[0].data < y[0].data && Sorted(y)
    requires WithData(rest, value) == WithData(y, value) + WithData(x[1..], value)
    ensures WithData([x[0]] + rest, value) == WithData(y, value) + WithData(x, value)
  {
    RestIsSorted(y);
    WithDataCons(x[0], rest, value);
    WithDataCons(x[0], x[1..], value);
    assert x == [x[0]] + x[1..];
    if x[0].data == value { NoneWithData(y, value); }
    hide WithData;
    ConcatNone(WithData(rest, value));
    ConcatNone(WithData(x[1..], value));
    ConcatNone(WithData(x, value));
  }

  /** The next node comes from the list that is put in. */
  lemma TiesOfInserted(x: seq<Node>, y: seq<Node>, rest: seq<Node>, value: nat)
    requires y != [] && WithData(rest, value) == WithData(y[1..], value) + WithData(x, value)
    ensures WithData([y[0]] + rest, value) == WithData(y, value) + WithData(x, value)
  {
    WithDataCons(y[0], rest, value);
    WithDataCons(y[0], y[1..], value);
    assert y == [y[0]] + y[1..];
    hide WithData;
    ConcatAssoc(HeadWith(y[0], value), WithData(y[1..], value), WithData(x, value));
  }

  lemma ZipStep(x: seq<Node>, y: seq<Node>)
    requires x != [] && y != []
    ensures Zip(x, y) == if x[0].data < y[0].data then [x[0]] + Zip(x[1..], y) else [y[0]] + Zip(x, y[1..])
  {}

  lemma ZipNone(x: seq<Node>, y: seq<Node>)
    requires x == [] || y == []
    ensures Zip(x, y) == if y == [] then x else y
  {}

  /** On equal values the nodes that are put in go in front of those placed. */
  lemma {:induction false} ZipTies(x: seq<Node>, y: seq<Node>, value: nat)
    requires Sorted(x) && Sorted(y)
    ensures WithData(Zip(x, y), value) == WithData(y, value) + WithData(x, value)
    decreases |x| + |y|
  {
    if x == [] || y == [] {
      ZipNone(x, y);
      ConcatNone(WithData(x, value));
      ConcatNone(WithData(y, value));
    } else {
      ZipStep(x, y);
      RestIsSorted(x);
      RestIsSorted(y);
      hide Zip, Sorted, WithData;
      if x[0].data < y[0].data {
        ZipTies(x[1..], y, value);
        TiesOfPlaced(x, y, Zip(x[1..], y), value);
      } else {
        ZipTies(x, y[1..], value);
        TiesOfInserted(x, y, Zip(x, y[1..]), value);
      }
    }
  }

  /** The order of equal values after merge: the list with the smaller head, the first one if the heads are equal, gives
      its head; then come the other list's nodes, then the rest of that one's. */
  lemma MergedTies(a: seq<Node>, b: seq<Node>, value: nat)
    requires Sorted(a) && Sorted(b) && a != [] && b != []
    ensures b[0].data < a[0].data ==>
              WithData(Merged(a, b), value) == HeadWith(b[0], value) + (WithData(a, value) + WithData(b[1..], value))
    ensures a[0].data <= b[0].data ==>
              WithData(Merged(a, b), value) == HeadWith(a[0], value) + (WithData(b, value) + WithData(a[1..], value))
  {
    RestIsSorted(a);
    RestIsSorted(b);
    hide Zip, Sorted, WithData;
    if b[0].data < a[0].data {
      ZipTies(b[1..], a, value);
      WithDataCons(b[0], Zip(b[1..], a), value);
    } else {
      ZipTies(a[1..], b, value);
      WithDataCons(a[0], Zip(a[1..], b), value);
    }
  }

  // ---- intersection ----

  /** The nodes of the first list that intersection keeps. */
  function Sifted(a: seq<Node>, b: seq<Node>): seq<Node>
    decreases |a| + |b|
  {
    if a == [] || b == [] then []
    else if a[0].data > b[0].data then Sifted(a, b[1..])
    else if a[0].data == b[0].data then [a[0]] + Sifted(a[1..], b)
    else Sifted(a[1..], b)
  }

  ghost predicate HasData(nodes: seq<Node>, value: nat) {
    exists n :: n in nodes && n.data == value
  }

  lemma HasDataHead(nodes: seq<Node>, value: nat)
    requires nodes != []
    ensures HasData(nodes, value) <==> nodes[0].data == value || HasData(nodes[1..], value)
  {
    assert forall n :: n in nodes <==> n == nodes[0] || n in nodes[1..];
  }

  lemma BelowAll(nodes: seq<Node>, value: nat)
    requires Sorted(nodes) && nodes != [] && value < nodes[0].data
    ensures !HasData(nodes, value)
  {}

  /** On ascending lists intersection keeps exactly the nodes whose value the other list has, in order. */
  lemma {:induction false} SiftedMeaning(a: seq<Node>, b: seq<Node>)
    requires Sorted(a) && Sorted(b)
    ensures forall n :: n in Sifted(a, b) <==> n in a && HasData(b, n.data)
    ensures Sorted(Sifted(a, b))
    decreases |a| + |b|
  {
    if a != [] && b != [] {
      hide HasData;
      forall value: nat
        ensures HasData(b, value) <==> b[0].data == value || HasData(b[1..], value)
      { HasDataHead(b, value); }
      assert forall n :: n in a <==> n == a[0] || n in a[1..];
      if a[0].data > b[0].data {
        SiftedMeaning(a, b[1..]);
      } else {
        SiftedMeaning(a[1..], b);
        if a[0].data < b[0].data { BelowAll(b, a[0].data); }
        else {
          SiftedFrom(a, b);
          SortedCons(a[0], Sifted(a[1..], b));
        }
      }
    } else if b == [] {
      NoData();
    }
  }

  lemma NoData()
    ensures forall value: nat :: !HasData([], value)
  {}

  lemma SiftedFrom(a: seq<Node>, b: seq<Node>)
    requires Sorted(a) && a != []
    ensures From(Sifted(a[1..], b), a[0].data)
  {
    SortedRest(a);
    forall n | n in Sifted(a[1..], b) ensures n in a[1..] { SiftedMember(a[1..], b, n); }
  }

  lemma {:induction false} SiftedMember(a: seq<Node>, b: seq<Node>, n: Node)
    requires n in Sifted(a, b)
    ensures n in a
    decreases |a| + |b|
  {
    if a[0].data > b[0].data { SiftedMember(a, b[1..], n); }
    else if n != a[0] || a[0].data != b[0].data { SiftedMember(a[1..], b, n); }
  }

  /** The nodes from i on are still linked as before; the kept ones, from among the nodes before i, form a chain of
      their own, whose end still points into the old chain. */
  ghost predicate Sifting(a: seq<Node>, i: nat, kept: seq<Node>)
    reads (set n | n in a)`next, (set n | n in kept)`next
  {
    && i <= |a| && NoTwins(a) && NoTwins(kept)
    && (forall k :: i <= k < |a| ==> a[k].next == NodeAt(a, k + 1))
    && (forall k :: 0 <= k < |kept| - 1 ==> kept[k].next == kept[k + 1])
    && (forall n :: n in kept ==> n in a[..i])
  }

  /** The values kept so far and those the rest of the walk keeps are those the whole walk keeps. */
  ghost predicate SiftedSoFar(a: seq<Node>, b: seq<Node>, i: nat, j: nat, kept: seq<Node>) {
    i <= |a| && j <= |b| && kept + Sifted(a[i..], b[j..]) == Sifted(a, b)
  }

  lemma SiftStep(a: seq<Node>, b: seq<Node>, i: nat, j: nat, kept: seq<Node>)
    requires SiftedSoFar(a, b, i, j, kept) && i < |a| && j < |b|
    ensures a[i].data > b[j].data ==> SiftedSoFar(a, b, i, j + 1, kept)
    ensures a[i].data == b[j].data ==> SiftedSoFar(a, b, i + 1, j, kept + [a[i]])
    ensures a[i].data < b[j].data ==> SiftedSoFar(a, b, i + 1, j, kept)
  {
    assert a[i..][1..] == a[i + 1..] && b[j..][1..] == b[j + 1..];
  }

  lemma SiftEnd(a: seq<Node>, b: seq<Node>, i: nat, j: nat, kept: seq<Node>)
    requires SiftedSoFar(a, b, i, j, kept) && (i == |a| || j == |b|)
    ensures kept == Sifted(a, b)
  {}

  /** The part of the other list that lies below the node is passed over. */
  method PassOver(curA: Node, curB: Node?, ghost a: seq<Node>, ghost b: seq<Node>, ghost i: nat, ghost j: nat,
                  ghost kept: seq<Node>)
      returns (curB': Node?, ghost j': nat)
    requires Linked(b) && i < |a| && curA == a[i] && j <= |b| && curB == NodeAt(b, j) && SiftedSoFar(a, b, i, j, kept)
    ensures j' <= |b| && curB' == NodeAt(b, j') && SiftedSoFar(a, b, i, j', kept)
            && (curB' != null ==> curA.data <= curB'.data)
  {
    hide SiftedSoFar;
    curB', j' := curB, j;
    while curB' != null && curA.data > curB'.data
      invariant j' <= |b| && curB' == NodeAt(b, j') && SiftedSoFar(a, b, i, j', kept)
      decreases |b| - j'
    {
      SiftStep(a, b, i, j', kept);
      curB', j' := curB'.next, j' + 1;
    }
  }

  /** A node with a common value is linked behind the last one kept. */
  method KeepNode(preA: Node?, curA: Node, ghost a: seq<Node>, ghost i: nat, ghost kept: seq<Node>)
      returns (next: Node?)
    requires Sifting(a, i, kept) && i < |a| && curA == a[i] && preA == LastOf(kept)
    modifies (if preA == null then {} else {preA})`next
    ensures Sifting(a, i + 1, kept + [curA]) && next == NodeAt(a, i + 1)
  {
    assert a[..i + 1] == a[..i] + [a[i]];
    assert preA != null ==> preA in kept && preA in a[..i];
    forall k | 0 <= k < |kept| ensures kept[k] != curA {
      assert kept[k] in kept;
      var j :| 0 <= j < i && a[..i][j] == kept[k];
    }
    if preA != null { preA.next := curA; }
    assert forall k :: 0 <= k < |kept| ==> (kept + [curA])[k] == kept[k];
    next := curA.next;
  }

  lemma SkipNode(a: seq<Node>, i: nat, kept: seq<Node>)
    requires Sifting(a, i, kept) && i < |a|
    ensures a[i].next == NodeAt(a, i + 1) && Sifting(a, i + 1, kept)
  {
    assert forall n :: n in a[..i] ==> n in a[..i + 1];
  }

  /** The last node kept becomes the end of the chain. */
  method EndChain(preA: Node?, ghost a: seq<Node>, ghost i: nat, ghost kept: seq<Node>)
    requires Sifting(a, i, kept) && preA == LastOf(kept)
    modifies (if preA == null then {} else {preA})`next
    ensures Linked(kept)
  {
    if preA != null { preA.next := null; }
  }

  /** Every node seen is kept or deleted. */
  ghost predicate Accounted(a: seq<Node>, i: nat, kept: seq<Node>, deleted: seq<Node>) {
    i <= |a| && multiset(kept) + multiset(deleted) == multiset(a[..i])
  }

  lemma GoneStep(a: seq<Node>, i: nat, kept: seq<Node>, deleted: seq<Node>)
    requires i < |a| && Accounted(a, i, kept, deleted)
    ensures Accounted(a, i + 1, kept + [a[i]], deleted) && Accounted(a, i + 1, kept, deleted + [a[i]])
  {
    assert a[..i + 1] == a[..i] + [a[i]];
  }

  lemma GoneAll(a: seq<Node>, i: nat, kept: seq<Node>, deleted: seq<Node>)
    requires Accounted(a, i, kept, deleted)
    ensures multiset(kept) + multiset(deleted + a[i..]) == multiset(a)
  {
    assert a == a[..i] + a[i..];
  }

  /** One node of intersection: kept if its value is the other list's, deleted otherwise. */
  method SiftNode(head: Node?, preA: Node?, nodeCount: nat, curA: Node, value: nat,
                  ghost a: seq<Node>, ghost i: nat, ghost kept: seq<Node>, ghost deleted: seq<Node>)
      returns (head': Node?, preA': Node?, nodeCount': nat, next: Node?, ghost kept': seq<Node>,
               ghost deleted': seq<Node>)
    requires Sifting(a, i, kept) && i < |a| && curA == a[i] && preA == LastOf(kept) && head == NodeAt(kept, 0)
             && nodeCount == |kept|
    modifies (if preA == null then {} else {preA})`next
    ensures Sifting(a, i + 1, kept') && next == NodeAt(a, i + 1)
    ensures preA' == LastOf(kept') && head' == NodeAt(kept', 0) && nodeCount' == |kept'|
    ensures if curA.data == value then kept' == kept + [curA] && deleted' == deleted
            else kept' == kept && deleted' == deleted + [curA]
  {
    hide Sifting;
    head', preA', nodeCount', kept', deleted' := head, preA, nodeCount, kept, deleted;
    if curA.data == value {
      if preA == null { head' := curA; }
      next := KeepNode(preA, curA, a, i, kept);
      preA' := curA;
      nodeCount' := nodeCount + 1;
      kept' := kept + [curA];
    } else {
      SkipNode(a, i, kept);
      next := curA.next;
      deleted' := deleted + [curA];
    }
  }

  /** The loop of intersection. */
  method Sift(headA: Node?, headB: Node?, ghost a: seq<Node>, ghost b: seq<Node>)
      returns (head: Node?, nodeCount: nat, ghost kept: seq<Node>, ghost deleted: seq<Node>)
    requires Linked(a) && Linked(b) && Disjoint(a, b) && headA == NodeAt(a, 0) && headB == NodeAt(b, 0)
    modifies (set n | n in a)`next
    ensures Linked(kept) && kept == Sifted(a, b) && head == NodeAt(kept, 0) && nodeCount == |kept|
    ensures multiset(kept) + multiset(deleted) == multiset(a)
  {
    hide Linked, Sifting, SiftedSoFar, Sifted, Accounted, Disjoint;
    var curA, curB: Node?, preA: Node? := headA, headB, null;
    ghost var i: nat, j: nat := 0, 0;
    head, nodeCount, kept, deleted := null, 0, [], [];
    SiftStart(a, b);
    while curA != null
      invariant Sifting(a, i, kept) && Linked(b) && SiftedSoFar(a, b, i, j, kept) && i <= |a| && j <= |b|
      invariant curA == NodeAt(a, i) && curB == NodeAt(b, j) && preA == LastOf(kept) && head == NodeAt(kept, 0)
                && nodeCount == |kept|
      invariant Accounted(a, i, kept, deleted)
      decreases |a| - i
    {
      curB, j := PassOver(curA, curB, a, b, i, j, kept);
      if curB == null {
        break;
      }
      SiftStep(a, b, i, j, kept);
      GoneStep(a, i, kept, deleted);
      if preA != null { KeptInside(a, b, i, kept); }
      head, preA, nodeCount, curA, kept,
          deleted := SiftNode(head, preA, nodeCount, curA, curB.data, a, i, kept, deleted);
      i := i + 1;
    }
    SiftEnd(a, b, i, j, kept);
    GoneAll(a, i, kept, deleted);
    deleted := deleted + a[i..];
    if preA != null { KeptInside(a, b, i, kept); }
    EndChain(preA, a, i, kept);
  }

  lemma KeptInside(a: seq<Node>, b: seq<Node>, i: nat, kept: seq<Node>)
    requires Sifting(a, i, kept) && kept != [] && Disjoint(a, b)
    ensures LastOf(kept) in a && LastOf(kept) !in b
  {
    assert LastOf(kept) in kept;
  }

  lemma SiftStart(a: seq<Node>, b: seq<Node>)
    requires Linked(a)
    ensures Sifting(a, 0, []) && SiftedSoFar(a, b, 0, 0, []) && Accounted(a, 0, [], [])
  {}

  /** A list of nodes. Its tail and skip pointers are kept up by addElement only. */
  class SkipList {
    var head: Node?
    var tail: Node?
    var skipPre: Node?
    var nodeCount: nat
    ghost var nodes: seq<Node>

    /** The chain from head holds the nodes, and they are counted. */
    ghost predicate Chained()
      reads this, nodes
    {
      Linked(nodes) && head == NodeAt(nodes, 0) && nodeCount == |nodes|
    }

    /** A list built by addElement: the skip pointer of every node leads SKIP_NUM nodes ahead. */
    ghost predicate Valid()
      reads this, nodes
    {
      Chained() && tail == LastOf(nodes) && skipPre == SkipFrom(nodes) && Skips(nodes)
    }

    constructor ()
      ensures Valid() && nodes == []
    {
      head, tail, skipPre, nodeCount, nodes := null, null, null, 0, [];
    }

    method AddElement(data: nat)
      requires Valid()
      modifies this, tail, skipPre
      ensures Valid() && |nodes| == |old(nodes)| + 1 && nodes[..|old(nodes)|] == old(nodes)
      ensures LastOf(nodes).data == data && fresh(LastOf(nodes))
    {
      hide Linked, Skips, SkipFrom, NodeAt, NoTwins;
      var node := new Node(data);
      SkipPreFacts(nodes);
      AppendNode(node);
      NextSkip(old(nodes), node);
      if skipPre != null {
        SetSkip(skipPre, node, old(nodes));
        skipPre := skipPre.next;
      } else {
        NoSkipYet(old(nodes), node);
      }
      nodeCount := nodeCount + 1;
      if nodeCount == SKIP_NUM {
        skipPre := head;
      }
    }

    /** Links the node behind the last one. */
    method AppendNode(node: Node)
      requires Linked(nodes) && head == NodeAt(nodes, 0) && tail == LastOf(nodes) && node.next == null && node !in nodes
      modifies this`head, this`tail, this`nodes, (if tail == null then {} else {tail})`next
      ensures nodes == old(nodes) + [node] && Linked(nodes) && head == NodeAt(nodes, 0) && tail == node
    {
      if head == null {
        head, tail := node, node;
      } else {
        tail.next := node;
        tail := node;
      }
      nodes := nodes + [node];
    }

    method Clear()
      modifies this
      ensures Valid() && nodes == []
    {
      head, tail, skipPre, nodeCount, nodes := null, null, null, 0, [];
    }

    /** merge: relinks the nodes of both lists into one chain and empties the other list. The tail is not moved. */
    method Merge(list: SkipList)
      requires Chained() && list.Chained() && Disjoint(nodes, list.nodes) && this != list
      modifies this`head, this`nodeCount, this`nodes, list, (set n | n in nodes + list.nodes)`next
      ensures Chained() && nodes == Merged(old(nodes), old(list.nodes)) && list.Chained() && list.nodes == []
      ensures nodeCount == old(nodeCount) + old(list.nodeCount) && tail == old(tail) && skipPre == old(skipPre)
    {
      hide Linked, Disjoint, Zip, Merged, SkipList.Chained, SkipList.Valid;
      ChainFacts();
      list.ChainFacts();
      if list.head == null {
        MergedNone(nodes);
        return;
      }
      MergedIs(nodes, list.nodes);
      var curB := list.head;
      ghost var x, y := nodes, list.nodes;
      if head == null || curB.data < head.data {
        head, curB := curB, head;
        x, y := y, x;
      }
      TakeIn(curB, list, nodes, list.nodes, x, y);
    }

    lemma ChainFacts()
      requires Chained()
      ensures Linked(nodes) && head == NodeAt(nodes, 0) && nodeCount == |nodes| && (head == null <==> nodes == [])
    {}

    /** The rest of merge, once head and curB are the heads of the list that takes in and of the one taken in. */
    method TakeIn(curB: Node?, list: SkipList, ghost a: seq<Node>, ghost b: seq<Node>, ghost x: seq<Node>,
                  ghost y: seq<Node>)
      requires Linked(a) && Linked(b) && Disjoint(a, b) && ((x == a && y == b) || (x == b && y == a)) && x != []
      requires head == x[0] && curB == NodeAt(y, 0) && this != list && nodeCount == |a| && list.nodeCount == |b|
      modifies this`nodeCount, this`nodes, list, (set n | n in a + b)`next
      ensures Chained() && nodes == [x[0]] + Zip(x[1..], y) && nodeCount == |a| + |b| && list.Chained()
              && list.nodes == []
    {
      hide Linked, Disjoint, Zip, Within;
      ghost var space := set n | n in a + b;
      Sides(a, b, x, y, space);
      Relink(head, curB, x[1..], y, space);
      MergedSize(x, y);
      nodeCount := nodeCount + list.nodeCount;
      nodes := [x[0]] + Zip(x[1..], y);
      list.Clear();
    }

    /** intersection: keeps the nodes whose value the other list has, relinked, and deletes the others. The other list
        is only read. The tail is not moved. */
    method Intersection(list: SkipList?) returns (ghost deleted: seq<Node>)
      requires Chained() && (list != null ==> list.Chained() && Disjoint(nodes, list.nodes))
      modifies this`head, this`nodeCount, this`nodes, (set n | n in nodes)`next
      ensures Chained() && nodes == Sifted(old(nodes), if list == null then [] else old(list.nodes))
      ensures multiset(nodes) + multiset(deleted) == multiset(old(nodes)) && tail == old(tail)
    {
      hide Linked, Disjoint, Sifted;
      ghost var others := if list == null then [] else list.nodes;
      var curB: Node? := null;
      if list != null { curB := list.head; }
      NothingLinked(nodes);
      head, nodeCount, nodes, deleted := Sift(head, curB, nodes, others);
    }
  }

  lemma NothingLinked(a: seq<Node>)
    ensures Linked([]) && Disjoint(a, [])
  {}

  lemma MergedNone(a: seq<Node>)
    ensures Merged(a, []) == a
  {}

  lemma SkipPreFacts(nodes: seq<Node>)
    ensures SkipFrom(nodes) != null <==> |nodes| >= SKIP_NUM
    ensures SkipFrom(nodes) != null ==> SkipFrom(nodes) in nodes
  {}

  /** The node after the one whose skip pointer is set is the next one to be set. */
  lemma NextSkip(nodes: seq<Node>, node: Node)
    requires Linked(nodes + [node])
    ensures NoTwins(nodes)
    ensures |nodes| >= SKIP_NUM ==> SkipFrom(nodes).next == SkipFrom(nodes + [node])
    ensures |nodes| + 1 == SKIP_NUM ==> NodeAt(nodes + [node], 0) == SkipFrom(nodes + [node])
    ensures |nodes| + 1 < SKIP_NUM ==> SkipFrom(nodes + [node]) == null
  {
    assert forall k :: 0 <= k < |nodes| ==> (nodes + [node])[k] == nodes[k];
  }

  lemma NoSkipYet(nodes: seq<Node>, node: Node)
    requires Skips(nodes) && node.skip == null && |nodes| < SKIP_NUM
    ensures Skips(nodes + [node])
  {}

  method SetSkip(skipPre: Node, node: Node, ghost nodes: seq<Node>)
    requires Skips(nodes) && node.skip == null && node !in nodes && |nodes| >= SKIP_NUM && skipPre == SkipFrom(nodes)
    requires NoTwins(nodes)
    modifies skipPre`skip
    ensures Skips(nodes + [node])
  {
    skipPre.skip := node;
  }

  /** The list with the smaller head, or the other one if the first is empty, takes in the rest. */
  lemma MergedIs(a: seq<Node>, b: seq<Node>)
    requires b != []
    ensures if a == [] || b[0].data < a[0].data then Merged(a, b) == [b[0]] + Zip(b[1..], a)
            else Merged(a, b) == [a[0]] + Zip(a[1..], b)
  {
    if a == [] { ZipEnds(b[1..], a); }
  }

  lemma Sides(a: seq<Node>, b: seq<Node>, x: seq<Node>, y: seq<Node>, space: set<Node>)
    requires Linked(a) && Linked(b) && Disjoint(a, b) && ((x == a && y == b) || (x == b && y == a)) && x != []
    requires forall n :: n in space <==> n in a + b
    ensures Linked([x[0]] + x[1..]) && Linked(y) && Disjoint([x[0]] + x[1..], y) && x == [x[0]] + x[1..]
    ensures Within([x[0]] + x[1..], space) && Within(y, space)
  {
    assert x == [x[0]] + x[1..];
  }

  lemma MergedSize(x: seq<Node>, y: seq<Node>)
    requires x != []
    ensures |[x[0]] + Zip(x[1..], y)| == |x| + |y|
  {
    ZipBag(x[1..], y);
    assert |multiset(Zip(x[1..], y))| == |Zip(x[1..], y)|;
    assert |multiset(x[1..]) + multiset(y)| == |x[1..]| + |y|;
  }
}
