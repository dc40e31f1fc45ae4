/** How a range query narrows the trie level by level. */
module TrieLevels {
  import opened FlowLog
  import opened Radix
  import opened TriePaths

  function Max(a: nat, b: nat): nat { if a < b then b else a }

  function Min(a: nat, b: nat): nat { if a < b then a else b }

  lemma AbsorbJoin(log: Log, lo: nat, hi: nat, m: nat, n: nat, answer: seq<Value>)
    requires m <= n
    ensures Absorb(log, Max(lo, m), Min(hi, n), Absorb(log, lo, Min(hi, m), answer))
            == Absorb(log, lo, Min(hi, n), answer)
  {
    hide Absorb;
    if lo <= m <= hi {
      AbsorbCompose(log, lo, m, Min(hi, n), answer);
    } else if m < lo {
      AbsorbNone(log, lo, Min(hi, m), answer);
    } else {
      AbsorbNone(log, Max(lo, m), Min(hi, n), Absorb(log, lo, Min(hi, m), answer));
    }
  }

  lemma LevelJoin(ids: set<Id>, level: nat, lo: nat, hi: nat, m: nat, n: nat)
    requires m <= n
    ensures LevelPrefixes(ids, level, lo, Min(hi, m)) + LevelPrefixes(ids, level, Max(lo, m), Min(hi, n))
            == LevelPrefixes(ids, level, lo, Min(hi, n))
  {
    hide LevelPrefixes;
    if lo <= m <= hi {
      LevelCompose(ids, level, lo, m, Min(hi, n));
    } else if m < lo {
      LevelNone(ids, level, lo, Min(hi, m));
    } else {
      LevelNone(ids, level, Max(lo, m), Min(hi, n));
    }
  }

  /** The state of level i once the nodes with prefixes below c are done: the prefixes queued for the next level, or, at
      the leaves, the answer, cover exactly what lies below c. */
  ghost predicate Progress(log: Log, d: nat, i: nat, begin: nat, end: nat, c: nat,
                           next: seq<nat>, answer: seq<Value>, ret: seq<Value>)
    requires i < d
  {
    var lo, hi := Prefix(begin, d, i + 1), Prefix(end, d, i + 1) + 1;
    if i == d - 1 then next == [] && answer == Absorb(log, lo, Min(hi, 256 * c), ret)
    else answer == ret && next == LevelPrefixes(NodeIds(log, d), i + 1, lo, Min(hi, 256 * c))
  }

  lemma ProgressStart(log: Log, d: nat, i: nat, begin: nat, end: nat, ret: seq<Value>)
    requires i < d
    ensures Progress(log, d, i, begin, end, Prefix(begin, d, i), [], ret, ret)
  {
    hide NodeIds, Prefix;
    PrefixParent(begin, d, i);
  }

  /** Prefixes without a node add nothing. */
  lemma ProgressGap(log: Log, d: nat, i: nat, begin: nat, end: nat, c: nat, p: nat,
                    next: seq<nat>, answer: seq<Value>, ret: seq<Value>)
    requires i < d && c <= p && NoNodes(NodeIds(log, d), i, c, p)
    requires Progress(log, d, i, begin, end, c, next, answer, ret)
    ensures Progress(log, d, i, begin, end, p, next, answer, ret)
  {
    hide NodeIds, Prefix, Absorb, LevelPrefixes, ValuesOf;
    var lo, hi := Prefix(begin, d, i + 1), Prefix(end, d, i + 1) + 1;
    if i == d - 1 {
      NoValuesBelow(log, d, i, c, p);
      AbsorbGap(log, lo, Min(hi, 256 * c), Min(hi, 256 * p), ret);
    } else {
      NoNodesBelow(log, d, i, c, p);
      LevelGap(NodeIds(log, d), i + 1, lo, Min(hi, 256 * c), Min(hi, 256 * p));
    }
  }

  /** An inner node adds its children in range. */
  lemma ProgressInner(log: Log, d: nat, i: nat, begin: nat, end: nat, p: nat,
                      next: seq<nat>, answer: seq<Value>, ret: seq<Value>)
    requires i < d - 1 && Progress(log, d, i, begin, end, p, next, answer, ret)
    ensures var more := LevelPrefixes(NodeIds(log, d), i + 1, Max(Prefix(begin, d, i + 1), 256 * p),
                                      Min(Prefix(end, d, i + 1) + 1, 256 * p + 256));
            Progress(log, d, i, begin, end, p + 1, next + more, answer, ret)
  {
    hide NodeIds, Prefix, Absorb, LevelPrefixes;
    LevelJoin(NodeIds(log, d), i + 1, Prefix(begin, d, i + 1), Prefix(end, d, i + 1) + 1, 256 * p, 256 * p + 256);
  }

  /** A leaf merges its keys in range. */
  lemma ProgressLeaf(log: Log, d: nat, i: nat, begin: nat, end: nat, p: nat,
                     next: seq<nat>, answer: seq<Value>, ret: seq<Value>)
    requires i < d && i == d - 1 && Progress(log, d, i, begin, end, p, next, answer, ret)
    ensures Progress(log, d, i, begin, end, p + 1, next,
                     Absorb(log, Max(begin, 256 * p), Min(end + 1, 256 * p + 256), answer), ret)
  {
    hide NodeIds, Absorb;
    PrefixAll(begin, d);
    PrefixAll(end, d);
    AbsorbJoin(log, begin, end + 1, 256 * p, 256 * p + 256, ret);
  }

  /** When no node is left, the next level's queue is complete, and so is the answer after the leaves. */
  lemma ProgressEnd(log: Log, d: nat, i: nat, begin: nat, end: nat, c: nat,
                    next: seq<nat>, answer: seq<Value>, ret: seq<Value>)
    requires i < d && NoNodes(NodeIds(log, d), i, c, Prefix(end, d, i) + 1)
    requires Progress(log, d, i, begin, end, c, next, answer, ret)
    ensures i == d - 1 ==> answer == Absorb(log, begin, end + 1, ret)
    ensures i < d - 1 ==> answer == ret && next == InReach(log, d, i + 1, begin, end)
  {
    hide NodeIds, Prefix, Absorb, LevelPrefixes;
    PrefixParent(end, d, i);
    PrefixAll(begin, d);
    PrefixAll(end, d);
    if c <= Prefix(end, d, i) {
      ProgressGap(log, d, i, begin, end, c, Prefix(end, d, i) + 1, next, answer, ret);
    }
  }

  /** The prefixes of level i between those of begin and end. */
  function InReach(log: Log, d: nat, i: nat, begin: nat, end: nat): seq<nat>
    requires i <= d
  {
    LevelPrefixes(NodeIds(log, d), i, Prefix(begin, d, i), Prefix(end, d, i) + 1)
  }

  lemma StartInReach(log: Log, d: nat, begin: nat, end: nat)
    requires begin < Pow256(d) && end < Pow256(d)
    ensures InReach(log, d, 0, begin, end) == [0]
  {
    hide NodeIds, Prefix;
    PrefixNone(begin, d);
    PrefixNone(end, d);
    NodeIdsMember(log, d, ROOT);
    assert LevelPrefixes(NodeIds(log, d), 0, 0, 0) == [];
  }

  /** A logged key in range has its leaf in reach, and with it every node on its path. */
  lemma PathInReach(log: Log, d: nat, i: nat, begin: nat, end: nat, key: nat)
    requires i < d && begin <= key <= end && ValuesOf(log, key) != []
    ensures Prefix(key, d, i) in InReach(log, d, i, begin, end)
  {
    hide NodeIds, Prefix, LevelPrefixes, ValuesOf;
    PrefixMonotone(begin, key, d, i);
    PrefixMonotone(key, end, d, i);
    ValuesOfNone(log, key);
    var e :| e in log && e.key == key;
    NodeIdsMember(log, d, PathNode(key, d, i));
    assert OnPath(PathNode(key, d, i), e.key, d);
    LevelMembers(NodeIds(log, d), i, Prefix(begin, d, i), Prefix(end, d, i) + 1);
  }

  /** If a level is out of reach, no logged key is in range, and no deeper level is in reach. */
  lemma OutOfReach(log: Log, d: nat, i: nat, begin: nat, end: nat, ret: seq<Value>)
    requires i < d && InReach(log, d, i, begin, end) == []
    ensures Absorb(log, begin, end + 1, ret) == ret
    ensures InReach(log, d, d - 1, begin, end) == []
  {
    hide NodeIds, Prefix, LevelPrefixes, ValuesOf, InReach, Absorb;
    forall k | begin <= k < end + 1 ensures ValuesOf(log, k) == [] {
      if ValuesOf(log, k) != [] { PathInReach(log, d, i, begin, end, k); }
    }
    if begin <= end + 1 { AbsorbGap(log, begin, begin, end + 1, ret); AbsorbNone(log, begin, begin, ret); }
    else { AbsorbNone(log, begin, end + 1, ret); }
    if InReach(log, d, d - 1, begin, end) != [] { LeafReachesUp(log, d, i, begin, end); }
  }

  lemma LeafReachesUp(log: Log, d: nat, i: nat, begin: nat, end: nat)
    requires i < d && InReach(log, d, d - 1, begin, end) != []
    ensures InReach(log, d, i, begin, end) != []
  {
    hide NodeIds, Prefix, LevelPrefixes, Div;
    var ids := NodeIds(log, d);
    LevelMembers(ids, d - 1, Prefix(begin, d, d - 1), Prefix(end, d, d - 1) + 1);
    LevelMembers(ids, i, Prefix(begin, d, i), Prefix(end, d, i) + 1);
    var p := InReach(log, d, d - 1, begin, end)[0];
    assert p in InReach(log, d, d - 1, begin, end);
    if i < d - 1 { AncestorInReach(log, d, i, begin, end, p); }
  }

  lemma AncestorInReach(log: Log, d: nat, i: nat, begin: nat, end: nat, p: nat)
    requires i < d - 1 && Id(d - 1, p) in NodeIds(log, d) && Prefix(begin, d, d - 1) <= p <= Prefix(end, d, d - 1)
    ensures exists q :: q in InReach(log, d, i, begin, end)
  {
    hide NodeIds, Prefix, LevelPrefixes;
    NodeIdsMember(log, d, Id(d - 1, p));
    var e :| e in log && OnPath(Id(d - 1, p), e.key, d);
    AncestorInRange(e.key, begin, end, d, d - 1, i);
    NodeIdsMember(log, d, PathNode(e.key, d, i));
    assert OnPath(PathNode(e.key, d, i), e.key, d);
    LevelMembers(NodeIds(log, d), i, Prefix(begin, d, i), Prefix(end, d, i) + 1);
    assert Prefix(e.key, d, i) in InReach(log, d, i, begin, end);
  }
}
