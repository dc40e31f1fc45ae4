/** Which nodes a trie has: the prefixes of its logged keys. */
module TriePaths {
  import opened Enumerate
  import opened FlowLog
  import opened Radix

  /** A node is known by its level and the number formed by the bytes on the way to it. */
  datatype Id = Id(level: nat, prefix: nat)

  const ROOT: Id := Id(0, 0)

  function Child(id: Id, b: nat): Id {
    Id(id.level + 1, 256 * id.prefix + b)
  }

  /** The node at level i on the path of a key. */
  function PathNode(key: nat, d: nat, i: nat): Id
    requires i <= d
  {
    Id(i, Prefix(key, d, i))
  }

  function PathIds(key: nat, d: nat, n: nat): set<Id>
    requires n <= d
  {
    if n == 0 then {} else PathIds(key, d, n - 1) + {PathNode(key, d, n - 1)}
  }

  /** The root and every node on the path of a logged key. */
  function NodeIds(log: Log, d: nat): set<Id> {
    if log == [] then {ROOT} else NodeIds(log[..|log| - 1], d) + PathIds(log[|log| - 1].key, d, d)
  }

  ghost predicate KeysFit(log: Log, d: nat) {
    forall e :: e in log ==> e.key < Pow256(d)
  }

  ghost predicate OnPath(id: Id, key: nat, d: nat) {
    id.level < d && id == PathNode(key, d, id.level)
  }

  lemma {:induction false} PathIdsMember(key: nat, d: nat, n: nat, id: Id)
    requires n <= d
    ensures id in PathIds(key, d, n) <==> id.level < n && OnPath(id, key, d)
  {
    if n > 0 { PathIdsMember(key, d, n - 1, id); }
  }

  lemma {:induction false} NodeIdsMember(log: Log, d: nat, id: Id)
    ensures id in NodeIds(log, d) <==> id == ROOT || exists e :: e in log && OnPath(id, e.key, d)
  {
    if log != [] {
      var init, last := log[..|log| - 1], log[|log| - 1];
      assert log == init + [last];
      NodeIdsMember(init, d, id);
      PathIdsMember(last.key, d, d, id);
    }
  }

  lemma NodeIdsAppend(log: Log, d: nat, e: Entry)
    ensures NodeIds(log + [e], d) == NodeIds(log, d) + PathIds(e.key, d, d)
  {
    assert (log + [e])[..|log|] == log;
  }

  /** The leaf of every logged key is a node. */
  lemma LoggedLeaf(log: Log, d: nat, key: nat)
    requires d >= 1 && ValuesOf(log, key) != []
    ensures PathNode(key, d, d - 1) in NodeIds(log, d)
  {
    ValuesOfNone(log, key);
    var e :| e in log && e.key == key;
    NodeIdsMember(log, d, PathNode(key, d, d - 1));
    assert OnPath(PathNode(key, d, d - 1), e.key, d);
  }

  lemma NothingLogged(log: Log, d: nat, id: Id, key: nat)
    requires d >= 1 && id !in NodeIds(log, d) && id == Id(d - 1, key / 256)
    ensures ValuesOf(log, key) == []
  {
    PrefixParent(key, d, d - 1);
    PrefixAll(key, d);
    if ValuesOf(log, key) != [] { LoggedLeaf(log, d, key); }
  }

  /** A node other than the root hangs below the node of its prefix without the last byte. */
  lemma ParentIsNode(log: Log, d: nat, id: Id)
    requires id in NodeIds(log, d) && id.level > 0
    ensures Id(id.level - 1, id.prefix / 256) in NodeIds(log, d)
  {
    NodeIdsMember(log, d, id);
    var e :| e in log && OnPath(id, e.key, d);
    var parent := Id(id.level - 1, id.prefix / 256);
    PrefixParent(e.key, d, id.level - 1);
    NodeIdsMember(log, d, parent);
    assert OnPath(parent, e.key, d);
  }

  lemma LevelBound(log: Log, d: nat, id: Id)
    requires d >= 1 && KeysFit(log, d) && id in NodeIds(log, d)
    ensures id.level < d && id.prefix < Pow256(id.level)
  {
    NodeIdsMember(log, d, id);
    if id != ROOT {
      var e :| e in log && OnPath(id, e.key, d);
      PrefixBound(e.key, d, id.level);
    }
  }

  /** A prefix of a prefix. */
  lemma PrefixOfPrefix(k: nat, d: nat, j: nat, i: nat)
    requires i <= j <= d
    ensures Prefix(k, d, i) == Div(Prefix(k, d, j), Pow256(j - i))
  {
    Pow256Split(d - j, j - i);
    DivTwice(k, Pow256(d - j), Pow256(j - i), Pow256(d - i));
  }

  /** If a level-j prefix of a key lies in the range, so do its shorter prefixes. */
  lemma AncestorInRange(k: nat, lo: nat, hi: nat, d: nat, j: nat, i: nat)
    requires i <= j <= d && Prefix(lo, d, j) <= Prefix(k, d, j) <= Prefix(hi, d, j)
    ensures Prefix(lo, d, i) <= Prefix(k, d, i) <= Prefix(hi, d, i)
  {
    PrefixOfPrefix(k, d, j, i);
    PrefixOfPrefix(lo, d, j, i);
    PrefixOfPrefix(hi, d, j, i);
    DivMonotone(Prefix(lo, d, j), Prefix(k, d, j), Pow256(j - i));
    DivMonotone(Prefix(k, d, j), Prefix(hi, d, j), Pow256(j - i));
  }

  /** The proper non-empty byte prefixes of the logged keys, each with its length. */
  function ProperPrefixes(log: Log, d: nat): set<Id> {
    if log == [] then {} else ProperPrefixes(log[..|log| - 1], d) + (PathIds(log[|log| - 1].key, d, d) - {ROOT})
  }

  lemma {:induction false} NodesAreRootAndPrefixes(log: Log, d: nat)
    requires d >= 1 && KeysFit(log, d)
    ensures NodeIds(log, d) == ProperPrefixes(log, d) + {ROOT} && ROOT !in ProperPrefixes(log, d)
    ensures |NodeIds(log, d)| == 1 + |ProperPrefixes(log, d)|
  {
    if log != [] {
      NodesAreRootAndPrefixes(log[..|log| - 1], d);
    }
  }

  // ---- the prefixes of one level ----

  /** The level's prefixes in [lo, hi), ascending. */
  function LevelPrefixes(ids: set<Id>, level: nat, lo: nat, hi: nat): seq<nat>
    decreases hi
  {
    if hi <= lo then [] else LevelPrefixes(ids, level, lo, hi - 1) + (if Id(level, hi - 1) in ids then [hi - 1] else [])
  }

  lemma LongerAscends(p: seq<nat>, x: nat)
    requires StrictlyAscending(p) && forall y :: y in p ==> y < x
    ensures StrictlyAscending(p + [x])
  {
    assert forall i :: 0 <= i < |p| ==> p[i] in p;
  }

  lemma {:induction false} LevelMember(ids: set<Id>, level: nat, lo: nat, hi: nat, c: nat)
    ensures c in LevelPrefixes(ids, level, lo, hi) <==> lo <= c < hi && Id(level, c) in ids
    decreases hi
  {
    if lo < hi {
      LevelMember(ids, level, lo, hi - 1, c);
      LevelStep(ids, level, lo, hi);
      hide LevelPrefixes;
    }
  }

  lemma {:induction false} LevelAscends(ids: set<Id>, level: nat, lo: nat, hi: nat)
    ensures StrictlyAscending(LevelPrefixes(ids, level, lo, hi))
    decreases hi
  {
    if lo < hi {
      LevelAscends(ids, level, lo, hi - 1);
      LevelStep(ids, level, lo, hi);
      hide StrictlyAscending, LevelPrefixes;
      var p := LevelPrefixes(ids, level, lo, hi - 1);
      forall y | y in p ensures y < hi - 1 { LevelMember(ids, level, lo, hi - 1, y); }
      if Id(level, hi - 1) in ids { LongerAscends(p, hi - 1); }
    }
  }

  lemma LevelMembers(ids: set<Id>, level: nat, lo: nat, hi: nat)
    ensures StrictlyAscending(LevelPrefixes(ids, level, lo, hi))
    ensures forall c :: c in LevelPrefixes(ids, level, lo, hi) <==> lo <= c < hi && Id(level, c) in ids
  {
    hide StrictlyAscending, LevelPrefixes;
    LevelAscends(ids, level, lo, hi);
    forall c ensures c in LevelPrefixes(ids, level, lo, hi) <==> lo <= c < hi && Id(level, c) in ids {
      if c >= 0 { LevelMember(ids, level, lo, hi, c); }
    }
  }

  lemma LevelStep(ids: set<Id>, level: nat, lo: nat, hi: nat)
    requires lo < hi
    ensures LevelPrefixes(ids, level, lo, hi) ==
              if Id(level, hi - 1) in ids then LevelPrefixes(ids, level, lo, hi - 1) + [hi - 1]
              else LevelPrefixes(ids, level, lo, hi - 1)
  {}

  ghost predicate NoNodes(ids: set<Id>, level: nat, lo: nat, hi: nat) {
    forall c :: lo <= c < hi ==> Id(level, c) !in ids
  }

  lemma {:induction false} LevelGap(ids: set<Id>, level: nat, lo: nat, mid: nat, hi: nat)
    requires mid <= hi && NoNodes(ids, level, mid, hi)
    ensures LevelPrefixes(ids, level, lo, hi) == LevelPrefixes(ids, level, lo, mid)
    decreases hi
  {
    if mid < hi { LevelGap(ids, level, lo, mid, hi - 1); }
  }

  lemma {:induction false} LevelCompose(ids: set<Id>, level: nat, lo: nat, mid: nat, hi: nat)
    requires lo <= mid <= hi
    ensures LevelPrefixes(ids, level, lo, mid) + LevelPrefixes(ids, level, mid, hi) == LevelPrefixes(ids, level, lo, hi)
    decreases hi
  {
    if mid < hi { LevelCompose(ids, level, lo, mid, hi - 1); }
  }

  lemma LevelNone(ids: set<Id>, level: nat, lo: nat, hi: nat)
    requires hi <= lo
    ensures LevelPrefixes(ids, level, lo, hi) == []
  {}

  lemma {:induction false} LevelEmpty(ids: set<Id>, level: nat, lo: nat, hi: nat)
    requires LevelPrefixes(ids, level, lo, hi) == []
    ensures NoNodes(ids, level, lo, hi)
    decreases hi
  {
    if lo < hi { LevelEmpty(ids, level, lo, hi - 1); }
  }

  /** The first prefix of a level, and the others. */
  lemma {:induction false} LevelHead(ids: set<Id>, level: nat, lo: nat, hi: nat)
    requires LevelPrefixes(ids, level, lo, hi) != []
    ensures var ps := LevelPrefixes(ids, level, lo, hi);
            && lo <= ps[0] < hi && Id(level, ps[0]) in ids && ps[1..] == LevelPrefixes(ids, level, ps[0] + 1, hi)
            && NoNodes(ids, level, lo, ps[0])
    decreases hi
  {
    if LevelPrefixes(ids, level, lo, hi - 1) != [] {
      LevelHead(ids, level, lo, hi - 1);
    } else {
      LevelEmpty(ids, level, lo, hi - 1);
    }
  }

  /** Prefixes without a node have no nodes below. */
  lemma NoNodesBelow(log: Log, d: nat, level: nat, lo: nat, hi: nat)
    requires NoNodes(NodeIds(log, d), level, lo, hi)
    ensures NoNodes(NodeIds(log, d), level + 1, 256 * lo, 256 * hi)
  {
    var below := level + 1;
    forall c: nat | 256 * lo <= c < 256 * hi ensures Id(below, c) !in NodeIds(log, d) {
      if Id(below, c) in NodeIds(log, d) { ParentIsNode(log, d, Id(below, c)); }
    }
  }

  lemma NoValuesBelow(log: Log, d: nat, level: nat, lo: nat, hi: nat)
    requires d >= 1 && level == d - 1 && NoNodes(NodeIds(log, d), level, lo, hi)
    ensures forall k :: 256 * lo <= k < 256 * hi ==> ValuesOf(log, k) == []
  {
    hide NodeIds, ValuesOf;
    forall k: nat | 256 * lo <= k < 256 * hi ensures ValuesOf(log, k) == [] {
      NothingLogged(log, d, Id(level, k / 256), k);
    }
  }
}
