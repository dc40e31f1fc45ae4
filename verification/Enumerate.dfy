/** Ascending enumeration of a set of slot numbers, the order in which a bitmap lists its set bits. */
module Enumerate {

  function Ascending(s: set<nat>, n: nat): seq<nat> {
    if n == 0 then [] else Ascending(s, n - 1) + (if n - 1 in s then [n - 1] else [])
  }

  ghost predicate StrictlyAscending(xs: seq<nat>) {
    forall i, j :: 0 <= i < j < |xs| ==> xs[i] < xs[j]
  }

  lemma {:induction false} AscendingIsSortedEnumeration(s: set<nat>, n: nat)
    ensures StrictlyAscending(Ascending(s, n))
    ensures forall x :: x in Ascending(s, n) <==> x in s && x < n
  {
    if n > 0 {
      AscendingIsSortedEnumeration(s, n - 1);
      var p := Ascending(s, n - 1);
      assert forall i :: 0 <= i < |p| ==> p[i] in p;
    }
  }

  lemma AscendingStep(s: set<nat>, n: nat)
    ensures Ascending(s, n + 1) == if n in s then Ascending(s, n) + [n] else Ascending(s, n)
  {}

  lemma {:induction false} AscendingCount(s: set<nat>, n: nat)
    ensures |Ascending(s, n)| == |set x | x in s && x < n|
  {
    if n == 0 {
      assert (set x | x in s && x < n) == {};
    } else {
      AscendingCount(s, n - 1);
      var below := set x | x in s && x < n - 1;
      assert (set x | x in s && x < n) == if n - 1 in s then below + {n - 1} else below;
    }
  }

  lemma AscendingCountAll(s: set<nat>, n: nat)
    requires forall x :: x in s ==> x < n
    ensures |Ascending(s, n)| == |s|
  {
    AscendingCount(s, n);
    assert (set x | x in s && x < n) == s;
  }

  lemma {:induction false} AscendingLength(s: set<nat>, n: nat)
    ensures |Ascending(s, n)| <= n
  {
    if n > 0 { AscendingLength(s, n - 1); }
  }

  lemma {:induction false} AscendingGap(s: set<nat>, m: nat, n: nat)
    requires m <= n && forall x :: m <= x < n ==> x !in s
    ensures Ascending(s, n) == Ascending(s, m)
  {
    if m < n {
      AscendingGap(s, m, n - 1);
    }
  }

  lemma {:induction false} AscendingPrefix(s: set<nat>, m: nat, n: nat)
    requires m <= n
    ensures Ascending(s, m) <= Ascending(s, n)
  {
    if m < n {
      AscendingPrefix(s, m, n - 1);
    }
  }

  /** A list of positions made before b was taken does not begin the list made afterwards, if a larger position was
      taken. */
  lemma ListedTooEarly(s: set<nat>, b: nat, c: nat, n: nat)
    requires b !in s && c in s && b < c < n
    ensures !(Ascending(s, n) <= Ascending(s + {b}, n))
  {
    var before, after := Ascending(s, n), Ascending(s + {b}, n);
    AscendingIsSortedEnumeration(s, n);
    AscendingIsSortedEnumeration(s + {b}, n);
    assert b in after && c in before;
    var i :| 0 <= i < |after| && after[i] == b;
    var j :| 0 <= j < |before| && before[j] == c;
    assert i < |before| ==> before[i] in before;
  }
}
