/** Answers of the index queries and how a filter combines them. */
module OffsetsResults {
  import opened FlowLog

  /** The two-pointer walk of intersection: values of a whose offset b has too. */
  function Common(a: seq<Value>, b: seq<Value>): seq<Value>
    decreases |a| + |b|
  {
    if a == [] || b == [] then []
    else if a[0].offset == b[0].offset then [a[0]] + Common(a[1..], b[1..])
    else if a[0].offset > b[0].offset then Common(a, b[1..])
    else Common(a[1..], b)
  }

  /** The two-pointer walk of merge, which ends with the shorter input. */
  function Blend(a: seq<Value>, b: seq<Value>): seq<Value>
    decreases |a| + |b|
  {
    if a == [] || b == [] then []
    else if a[0].offset == b[0].offset then [a[0]] + Blend(a[1..], b[1..])
    else if a[0].offset > b[0].offset then [b[0]] + Blend(a, b[1..])
    else [a[0]] + Blend(a[1..], b)
  }

  ghost predicate HasOffset(vs: seq<Value>, offset: nat) {
    exists v :: v in vs && v.offset == offset
  }

  lemma HasHead(vs: seq<Value>, offset: nat)
    requires vs != []
    ensures HasOffset(vs, offset) <==> vs[0].offset == offset || HasOffset(vs[1..], offset)
  {
    assert forall v :: v in vs <==> v == vs[0] || v in vs[1..];
  }

  lemma AscendingRest(vs: seq<Value>)
    requires OffsetAscending(vs) && vs != []
    ensures OffsetAscending(vs[1..]) && forall v :: v in vs[1..] ==> vs[0].offset < v.offset
    ensures forall v :: v in vs <==> v == vs[0] || v in vs[1..]
  {}

  lemma AscendingCons(v: Value, vs: seq<Value>)
    requires OffsetAscending(vs) && forall w :: w in vs ==> v.offset < w.offset
    ensures OffsetAscending([v] + vs)
  {
    forall j | 0 <= j < |vs| ensures v.offset < vs[j].offset { assert vs[j] in vs; }
  }

  /** No later value has the offset of an earlier one. */
  lemma AboveMisses(vs: seq<Value>, offset: nat)
    requires forall v :: v in vs ==> offset < v.offset
    ensures !HasOffset(vs, offset)
  {}

  /** On ascending lists, intersection keeps exactly the values whose offset is in both, in order. */
  lemma {:induction false} CommonMeaning(a: seq<Value>, b: seq<Value>)
    requires OffsetAscending(a) && OffsetAscending(b)
    ensures OffsetAscending(Common(a, b))
    ensures forall v :: v in Common(a, b) <==> v in a && HasOffset(b, v.offset)
    decreases |a| + |b|
  {
    if a != [] && b != [] {
      hide HasOffset, OffsetAscending;
      AscendingRest(a);
      AscendingRest(b);
      forall v: Value
        ensures HasOffset(b, v.offset) <==> b[0].offset == v.offset || HasOffset(b[1..], v.offset)
      { HasHead(b, v.offset); }
      if a[0].offset == b[0].offset {
        CommonMeaning(a[1..], b[1..]);
        AscendingCons(a[0], Common(a[1..], b[1..]));
      } else if a[0].offset > b[0].offset {
        CommonMeaning(a, b[1..]);
      } else {
        CommonMeaning(a[1..], b);
        AboveMisses(b[1..], a[0].offset);
      }
    } else {
      NothingHere();
    }
  }

  lemma NothingHere()
    ensures OffsetAscending([]) && forall offset: nat :: !HasOffset([], offset)
  {}

  function Last(vs: seq<Value>): Value
    requires vs != []
  {
    vs[|vs| - 1]
  }

  /** What merge keeps: the values of both, those of a on equal offsets, up to the smaller last offset. */
  ghost predicate Kept(v: Value, a: seq<Value>, b: seq<Value>) {
    && a != [] && b != [] && v.offset <= Last(a).offset && v.offset <= Last(b).offset
    && (v in a || (v in b && !HasOffset(a, v.offset)))
  }

  lemma LastOfRest(vs: seq<Value>)
    requires OffsetAscending(vs) && vs != []
    ensures |vs| > 1 ==> Last(vs[1..]) == Last(vs)
    ensures |vs| == 1 ==> vs == [Last(vs)] && vs[1..] == []
    ensures forall v :: v in vs ==> vs[0].offset <= v.offset <= Last(vs).offset
  {}

  lemma KeptRest(v: Value, a: seq<Value>, b: seq<Value>)
    requires OffsetAscending(a) && OffsetAscending(b) && a != [] && b != []
    ensures a[0].offset == b[0].offset ==> (Kept(v, a, b) <==> v == a[0] || Kept(v, a[1..], b[1..]))
    ensures a[0].offset > b[0].offset ==> (Kept(v, a, b) <==> v == b[0] || Kept(v, a, b[1..]))
    ensures a[0].offset < b[0].offset ==> (Kept(v, a, b) <==> v == a[0] || Kept(v, a[1..], b))
  {
    AscendingRest(a);
    AscendingRest(b);
    LastOfRest(a);
    LastOfRest(b);
    HasHead(a, v.offset);
    AboveMisses(a[1..], a[0].offset);
    if a[0].offset > b[0].offset { AboveMisses(a, b[0].offset); }
  }

  lemma {:induction false} BlendMeaning(a: seq<Value>, b: seq<Value>)
    requires OffsetAscending(a) && OffsetAscending(b)
    ensures OffsetAscending(Blend(a, b))
    ensures forall v :: v in Blend(a, b) <==> Kept(v, a, b)
    decreases |a| + |b|
  {
    if a != [] && b != [] {
      hide Kept, OffsetAscending;
      AscendingRest(a);
      AscendingRest(b);
      forall v: Value
        ensures a[0].offset == b[0].offset ==> (Kept(v, a, b) <==> v == a[0] || Kept(v, a[1..], b[1..]))
        ensures a[0].offset > b[0].offset ==> (Kept(v, a, b) <==> v == b[0] || Kept(v, a, b[1..]))
        ensures a[0].offset < b[0].offset ==> (Kept(v, a, b) <==> v == a[0] || Kept(v, a[1..], b))
      { KeptRest(v, a, b); }
      if a[0].offset == b[0].offset {
        BlendMeaning(a[1..], b[1..]);
        KeptFrom(a[1..], b[1..], a[0].offset);
        AscendingCons(a[0], Blend(a[1..], b[1..]));
      } else if a[0].offset > b[0].offset {
        BlendMeaning(a, b[1..]);
        KeptFrom(a, b[1..], b[0].offset);
        AscendingCons(b[0], Blend(a, b[1..]));
      } else {
        BlendMeaning(a[1..], b);
        KeptFrom(a[1..], b, a[0].offset);
        AscendingCons(a[0], Blend(a[1..], b));
      }
    }
  }

  lemma KeptFrom(a: seq<Value>, b: seq<Value>, offset: nat)
    requires OffsetAscending(a) && OffsetAscending(b)
    requires (forall v :: v in a ==> offset < v.offset) && (forall v :: v in b ==> offset < v.offset)
    ensures forall v :: Kept(v, a, b) ==> offset < v.offset
  {}

  /** Every offset of both lists has been kept. */
  ghost predicate FullUnion(a: seq<Value>, b: seq<Value>) {
    forall v :: v in a || v in b ==> HasOffset(Blend(a, b), v.offset)
  }

  /** Merge gives the whole union exactly if both lists end with the same offset, or are both empty. */
  lemma MergeIsUnion(a: seq<Value>, b: seq<Value>)
    requires OffsetAscending(a) && OffsetAscending(b)
    ensures FullUnion(a, b) <==> (if a == [] || b == [] then a == b else Last(a).offset == Last(b).offset)
  {
    BlendMeaning(a, b);
    if a != [] && b != [] {
      LastOfRest(a);
      LastOfRest(b);
      if Last(a).offset == Last(b).offset {
        forall v | v in a || v in b ensures HasOffset(Blend(a, b), v.offset) {
          UnionKeeps(a, b, v);
        }
      } else {
        assert Last(a) in a && Last(b) in b;
      }
    } else {
      if a != [] { assert Last(a) in a; }
      if b != [] { assert Last(b) in b; }
    }
  }

  lemma UnionKeeps(a: seq<Value>, b: seq<Value>, v: Value)
    requires OffsetAscending(a) && OffsetAscending(b) && a != [] && b != [] && Last(a).offset == Last(b).offset
    requires v in a || v in b
    ensures HasOffset(Blend(a, b), v.offset)
  {
    BlendMeaning(a, b);
    LastOfRest(a);
    LastOfRest(b);
    if v in a {
      assert Kept(v, a, b);
    } else if HasOffset(a, v.offset) {
      var w :| w in a && w.offset == v.offset;
      assert Kept(w, a, b);
    } else {
      assert Kept(v, a, b);
    }
  }

  /** The part of the walk that is still to come, from i and j on, completes temp. */
  ghost predicate Blending(a: seq<Value>, b: seq<Value>, i: nat, j: nat, temp: seq<Value>) {
    i <= |a| && j <= |b| && temp + Blend(a[i..], b[j..]) == Blend(a, b)
  }

  lemma BlendingStep(a: seq<Value>, b: seq<Value>, i: nat, j: nat, temp: seq<Value>)
    requires Blending(a, b, i, j, temp) && i < |a| && j < |b|
    ensures a[i].offset == b[j].offset ==> Blending(a, b, i + 1, j + 1, temp + [a[i]])
    ensures a[i].offset > b[j].offset ==> Blending(a, b, i, j + 1, temp + [b[j]])
    ensures a[i].offset < b[j].offset ==> Blending(a, b, i + 1, j, temp + [a[i]])
  {
    assert a[i..][1..] == a[i + 1..] && b[j..][1..] == b[j + 1..];
  }

  /** The answer of a query, which a filter changes in place. */
  class OffsetsResult {
    var offsets: seq<Value>

    constructor (vs: seq<Value>)
      ensures offsets == vs
    {
      offsets := vs;
    }

    method Intersection(result: OffsetsResult)
      modifies this
      ensures offsets == Common(old(offsets), old(result.offsets))
    {
      var temp: seq<Value> := [];
      var i, j := 0, 0;
      while i < |offsets| && j < |result.offsets|
        invariant 0 <= i <= |offsets| && 0 <= j <= |result.offsets|
        invariant temp + Common(offsets[i..], result.offsets[j..]) == Common(offsets, result.offsets)
        decreases |offsets| - i + |result.offsets| - j
      {
        assert offsets[i..][1..] == offsets[i + 1..] && result.offsets[j..][1..] == result.offsets[j + 1..];
        if offsets[i].offset == result.offsets[j].offset {
          temp := temp + [offsets[i]];
          i, j := i + 1, j + 1;
        } else if offsets[i].offset > result.offsets[j].offset {
          j := j + 1;
        } else {
          i := i + 1;
        }
      }
      offsets := temp;
    }

    method Merge(result: OffsetsResult)
      modifies this
      ensures offsets == Blend(old(offsets), old(result.offsets))
    {
      hide Blending;
      var temp: seq<Value> := [];
      var i, j := 0, 0;
      BlendingStart(offsets, result.offsets);
      while i < |offsets| && j < |result.offsets|
        invariant 0 <= i <= |offsets| && 0 <= j <= |result.offsets| && Blending(offsets, result.offsets, i, j, temp)
        invariant offsets == old(offsets) && result.offsets == old(result.offsets)
        decreases |offsets| - i + |result.offsets| - j
      {
        BlendingStep(offsets, result.offsets, i, j, temp);
        if offsets[i].offset == result.offsets[j].offset {
          temp := temp + [offsets[i]];
          i, j := i + 1, j + 1;
        } else if offsets[i].offset > result.offsets[j].offset {
          temp := temp + [result.offsets[j]];
          j := j + 1;
        } else {
          temp := temp + [offsets[i]];
          i := i + 1;
        }
      }
      BlendingEnd(offsets, result.offsets, i, j, temp);
      offsets := temp;
    }
  }

  lemma BlendingStart(a: seq<Value>, b: seq<Value>)
    ensures Blending(a, b, 0, 0, [])
  {}

  lemma BlendingEnd(a: seq<Value>, b: seq<Value>, i: nat, j: nat, temp: seq<Value>)
    requires Blending(a, b, i, j, temp) && (i == |a| || j == |b|)
    ensures temp == Blend(a, b)
  {}
}
