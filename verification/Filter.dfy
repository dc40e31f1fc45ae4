/** Filters over stored flows: what the parser's actions compute and which flows they select. */
module Filters {
  import opened FlowLog
  import opened Indexes
  import opened IpPatterns
  import opened OffsetsResults
  import opened Radix
  import opened Tries
  import opened Words

  /** AND and OR have the same precedence and associate to the left, so a right operand is an atom or in parentheses. */
  datatype Primary =
    | SipIs(p: Pattern)
    | DipIs(p: Pattern)
    | SportIs(n: int)
    | DportIs(n: int)
    | ProtoIs(n: int)
    | Paren(e: Expr)

  datatype Expr = One(t: Primary) | And(left: Expr, right: Primary) | Or(left: Expr, right: Primary)

  /** The index an atom asks and the key range, in that index's key type. */
  function CodeOf(t: Primary): IndexCode
    requires !t.Paren?
  {
    match t
    case SipIs(_) => SRCIP
    case DipIs(_) => DSTIP
    case SportIs(_) => SPORT
    case DportIs(_) => DPORT
    case ProtoIs(_) => PROTO
  }

  function LowOf(t: Primary): nat
    requires !t.Paren?
  {
    match t
    case SipIs(p) => Assemble(p, 0)
    case DipIs(p) => Assemble(p, 0)
    case SportIs(n) => n % 0x1_0000
    case DportIs(n) => n % 0x1_0000
    case ProtoIs(n) => n % 0x100
  }

  function HighOf(t: Primary): nat
    requires !t.Paren?
  {
    match t
    case SipIs(p) => Assemble(p, 255)
    case DipIs(p) => Assemble(p, 255)
    case SportIs(n) => n % 0x1_0000
    case DportIs(n) => n % 0x1_0000
    case ProtoIs(n) => n % 0x100
  }

  /** The answers of the actions for the flows given to the indexes. */
  ghost function AnswerTo(t: Primary, flows: seq<Flow>): seq<Value>
    decreases t
  {
    if t.Paren? then Answer(t.e, flows)
    else Absorb(Keyed(CodeOf(t), flows), LowOf(t), HighOf(t) + 1, [])
  }

  ghost function Answer(f: Expr, flows: seq<Flow>): seq<Value>
    decreases f
  {
    match f
    case One(t) => AnswerTo(t, flows)
    case And(l, r) => Common(Answer(l, flows), AnswerTo(r, flows))
    case Or(l, r) => Blend(Answer(l, flows), AnswerTo(r, flows))
  }

  /** Every index has been drained, and no position list is out of date. */
  ghost predicate Drained(index: Index)
    reads index, index.Repr
  {
    index.Valid() && forall c: IndexCode :: index.Base(c).records == [] && AllFresh(index.Base(c).index.views)
  }

  lemma DrainedBase(index: Index, code: IndexCode)
    requires Drained(index)
    ensures index.Valid() && AllFresh(index.Base(code).index.views)
            && index.Base(code).index.log == Keyed(code, index.flows)
  {
    hide IndexBase.Valid, Keyed, AllFresh;
    assert index.Kept(code, index.flows);
  }

  lemma RangeFits(t: Primary)
    requires !t.Paren?
    ensures LowOf(t) < Pow256(Width(CodeOf(t))) && HighOf(t) < Pow256(Width(CodeOf(t)))
  {
    hide Assemble;
    Pow256Values();
    if t.SipIs? || t.DipIs? {
      AssembledFits(t.p, 0);
      AssembledFits(t.p, 255);
    }
  }

  lemma ModOf(n: int, q: int, r: int, m: int)
    requires (m == 0x1_0000 || m == 0x100) && n == m * q + r && 0 <= r < m
    ensures n % m == r
  {}

  /** A 64-bit number passed as uint32_t and cut to the key type. */
  lemma Narrowed(n: int, code: IndexCode)
    requires code == SPORT || code == DPORT || code == PROTO
    ensures n % WORD % Pow256(Width(code)) == if code == PROTO then n % 0x100 else n % 0x1_0000
  {
    Pow256Values();
    var q, r := n / WORD, n % WORD;
    if code == PROTO {
      ModOf(n, 0x100_0000 * q + r / 0x100, r % 0x100, 0x100);
    } else {
      ModOf(n, 0x1_0000 * q + r / 0x1_0000, r % 0x1_0000, 0x1_0000);
    }
  }

  method QueryRange(index: Index, code: IndexCode, begin: nat, end: nat) returns (result: OffsetsResult)
    requires Drained(index)
    modifies index`Repr, index.Repr
    ensures Drained(index) && fresh(index.Repr - old(index.Repr)) && fresh(result) && result !in index.Repr
            && index.flows == old(index.flows)
    ensures result.offsets
            == Absorb(Keyed(code, index.flows), begin % Pow256(Width(code)), end % Pow256(Width(code)) + 1, [])
  {
    hide IndexBase.Valid, Keyed, AllFresh, Absorb;
    DrainedBase(index, code);
    assert index.Base(code) in index.Repr;
    result := index.QueryFromMem(code, begin, end);
  }

  /** The action of an atom. */
  method EvalAtom(t: Primary, index: Index) returns (result: OffsetsResult)
    requires Drained(index) && !t.Paren?
    modifies index`Repr, index.Repr
    ensures Drained(index) && fresh(index.Repr - old(index.Repr)) && fresh(result) && result !in index.Repr
            && index.flows == old(index.flows)
    ensures result.offsets == AnswerTo(t, index.flows)
  {
    hide Drained, Keyed, Absorb, Assemble, Pow256;
    RangeFits(t);
    match t {
      case SipIs(p) =>
        var ipBegin, ipEnd := ToRange(p);
        WholeRange(ipBegin, Pow256(4));
        WholeRange(ipEnd, Pow256(4));
        result := QueryRange(index, SRCIP, ipBegin, ipEnd);
      case DipIs(p) =>
        var ipBegin, ipEnd := ToRange(p);
        WholeRange(ipBegin, Pow256(4));
        WholeRange(ipEnd, Pow256(4));
        result := QueryRange(index, DSTIP, ipBegin, ipEnd);
      case SportIs(n) =>
        Narrowed(n, SPORT);
        result := QueryRange(index, SPORT, n % WORD, n % WORD);
      case DportIs(n) =>
        Narrowed(n, DPORT);
        result := QueryRange(index, DPORT, n % WORD, n % WORD);
      case ProtoIs(n) =>
        Narrowed(n, PROTO);
        result := QueryRange(index, PROTO, n % WORD, n % WORD);
    }
  }

  lemma WholeRange(x: nat, m: nat)
    requires x < m
    ensures x % m == x
  {}

  method EvalPrimary(t: Primary, index: Index) returns (result: OffsetsResult)
    requires Drained(index)
    modifies index`Repr, index.Repr
    ensures Drained(index) && fresh(index.Repr - old(index.Repr)) && fresh(result) && result !in index.Repr
            && index.flows == old(index.flows)
    ensures result.offsets == AnswerTo(t, index.flows)
    decreases t
  {
    hide Drained, Keyed, Absorb;
    if t.Paren? {
      result := Eval(t.e, index);
    } else {
      result := EvalAtom(t, index);
    }
  }

  /** The actions of nonempty_filter: the left answer is changed in place by the right one. */
  method Eval(f: Expr, index: Index) returns (result: OffsetsResult)
    requires Drained(index)
    modifies index`Repr, index.Repr
    ensures Drained(index) && fresh(index.Repr - old(index.Repr)) && fresh(result) && result !in index.Repr
            && index.flows == old(index.flows)
    ensures result.offsets == Answer(f, index.flows)
    decreases f
  {
    hide Drained, Common, Blend;
    match f {
      case One(t) =>
        result := EvalPrimary(t, index);
      case And(l, r) =>
        result := Eval(l, index);
        var other := EvalPrimary(r, index);
        result.Intersection(other);
      case Or(l, r) =>
        result := Eval(l, index);
        var other := EvalPrimary(r, index);
        result.Merge(other);
    }
  }

  // ---- what a filter selects ----

  /** The record's key is in the atom's range. */
  ghost predicate Selects(t: Primary, r: Ipv4Record)
    decreases t
  {
    if t.Paren? then SelectsAll(t.e, r) else LowOf(t) <= KeyOf(CodeOf(t), r) <= HighOf(t)
  }

  ghost predicate SelectsAll(f: Expr, r: Ipv4Record)
    decreases f
  {
    match f
    case One(t) => Selects(t, r)
    case And(left, t) => SelectsAll(left, r) && Selects(t, r)
    case Or(left, t) => SelectsAll(left, r) || Selects(t, r)
  }

  predicate OrFreePrimary(t: Primary)
    decreases t
  {
    t.Paren? ==> OrFree(t.e)
  }

  predicate OrFree(f: Expr)
    decreases f
  {
    match f
    case One(t) => OrFreePrimary(t)
    case And(left, t) => OrFree(left) && OrFreePrimary(t)
    case Or(_, _) => false
  }

  /** Every flow has a larger offset than those before it. */
  ghost predicate FlowsInOrder(flows: seq<Flow>) {
    forall i, j :: 0 <= i < j < |flows| ==> flows[i].value.offset < flows[j].value.offset
  }

  lemma {:induction false} KeyedAt(code: IndexCode, flows: seq<Flow>)
    ensures |Keyed(code, flows)| == |flows|
    ensures forall i :: 0 <= i < |flows| ==>
              Keyed(code, flows)[i] == Entry(KeyOf(code, flows[i].record), flows[i].value)
  {
    if flows != [] { KeyedAt(code, flows[..|flows| - 1]); }
  }

  lemma {:induction false} InRangeHas(log: Log, lo: nat, hi: nat, i: nat)
    requires i < |log| && lo <= log[i].key < hi
    ensures log[i].value in InRange(log, lo, hi)
  {
    if i < |log| - 1 { InRangeHas(log[..|log| - 1], lo, hi, i); }
  }

  function Records(flows: seq<Flow>): (records: seq<Ipv4Record>)
    ensures |records| == |flows| && forall i :: 0 <= i < |flows| ==> records[i] == flows[i].record
  {
    seq(|flows|, i requires 0 <= i < |flows| => flows[i].record)
  }

  /** The positions of the records a filter selects. */
  ghost function SelectedBy(f: Expr, records: seq<Ipv4Record>): set<nat> {
    set i: nat | i < |records| && SelectsAll(f, records[i])
  }

  ghost predicate Reaches(a: set<nat>, i: nat) {
    exists j :: j in a && i <= j
  }

  /** The positions of both sets up to the smaller of their last ones; none if one set is empty. */
  ghost function UpTo(a: set<nat>, b: set<nat>): set<nat> {
    set i | i in a + b && Reaches(a, i) && Reaches(b, i)
  }

  /** The positions of the records a filter finds: OR drops those behind the last one of either side. */
  ghost function FoundBy(t: Primary, records: seq<Ipv4Record>): set<nat>
    decreases t
  {
    if t.Paren? then Found(t.e, records) else set i: nat | i < |records| && Selects(t, records[i])
  }

  ghost function Found(f: Expr, records: seq<Ipv4Record>): set<nat>
    decreases f
  {
    match f
    case One(t) => FoundBy(t, records)
    case And(left, t) => Found(left, records) * FoundBy(t, records)
    case Or(left, t) => UpTo(Found(left, records), FoundBy(t, records))
  }

  ghost predicate IsValueOf(v: Value, flows: seq<Flow>, at: set<nat>) {
    exists i :: i in at && i < |flows| && flows[i].value == v
  }

  /** The answer holds exactly the values of the flows at these positions, in order. */
  ghost predicate Shows(answer: seq<Value>, flows: seq<Flow>, at: set<nat>) {
    && OffsetAscending(answer) && (forall i :: i in at ==> i < |flows|)
    && forall v :: v in answer <==> IsValueOf(v, flows, at)
  }

  lemma AtomShows(t: Primary, flows: seq<Flow>)
    requires !t.Paren? && FlowsInOrder(flows)
    ensures Shows(AnswerTo(t, flows), flows, FoundBy(t, Records(flows)))
  {
    hide Absorb, Keyed, LowOf, HighOf, KeyOf, Shows;
    RangeShows(CodeOf(t), flows, LowOf(t), HighOf(t));
    assert FoundBy(t, Records(flows)) == WithKey(CodeOf(t), Records(flows), LowOf(t), HighOf(t));
  }

  /** The positions of the records whose key in an index is in range. */
  ghost function WithKey(code: IndexCode, records: seq<Ipv4Record>, lo: nat, hi: nat): set<nat> {
    set i: nat | i < |records| && lo <= KeyOf(code, records[i]) <= hi
  }

  /** A query of an index shows the flows whose key is in range. */
  lemma RangeShows(code: IndexCode, flows: seq<Flow>, first: nat, last: nat)
    requires FlowsInOrder(flows)
    ensures Shows(Absorb(Keyed(code, flows), first, last + 1, []), flows, WithKey(code, Records(flows), first, last))
  {
    hide InRange, Absorb, Keyed, KeyOf, OffsetAscending;
    var log, lo, hi := Keyed(code, flows), first, last + 1;
    var answer, at := Absorb(log, lo, hi, []), WithKey(code, Records(flows), first, last);
    KeyedAt(code, flows);
    assert StrictlyInOrder(log) && InOrder(log);
    AbsorbIsInRange(log, lo, hi);
    InRangeSorted(log, lo, hi);
    assert answer == InRange(log, lo, hi);
    forall v | v in answer ensures IsValueOf(v, flows, at) {
      var k :| 0 <= k < |answer| && answer[k] == v;
      var i := LoggedAt(log, lo, hi, k);
      assert i in at;
    }
    forall v | IsValueOf(v, flows, at) ensures v in answer {
      var i :| i in at && i < |flows| && flows[i].value == v;
      InRangeHas(log, lo, hi, i);
    }
  }

  /** Values with the same offset are those of the same flow. */
  lemma SameFlow(flows: seq<Flow>, i: nat, j: nat)
    requires FlowsInOrder(flows) && i < |flows| && j < |flows| && flows[i].value.offset == flows[j].value.offset
    ensures i == j
  {}

  /** The answer has a flow's offset exactly if it has the flow. */
  lemma OffsetShown(answer: seq<Value>, flows: seq<Flow>, at: set<nat>, i: nat)
    requires FlowsInOrder(flows) && Shows(answer, flows, at) && i < |flows|
    ensures i in at <==> flows[i].value in answer
    ensures i in at <==> HasOffset(answer, flows[i].value.offset)
  {
    hide OffsetAscending;
    if i in at { assert IsValueOf(flows[i].value, flows, at); }
    if HasOffset(answer, flows[i].value.offset) {
      var w :| w in answer && w.offset == flows[i].value.offset;
      var j :| j in at && j < |flows| && flows[j].value == w;
      SameFlow(flows, i, j);
    }
  }

  /** AND keeps the flows that both sides have. */
  lemma BothShow(a: seq<Value>, b: seq<Value>, flows: seq<Flow>, p: set<nat>, q: set<nat>)
    requires FlowsInOrder(flows) && Shows(a, flows, p) && Shows(b, flows, q)
    ensures Shows(Common(a, b), flows, p * q)
  {
    CommonMeaning(a, b);
    hide Common, OffsetAscending, HasOffset, FlowsInOrder;
    forall v | v in Common(a, b) ensures IsValueOf(v, flows, p * q) {
      var i :| i in p && i < |flows| && flows[i].value == v;
      OffsetShown(b, flows, q, i);
    }
    forall v | IsValueOf(v, flows, p * q) ensures v in Common(a, b) {
      var i :| i in p * q && i < |flows| && flows[i].value == v;
      OffsetShown(a, flows, p, i);
      OffsetShown(b, flows, q, i);
    }
  }

  /** A flow is not behind the last one of an answer exactly if some flow of the answer is not before it. */
  lemma NotBehind(a: seq<Value>, flows: seq<Flow>, p: set<nat>, i: nat)
    requires FlowsInOrder(flows) && Shows(a, flows, p) && i < |flows|
    ensures a != [] && flows[i].value.offset <= Last(a).offset <==> Reaches(p, i)
  {
    if a != [] && flows[i].value.offset <= Last(a).offset {
      assert Last(a) in a;
      var j :| j in p && j < |flows| && flows[j].value == Last(a);
      assert i <= j;
    }
    if Reaches(p, i) {
      var j :| j in p && i <= j;
      assert IsValueOf(flows[j].value, flows, p);
      LastOfRest(a);
    }
  }

  /** OR keeps the flows of both sides up to the smaller of the last ones. */
  lemma EitherShows(a: seq<Value>, b: seq<Value>, flows: seq<Flow>, p: set<nat>, q: set<nat>)
    requires FlowsInOrder(flows) && Shows(a, flows, p) && Shows(b, flows, q)
    ensures Shows(Blend(a, b), flows, UpTo(p, q))
  {
    BlendMeaning(a, b);
    hide Blend, OffsetAscending, HasOffset, FlowsInOrder;
    forall v ensures v in Blend(a, b) <==> IsValueOf(v, flows, UpTo(p, q)) {
      if v in a || v in b {
        var i :| i in p + q && i < |flows| && flows[i].value == v;
        KeptShown(a, b, flows, p, q, i);
      }
      if IsValueOf(v, flows, UpTo(p, q)) {
        var i :| i in UpTo(p, q) && i < |flows| && flows[i].value == v;
        KeptShown(a, b, flows, p, q, i);
      }
    }
  }

  lemma KeptShown(a: seq<Value>, b: seq<Value>, flows: seq<Flow>, p: set<nat>, q: set<nat>, i: nat)
    requires FlowsInOrder(flows) && Shows(a, flows, p) && Shows(b, flows, q) && i < |flows|
    ensures Kept(flows[i].value, a, b) <==> i in UpTo(p, q)
  {
    hide OffsetAscending, HasOffset, FlowsInOrder;
    OffsetShown(a, flows, p, i);
    OffsetShown(b, flows, q, i);
    NotBehind(a, flows, p, i);
    NotBehind(b, flows, q, i);
  }

  lemma {:induction false} PrimaryMeaning(t: Primary, flows: seq<Flow>)
    requires FlowsInOrder(flows)
    ensures Shows(AnswerTo(t, flows), flows, FoundBy(t, Records(flows)))
    decreases t
  {
    hide FlowsInOrder, Absorb, Shows;
    if t.Paren? { FilterMeaning(t.e, flows); } else { AtomShows(t, flows); }
  }

  /** The answer to a filter is strictly ascending and holds exactly the flows that the filter finds. */
  lemma {:induction false} FilterMeaning(f: Expr, flows: seq<Flow>)
    requires FlowsInOrder(flows)
    ensures Shows(Answer(f, flows), flows, Found(f, Records(flows)))
    decreases f
  {
    hide FlowsInOrder, Common, Blend, Shows, UpTo;
    match f {
      case One(t) => PrimaryMeaning(t, flows);
      case And(left, t) =>
        FilterMeaning(left, flows);
        PrimaryMeaning(t, flows);
        BothShow(Answer(left, flows), AnswerTo(t, flows), flows, Found(left, Records(flows)),
                 FoundBy(t, Records(flows)));
      case Or(left, t) =>
        FilterMeaning(left, flows);
        PrimaryMeaning(t, flows);
        EitherShows(Answer(left, flows), AnswerTo(t, flows), flows, Found(left, Records(flows)),
                    FoundBy(t, Records(flows)));
    }
  }

  // ---- found and selected ----

  lemma {:induction false} PrimaryFound(t: Primary, records: seq<Ipv4Record>)
    ensures FoundBy(t, records) <= SelectedBy(One(t), records)
    ensures OrFreePrimary(t) ==> FoundBy(t, records) == SelectedBy(One(t), records)
    decreases t
  {
    if t.Paren? {
      FoundIsSelected(t.e, records);
      forall i | 0 <= i < |records| ensures SelectsAll(One(t), records[i]) <==> SelectsAll(t.e, records[i]) {
        ParenSelects(t, records[i]);
      }
    }
  }

  lemma ParenSelects(t: Primary, r: Ipv4Record)
    requires t.Paren?
    ensures SelectsAll(One(t), r) <==> SelectsAll(t.e, r)
  {
    assert SelectsAll(One(t), r) <==> Selects(t, r);
  }

  /** A filter finds only what it selects, and without OR all of it. */
  lemma {:induction false} FoundIsSelected(f: Expr, records: seq<Ipv4Record>)
    ensures Found(f, records) <= SelectedBy(f, records)
    ensures OrFree(f) ==> Found(f, records) == SelectedBy(f, records)
    decreases f
  {
    hide Selects;
    match f {
      case One(t) => PrimaryFound(t, records);
      case And(left, t) =>
        FoundIsSelected(left, records);
        PrimaryFound(t, records);
      case Or(left, t) =>
        FoundIsSelected(left, records);
        PrimaryFound(t, records);
    }
  }

  ghost predicate Complete(f: Expr, records: seq<Ipv4Record>) {
    Found(f, records) == SelectedBy(f, records)
  }

  ghost predicate IsLast(a: set<nat>, m: nat) {
    m in a && forall i :: i in a ==> i <= m
  }

  /** Both sets are empty or have the same last position. */
  ghost predicate SameLast(a: set<nat>, b: set<nat>) {
    (a == {} && b == {}) || exists m :: IsLast(a, m) && IsLast(b, m)
  }

  lemma {:induction false} LastPosition(a: set<nat>) returns (m: nat)
    requires a != {}
    ensures IsLast(a, m)
  {
    m :| m in a;
    if a != {m} {
      var k := LastPosition(a - {m});
      assert forall i :: i in a ==> i == m || i in a - {m};
      if k > m { m := k; }
    }
  }

  lemma UpToReaches(a: set<nat>, b: set<nat>, i: nat)
    requires i in UpTo(a, b)
    ensures Reaches(a, i) && Reaches(b, i)
  {}

  lemma SomeReached(a: set<nat>, i: nat)
    requires Reaches(a, i)
    ensures a != {}
  {}

  lemma LastReached(a: set<nat>, m: nat, i: nat)
    requires IsLast(a, m) && Reaches(a, i)
    ensures i <= m
  {}

  lemma UnionSameLast(a: set<nat>, b: set<nat>)
    requires UpTo(a, b) == a + b
    ensures SameLast(a, b)
  {
    hide UpTo, Reaches;
    if i :| i in a + b {
      UpToReaches(a, b, i);
      SomeReached(a, i);
      SomeReached(b, i);
      var m := LastPosition(a);
      var n := LastPosition(b);
      UpToReaches(a, b, m);
      UpToReaches(a, b, n);
      LastReached(b, n, m);
      LastReached(a, m, n);
    }
  }

  lemma SameLastUnion(a: set<nat>, b: set<nat>)
    requires SameLast(a, b)
    ensures UpTo(a, b) == a + b
  {
    UpToPart(a, b);
    hide UpTo, Reaches;
    if a != {} || b != {} {
      var m :| IsLast(a, m) && IsLast(b, m);
      forall i | i in a + b ensures i in UpTo(a, b) {
        LastReaches(a, m, i);
        LastReaches(b, m, i);
        UpToHas(a, b, i);
      }
    }
  }

  lemma UpToPart(a: set<nat>, b: set<nat>)
    ensures UpTo(a, b) <= a + b
  {}

  lemma UpToHas(a: set<nat>, b: set<nat>, i: nat)
    requires i in a + b && Reaches(a, i) && Reaches(b, i)
    ensures i in UpTo(a, b)
  {}

  lemma LastReaches(a: set<nat>, m: nat, i: nat)
    requires IsLast(a, m) && i <= m
    ensures Reaches(a, i)
  {}

  /** Nothing is dropped exactly if both sides end with the same flow. */
  lemma UpToIsUnion(a: set<nat>, b: set<nat>)
    ensures UpTo(a, b) == a + b <==> SameLast(a, b)
  {
    hide UpTo, SameLast;
    if UpTo(a, b) == a + b { UnionSameLast(a, b); }
    if SameLast(a, b) { SameLastUnion(a, b); }
  }

  /** If both sides of an OR find all they select, the OR does so exactly if the last record that one side selects is
      also the last that the other selects, or neither selects any. */
  lemma OrIsComplete(left: Expr, t: Primary, records: seq<Ipv4Record>)
    requires Complete(left, records) && Complete(One(t), records)
    ensures Complete(Or(left, t), records) <==> SameLast(SelectedBy(left, records), SelectedBy(One(t), records))
  {
    hide UpTo, SameLast;
    UpToIsUnion(SelectedBy(left, records), SelectedBy(One(t), records));
    assert SelectedBy(Or(left, t), records) == SelectedBy(left, records) + SelectedBy(One(t), records);
  }

  // ---- what the user wrote ----

  /** The record has what the atom says. */
  ghost predicate Literal(t: Primary, r: Ipv4Record)
    decreases t
  {
    match t
    case SipIs(p) => Fits(r.srcip, p)
    case DipIs(p) => Fits(r.dstip, p)
    case SportIs(n) => r.srcport == n
    case DportIs(n) => r.dstport == n
    case ProtoIs(n) => r.proto == n
    case Paren(e) => LiteralAll(e, r)
  }

  ghost predicate LiteralAll(f: Expr, r: Ipv4Record)
    decreases f
  {
    match f
    case One(t) => Literal(t, r)
    case And(left, t) => LiteralAll(left, r) && Literal(t, r)
    case Or(left, t) => LiteralAll(left, r) || Literal(t, r)
  }

  /** Addresses of bytes with trailing asterisks, ports of 16 bits, protocols of 8. */
  predicate WellFormed(t: Primary)
    decreases t
  {
    match t
    case SipIs(p) => IpPatterns.Bytes(p) && TrailingStars(p)
    case DipIs(p) => IpPatterns.Bytes(p) && TrailingStars(p)
    case SportIs(n) => 0 <= n < 0x1_0000
    case DportIs(n) => 0 <= n < 0x1_0000
    case ProtoIs(n) => 0 <= n < 0x100
    case Paren(e) => AllWellFormed(e)
  }

  predicate AllWellFormed(f: Expr)
    decreases f
  {
    match f
    case One(t) => WellFormed(t)
    case And(left, t) => AllWellFormed(left) && WellFormed(t)
    case Or(left, t) => AllWellFormed(left) && WellFormed(t)
  }

  /** An atom never misses a record that has what it says. */
  lemma AtomCovers(t: Primary, r: Ipv4Record)
    requires !t.Paren? && Literal(t, r)
    ensures Selects(t, r)
  {
    hide Assemble, Fits;
    if t.SipIs? { RangeCovers(t.p, r.srcip); }
    if t.DipIs? { RangeCovers(t.p, r.dstip); }
  }

  lemma WellFormedAtom(t: Primary, r: Ipv4Record)
    requires !t.Paren? && WellFormed(t)
    ensures Selects(t, r) <==> Literal(t, r)
  {
    hide Assemble, Fits;
    if t.SipIs? { ExactPatterns(t.p); }
    if t.DipIs? { ExactPatterns(t.p); }
  }

  /** A record an ill-formed atom selects although it does not have what the atom says. */
  lemma IllFormedAtom(t: Primary) returns (r: Ipv4Record)
    requires !t.Paren? && !WellFormed(t)
    ensures Selects(t, r) && !Literal(t, r)
  {
    hide Assemble, Fits;
    match t {
      case SipIs(p) =>
        var ip := Stray(p);
        r := Ipv4Record(ip, 0, 0, 0, 0, 0);
      case DipIs(p) =>
        var ip := Stray(p);
        r := Ipv4Record(0, ip, 0, 0, 0, 0);
      case SportIs(n) => r := Ipv4Record(0, 0, n % 0x1_0000, 0, 0, 0);
      case DportIs(n) => r := Ipv4Record(0, 0, 0, n % 0x1_0000, 0, 0);
      case ProtoIs(n) => r := Ipv4Record(0, 0, 0, 0, n % 0x100, 0);
    }
  }

  lemma Stray(p: Pattern) returns (ip: u32)
    requires !(IpPatterns.Bytes(p) && TrailingStars(p))
    ensures Assemble(p, 0) <= ip <= Assemble(p, 255) && !Fits(ip, p)
  {
    hide Assemble, Fits;
    ExactPatterns(p);
    var x: nat :| x < WORD && !(Assemble(p, 0) <= x <= Assemble(p, 255) <==> Fits(x, p));
    if Fits(x, p) { RangeCovers(p, x); }
    ip := x;
  }

  /** An atom selects exactly the records that have what it says if it is well formed, and only then. */
  lemma ExactAtoms(t: Primary)
    requires !t.Paren?
    ensures (forall r: Ipv4Record :: Selects(t, r) <==> Literal(t, r)) <==> WellFormed(t)
  {
    hide Selects, Literal, WellFormed;
    if WellFormed(t) {
      forall r: Ipv4Record ensures Selects(t, r) <==> Literal(t, r) { WellFormedAtom(t, r); }
    } else {
      var r := IllFormedAtom(t);
    }
  }

  lemma {:induction false} WellFormedPrimary(t: Primary, r: Ipv4Record)
    requires WellFormed(t)
    ensures Selects(t, r) <==> Literal(t, r)
    decreases t
  {
    if t.Paren? { WellFormedFilter(t.e, r); } else { WellFormedAtom(t, r); }
  }

  lemma {:induction false} WellFormedFilter(f: Expr, r: Ipv4Record)
    requires AllWellFormed(f)
    ensures SelectsAll(f, r) <==> LiteralAll(f, r)
    decreases f
  {
    hide Selects, Literal, WellFormed;
    match f {
      case One(t) => WellFormedPrimary(t, r);
      case And(left, t) =>
        WellFormedFilter(left, r);
        WellFormedPrimary(t, r);
      case Or(left, t) =>
        WellFormedFilter(left, r);
        WellFormedPrimary(t, r);
    }
  }

  // ---- the command ----

  datatype Option<T> = None | Some(value: T)

  /** parse_command: an empty filter asks for all flows, but its answer never becomes the result. */
  method ParseCommand(filter: Option<Expr>, index: Index) returns (result: OffsetsResult?)
    requires Drained(index)
    modifies index`Repr, index.Repr
    ensures Drained(index) && fresh(index.Repr - old(index.Repr)) && index.flows == old(index.flows)
    ensures filter.None? <==> result == null
    ensures filter.Some? ==> result.offsets == Answer(filter.value, index.flows)
  {
    hide Drained;
    result := null;
    if filter.None? {
      var unused := QueryRange(index, SRCIP, 0, 0xffff_ffff);
    } else {
      result := Eval(filter.value, index);
    }
  }
}
