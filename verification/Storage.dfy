/** Storing flow records and answering filters from memory. */
module Storages {
  import opened Filters
  import opened FlowLog
  import opened Indexes
  import opened OffsetsResults
  import opened Radix
  import opened Words

  /** The trace file's counters. Its times span the start times of the flows written to it. */
  class TraceFile {
    var totalFlows: nat
    var startTime: u32
    var endTime: u32
    ghost var times: seq<u32>

    ghost predicate Valid()
      reads this
    {
      && totalFlows == |times|
      && (forall t :: t in times ==> startTime <= t <= endTime)
      && (times != [] ==> startTime in times)
      && (if times == [] then endTime == 0 else endTime in times)
    }

    /** A new file: its start is the clock's time until the first flow. */
    constructor (clock: u32)
      ensures Valid() && times == [] && totalFlows == 0 && startTime == clock && endTime == 0
    {
      totalFlows, startTime, endTime, times := 0, clock, 0, [];
    }

    /** writeFlowRecord: flows are numbered from 1 in the order they are written. */
    method WriteFlowRecord(item: Ipv4Record) returns (id: nat)
      requires Valid()
      modifies this
      ensures Valid() && times == old(times) + [item.startTime] && id == totalFlows == old(totalFlows) + 1
    {
      var timestamp := item.startTime;
      if totalFlows == 0 { startTime := timestamp; }
      startTime := if timestamp < startTime then timestamp else startTime;
      endTime := if endTime < timestamp then timestamp else endTime;
      times := times + [timestamp];
      totalFlows := totalFlows + 1;
      return totalFlows;
    }
  }

  /** The flows of records written to a new trace file. */
  ghost function FlowsOf(records: seq<Ipv4Record>): (flows: seq<Flow>)
    ensures |flows| == |records|
  {
    seq(|records|, i requires 0 <= i < |records| => Flow(records[i], Value((i + 1) % WORD, 0)))
  }

  lemma FlowsSnoc(records: seq<Ipv4Record>, n: nat)
    requires n < |records|
    ensures FlowsOf(records[..n + 1]) == FlowsOf(records[..n]) + [Flow(records[n], Value((n + 1) % WORD, 0))]
  {}

  /** storeFlowRecords: the flow's number becomes its offset in every index. */
  method StoreFlowRecord(trace: TraceFile, index: Index, record: Ipv4Record)
    requires trace.Valid() && index.Valid() && trace !in index.Repr
    modifies trace, index`flows, index.sipIndex`records, index.dipIndex`records, index.sportIndex`records,
             index.dportIndex`records,
             index.protoIndex`records, index.timeIndex`records
    ensures trace.Valid() && index.Valid() && trace.totalFlows == old(trace.totalFlows) + 1
    ensures index.flows == old(index.flows) + [Flow(record, Value(trace.totalFlows % WORD, 0))]
  {
    hide Index.Valid;
    var flowID := trace.WriteFlowRecord(record);
    index.AddRecord(record, Value(flowID % WORD, 0));
  }

  /** No query has run yet on any index. */
  ghost predicate Loading(index: Index)
    reads index, index.Repr
  {
    index.Valid() && forall c: IndexCode :: Unqueried(index.Base(c).index)
  }

  method StoreAll(records: seq<Ipv4Record>, clock: u32) returns (index: Index)
    ensures fresh(index) && fresh(index.Repr) && Loading(index) && index.flows == FlowsOf(records)
  {
    hide Index.Valid, Unqueried;
    var trace := new TraceFile(clock);
    index := new Index();
    var n := 0;
    assert records[..0] == [];
    while n < |records|
      invariant 0 <= n <= |records| && trace.Valid() && trace.totalFlows == n && trace !in index.Repr
                && fresh(index.Repr)
      invariant index.Valid() && (forall c: IndexCode :: Unqueried(index.Base(c).index))
                && index.flows == FlowsOf(records[..n])
    {
      InsideIndex(index);
      StoreOne(trace, index, records, n);
      n := n + 1;
    }
    assert records[..n] == records;
  }

  lemma InsideIndex(index: Index)
    requires index.Valid()
    ensures index.sipIndex in index.Repr && index.dipIndex in index.Repr && index.sportIndex in index.Repr
    ensures index.dportIndex in index.Repr && index.protoIndex in index.Repr && index.timeIndex in index.Repr
            && index !in index.Repr
  {
    hide IndexBase.Valid;
    index.AllInside();
  }

  method StoreOne(trace: TraceFile, index: Index, records: seq<Ipv4Record>, n: nat)
    requires trace.Valid() && index.Valid() && trace !in index.Repr && n < |records| && trace.totalFlows == n
    requires index.flows == FlowsOf(records[..n]) && forall c: IndexCode :: Unqueried(index.Base(c).index)
    modifies trace, index`flows, index.sipIndex`records, index.dipIndex`records, index.sportIndex`records,
             index.dportIndex`records,
             index.protoIndex`records, index.timeIndex`records
    ensures trace.Valid() && index.Valid() && trace.totalFlows == n + 1 && index.flows == FlowsOf(records[..n + 1])
    ensures forall c: IndexCode :: Unqueried(index.Base(c).index)
  {
    hide Index.Valid, FlowsOf;
    StoreFlowRecord(trace, index, records[n]);
    FlowsSnoc(records, n);
    forall c: IndexCode ensures Unqueried(index.Base(c).index) {
      assert old(Unqueried(index.Base(c).index));
    }
  }

  lemma InsideBase(index: Index, code: IndexCode)
    requires index.Valid()
    ensures index.Base(code) in index.Repr && index.Base(code).index in index.Repr
            && index.Base(code).index.Repr <= index.Repr
    ensures index !in index.Repr
  {
    hide IndexBase.Valid;
  }

  /** The indexes in the list have been drained. */
  ghost predicate DrainedSoFar(index: Index, codes: seq<IndexCode>)
    reads index, index.Repr
  {
    Loading(index) && forall c :: c in codes ==> index.Base(c).records == []
  }

  /** One round of an index thread. */
  method DrainOne(index: Index, code: IndexCode, ghost codes: seq<IndexCode>)
    requires DrainedSoFar(index, codes)
    modifies index`Repr, index.Repr
    ensures DrainedSoFar(index, codes + [code]) && fresh(index.Repr - old(index.Repr))
            && index.flows == old(index.flows)
  {
    hide IndexBase.Valid, Unqueried;
    InsideBase(index, code);
    index.BuildIndex(code);
    forall c: IndexCode | c != code
      ensures Unqueried(index.Base(c).index) && index.Base(c).records == old(index.Base(c).records)
    {
      assert old(index.Base(c).Foot() !! index.Base(code).Foot());
      assert old(Unqueried(index.Base(c).index));
    }
  }

  /** Every index thread drains its staging buffer. */
  method DrainAll(index: Index)
    requires Loading(index)
    modifies index`Repr, index.Repr
    ensures Drained(index) && fresh(index.Repr - old(index.Repr)) && index.flows == old(index.flows)
  {
    hide DrainedSoFar, Drained, Loading;
    var codes := [SRCIP, DSTIP, SPORT, DPORT, PROTO, TIME];
    var i := 0;
    NoneDrained(index);
    while i < |codes|
      invariant 0 <= i <= |codes| && DrainedSoFar(index, codes[..i]) && fresh(index.Repr - old(index.Repr))
      invariant index.flows == old(index.flows)
    {
      DrainOne(index, codes[i], codes[..i]);
      assert codes[..i + 1] == codes[..i] + [codes[i]];
      i := i + 1;
    }
    assert codes[..i] == codes;
    AllDrained(index);
  }

  lemma NoneDrained(index: Index)
    requires Loading(index)
    ensures DrainedSoFar(index, [])
  {
    hide Loading;
  }

  lemma AllDrained(index: Index)
    requires DrainedSoFar(index, [SRCIP, DSTIP, SPORT, DPORT, PROTO, TIME])
    ensures Drained(index)
  {
    hide Index.Valid;
    forall c: IndexCode ensures c in [SRCIP, DSTIP, SPORT, DPORT, PROTO, TIME] {
      match c
      case SRCIP => case DSTIP => case SPORT => case DPORT => case PROTO => case TIME =>
    }
  }

  lemma FlowsAscend(records: seq<Ipv4Record>)
    requires |records| < WORD
    ensures FlowsInOrder(FlowsOf(records))
  {}

  lemma RecordsOfFlows(records: seq<Ipv4Record>)
    ensures Records(FlowsOf(records)) == records
  {}

  /** The records a filter selects, by their numbers. */
  ghost predicate Selected(f: Expr, records: seq<Ipv4Record>, id: nat) {
    1 <= id <= |records| && SelectsAll(f, records[id - 1])
  }

  /** The answer holds selected records only. */
  lemma AnswerSelected(f: Expr, records: seq<Ipv4Record>, answer: seq<Value>)
    requires |records| < WORD && Shows(answer, FlowsOf(records), Found(f, records))
    ensures forall v :: v in answer ==> Selected(f, records, v.offset)
  {
    hide SelectsAll, Found, OffsetAscending;
    var flows := FlowsOf(records);
    FoundIsSelected(f, records);
    forall v | v in answer ensures Selected(f, records, v.offset) {
      var i :| i in Found(f, records) && i < |flows| && flows[i].value == v;
      assert i in SelectedBy(f, records);
    }
  }

  /** The answer holds the numbers of the records it shows. */
  lemma NumbersShown(records: seq<Ipv4Record>, at: set<nat>, answer: seq<Value>)
    requires |records| < WORD && Shows(answer, FlowsOf(records), at)
    ensures OffsetAscending(answer)
    ensures forall id: nat :: HasOffset(answer, id) <==> 1 <= id <= |records| && id - 1 in at
  {
    hide FlowsInOrder, OffsetAscending;
    FlowsAscend(records);
    forall id: nat ensures HasOffset(answer, id) <==> 1 <= id <= |records| && id - 1 in at {
      if 1 <= id <= |records| {
        hide HasOffset, Shows;
        OffsetShown(answer, FlowsOf(records), at, id - 1);
      }
    }
  }

  /** The answer holds the numbers of the records the filter finds. */
  lemma NumbersFound(f: Expr, records: seq<Ipv4Record>, answer: seq<Value>)
    requires |records| < WORD && Shows(answer, FlowsOf(records), Found(f, records))
    ensures forall id: nat :: HasOffset(answer, id) <==> 1 <= id <= |records| && id - 1 in Found(f, records)
  {
    hide Shows, HasOffset, Found;
    NumbersShown(records, Found(f, records), answer);
  }

  /** The answer has the numbers of all records the filter selects. */
  ghost predicate FindsAll(f: Expr, records: seq<Ipv4Record>, answer: seq<Value>) {
    forall id: nat :: Selected(f, records, id) ==> HasOffset(answer, id)
  }

  lemma AllFound(f: Expr, records: seq<Ipv4Record>, answer: seq<Value>)
    requires forall id: nat :: HasOffset(answer, id) <==> 1 <= id <= |records| && id - 1 in Found(f, records)
    ensures FindsAll(f, records, answer) <==> Complete(f, records)
  {
    hide SelectsAll, Found, HasOffset;
    FoundIsSelected(f, records);
    if FindsAll(f, records, answer) {
      forall i | i in SelectedBy(f, records) ensures i in Found(f, records) {
        assert Selected(f, records, i + 1);
      }
    }
    if Complete(f, records) {
      forall id: nat | Selected(f, records, id) ensures HasOffset(answer, id) {
        assert id - 1 in SelectedBy(f, records);
      }
    }
  }

  /** Any batch of records is stored, indexed and drained, and then filtered. */
  method StoreAndFilter(records: seq<Ipv4Record>, clock: u32, f: Expr) returns (answer: seq<Value>)
    ensures |records| < WORD ==> OffsetAscending(answer) && forall v :: v in answer ==> Selected(f, records, v.offset)
    ensures |records| < WORD ==>
              forall id: nat :: HasOffset(answer, id) <==> 1 <= id <= |records| && id - 1 in Found(f, records)
    ensures |records| < WORD && OrFree(f) ==> FindsAll(f, records, answer)
    ensures |records| < WORD && f.Or? && Complete(f.left, records) && Complete(One(f.right), records) ==>
              (FindsAll(f, records, answer) <==>
               SameLast(SelectedBy(f.left, records), SelectedBy(One(f.right), records)))
  {
    hide Loading, Drained, FlowsOf, Answer, Selected, Found, OffsetAscending, FlowsInOrder, FindsAll, HasOffset,
         SameLast,
         Complete, Absorb;
    var index := StoreAll(records, clock);
    DrainAll(index);
    var result := Eval(f, index);
    answer := result.offsets;
    if |records| < WORD {
      FlowsAscend(records);
      FilterMeaning(f, index.flows);
      RecordsOfFlows(records);
      AnswerSelected(f, records, answer);
      NumbersFound(f, records, answer);
      AllFound(f, records, answer);
      FoundCompletely(f, records);
    }
  }

  /** Any batch of records is stored, indexed and drained, and then asked for a span of start times. */
  method StoreAndAskTime(records: seq<Ipv4Record>, clock: u32, first: u32, last: u32) returns (answer: seq<Value>)
    ensures |records| < WORD ==> OffsetAscending(answer)
    ensures |records| < WORD ==>
              forall id: nat :: HasOffset(answer, id) <==>
                1 <= id <= |records| && first <= records[id - 1].startTime <= last
  {
    hide Loading, Drained, FlowsOf, OffsetAscending, FlowsInOrder, HasOffset, Absorb, Keyed, Shows;
    var index := StoreAll(records, clock);
    DrainAll(index);
    Pow256Values();
    var result := QueryRange(index, TIME, first, last);
    answer := result.offsets;
    if |records| < WORD {
      FlowsAscend(records);
      RangeShows(TIME, index.flows, first, last);
      RecordsOfFlows(records);
      TimesFound(records, first, last, answer);
    }
  }

  lemma TimesFound(records: seq<Ipv4Record>, first: nat, last: nat, answer: seq<Value>)
    requires |records| < WORD && Shows(answer, FlowsOf(records), WithKey(TIME, records, first, last))
    ensures OffsetAscending(answer)
    ensures forall id: nat :: HasOffset(answer, id) <==>
              1 <= id <= |records| && first <= records[id - 1].startTime <= last
  {
    var at := WithKey(TIME, records, first, last);
    assert forall i :: 0 <= i < |records| ==> (i in at <==> first <= records[i].startTime <= last);
    NumbersShown(records, at, answer);
  }

  lemma FoundCompletely(f: Expr, records: seq<Ipv4Record>)
    ensures OrFree(f) ==> Complete(f, records)
    ensures f.Or? && Complete(f.left, records) && Complete(One(f.right), records) ==>
              (Complete(f, records) <==> SameLast(SelectedBy(f.left, records), SelectedBy(One(f.right), records)))
  {
    hide Found, SelectedBy, SameLast;
    FoundIsSelected(f, records);
    if f.Or? && Complete(f.left, records) && Complete(One(f.right), records) { OrIsComplete(f.left, f.right, records); }
  }
}
