/** The six field indexes over stored flow records, each a trie behind a staging buffer. */
module Indexes {
  import opened FlowLog
  import opened OffsetsResults
  import opened Radix
  import opened TriePaths
  import opened TrieQueries
  import opened Tries

  type u8 = x: nat | x < 256

  /** The indexed fields of a flow record, in host byte order. */
  datatype Ipv4Record = Ipv4Record(srcip: u32, dstip: u32, srcport: u16, dstport: u16, proto: u8, startTime: u32)

  datatype IndexCode = SRCIP | DSTIP | SPORT | DPORT | PROTO | TIME

  /** The bytes of an index's key type. */
  function Width(code: IndexCode): nat {
    match code
    case SRCIP => 4
    case DSTIP => 4
    case SPORT => 2
    case DPORT => 2
    case PROTO => 1
    case TIME => 4
  }

  function KeyOf(code: IndexCode, r: Ipv4Record): nat {
    match code
    case SRCIP => r.srcip
    case DSTIP => r.dstip
    case SPORT => r.srcport
    case DPORT => r.dstport
    case PROTO => r.proto
    case TIME => r.startTime
  }

  lemma KeyFits(code: IndexCode, r: Ipv4Record)
    ensures KeyOf(code, r) < Pow256(Width(code))
  {
    Pow256Values();
  }

  /** A record and what the indexes store for it. */
  datatype Flow = Flow(record: Ipv4Record, value: Value)

  /** The additions to one index for a sequence of flows. */
  function Keyed(code: IndexCode, flows: seq<Flow>): Log {
    if flows == [] then []
    else
      var last := flows[|flows| - 1];
      Keyed(code, flows[..|flows| - 1]) + [Entry(KeyOf(code, last.record), last.value)]
  }

  lemma KeyedSnoc(code: IndexCode, flows: seq<Flow>, flow: Flow)
    ensures Keyed(code, flows + [flow]) == Keyed(code, flows) + [Entry(KeyOf(code, flow.record), flow.value)]
  {
    assert (flows + [flow])[..|flows|] == flows;
  }

  /** A trie on which no query has run yet. */
  ghost predicate Unqueried(t: Trie)
    reads t`views
  {
    AllFresh(t.views) && NoneListed(t.views)
  }

  /** One index: addItem stages, insertRecords moves what is staged into the trie. */
  class IndexBase {
    const index: Trie
    var records: seq<Entry>

    ghost function Foot(): set<object>
      reads index`Repr
    {
      {this, index} + index.Repr
    }

    ghost predicate Valid()
      reads this, index, index.Repr
    {
      && this !in index.Repr && index !in index.Repr
      && index.Valid() && KeysFit(records, index.depth)
    }

    /** Everything added so far: what has been moved into the trie, then what is staged. */
    ghost function Added(): Log
      reads this, index`log
    {
      index.log + records
    }

    constructor (keyBytes: nat)
      requires keyBytes >= 1
      ensures Valid() && fresh(Foot()) && Added() == [] && records == [] && index.depth == keyBytes && Unqueried(index)
    {
      hide Trie.Valid, AllFresh, NoneListed;
      records := [];
      index := new Trie(keyBytes);
      new;
      UnlistedIsFresh(index.views);
      InsideOf(index);
    }

    method AddItem(key: nat, value: Value)
      requires Valid() && key < Pow256(index.depth)
      modifies this`records
      ensures Valid() && records == old(records) + [Entry(key, value)]
    {
      hide Trie.Valid, AllFresh, Pow256;
      records := records + [Entry(key, value)];
    }

    /** insertRecords: nothing added is lost or reordered, and nothing stays staged. */
    method InsertRecords()
      requires Valid()
      modifies this`records, index, index.Repr
      ensures Valid() && fresh(index.Repr - old(index.Repr))
      ensures Added() == old(Added()) && records == []
      ensures old(Unqueried(index)) ==> Unqueried(index)
    {
      hide Trie.Valid, AllFresh, NoneListed, KeepsLists, Pow256, KeysFit;
      var i := 0;
      while i < |records|
        invariant 0 <= i <= |records| && records == old(records) && this !in index.Repr && index !in index.Repr
        invariant index.Valid() && KeysFit(records, index.depth) && (old(Unqueried(index)) ==> Unqueried(index))
        invariant index.log == old(index.log) + records[..i] && fresh(index.Repr - old(index.Repr))
      {
        if NoneListed(index.views) { UnlistedKeepsLists(index.views, records[i].key, index.depth); }
        KeyStaged(records, index.depth, i);
        index.AddItem(records[i].key, records[i].value);
        InsideOf(index);
        assert records[..i + 1] == records[..i] + [records[i]];
        i := i + 1;
      }
      assert records[..i] == records;
      NothingStaged(index.depth);
      records := [];
    }

    /** queryFromMem: a new answer from the trie; staged records are not seen. */
    method QueryFromMem(b: nat, e: nat) returns (result: OffsetsResult)
      requires Valid() && AllFresh(index.views) && b < Pow256(index.depth) && e < Pow256(index.depth)
      modifies index`views, index`Repr, index.Repr
      ensures Valid() && AllFresh(index.views) && fresh(result) && result !in index.Repr
              && fresh(index.Repr - old(index.Repr)) && index.log == old(index.log) && records == old(records)
      ensures result.offsets == Absorb(index.log, b, e + 1, [])
    {
      hide AllFresh, KeysFit, Pow256, Absorb, Ready, Trie.Represents;
      ReadyIntro(index);
      var ok, answer := TrieQueries.QueryFromMem(index, b, e, []);
      ReadyAsValid(index);
      InsideOf(index);
      result := new OffsetsResult(answer);
    }
  }

  lemma ReadyAsValid(t: Trie)
    requires Ready(t)
    ensures t.Represents() && AllFresh(t.views)
  {
    hide AllFresh, Trie.Structure, KeysFit, NodeIds, AllHold;
  }

  lemma InsideOf(t: Trie)
    requires t.Valid()
    ensures t !in t.Repr
  {
    hide AllFresh, KeysFit, NodeIds, AllHold, InPlace, Separate;
  }

  lemma KeyStaged(records: Log, d: nat, i: nat)
    requires KeysFit(records, d) && i < |records|
    ensures records[i].key < Pow256(d)
  {
    assert records[i] in records;
  }

  lemma NothingStaged(d: nat)
    ensures KeysFit([], d)
  {}

  /** An index to which nothing has been added. */
  ghost predicate Empty(base: IndexBase, width: nat, space: set<object>)
    reads space
  {
    && base in space && base.index in space && base.index.Repr <= space
    && base.Valid() && base.Added() == [] && base.records == [] && base.index.depth == width && Unqueried(base.index)
  }

  /** Empty indexes of the given key widths, which share nothing. */
  ghost predicate AllEmpty(bases: seq<IndexBase>, widths: seq<nat>, space: set<object>)
    reads space
  {
    && |bases| <= |widths|
    && (forall i :: 0 <= i < |bases| ==> Empty(bases[i], widths[i], space))
    && (forall i, j :: 0 <= i < j < |bases| ==> bases[i].Foot() !! bases[j].Foot())
  }

  lemma OneMoreEmpty(bases: seq<IndexBase>, widths: seq<nat>, space: set<object>, base: IndexBase)
    requires AllEmpty(bases, widths, space) && |bases| < |widths|
    requires base.Foot() !! space && Empty(base, widths[|bases|], base.Foot())
    ensures AllEmpty(bases + [base], widths, space + base.Foot())
  {
    hide IndexBase.Valid, Unqueried;
  }

  method NewBases(widths: seq<nat>) returns (bases: seq<IndexBase>, ghost space: set<object>)
    requires forall w :: w in widths ==> w >= 1
    ensures |bases| == |widths| && fresh(space) && AllEmpty(bases, widths, space)
  {
    hide IndexBase.Valid, Unqueried, AllEmpty;
    bases, space := [], {};
    NoneEmpty(widths);
    while |bases| < |widths|
      invariant |bases| <= |widths| && fresh(space) && AllEmpty(bases, widths, space)
      decreases |widths| - |bases|
    {
      assert widths[|bases|] in widths;
      var base := new IndexBase(widths[|bases|]);
      OneMoreEmpty(bases, widths, space, base);
      bases, space := bases + [base], space + base.Foot();
    }
  }

  lemma NoneEmpty(widths: seq<nat>)
    ensures AllEmpty([], widths, {})
  {}

  function Ordinal(code: IndexCode): nat {
    match code
    case SRCIP => 0
    case DSTIP => 1
    case SPORT => 2
    case DPORT => 3
    case PROTO => 4
    case TIME => 5
  }

  lemma OrdinalInjective(c: IndexCode, e: IndexCode)
    requires c != e
    ensures Ordinal(c) != Ordinal(e)
  {}

  /** The six indexes of a storage. */
  class Index {
    const sipIndex: IndexBase
    const dipIndex: IndexBase
    const sportIndex: IndexBase
    const dportIndex: IndexBase
    const protoIndex: IndexBase
    const timeIndex: IndexBase
    ghost var flows: seq<Flow>
    ghost var Repr: set<object>

    function Base(code: IndexCode): IndexBase {
      match code
      case SRCIP => sipIndex
      case DSTIP => dipIndex
      case SPORT => sportIndex
      case DPORT => dportIndex
      case PROTO => protoIndex
      case TIME => timeIndex
    }

    /** The indexes live in Repr and share nothing. */
    ghost predicate Apart()
      reads this`Repr, Repr
    {
      && this !in Repr
      && (forall c: IndexCode :: Base(c) in Repr && Base(c).index in Repr && Base(c).index.Repr <= Repr)
      && (forall c, e: IndexCode :: c != e ==> Base(c).Foot() !! Base(e).Foot())
    }

    /** One index is in order and has been given the keys of the flows, in order. */
    ghost predicate Kept(code: IndexCode, flows: seq<Flow>)
      reads Base(code), Base(code).index, Base(code).index.Repr
    {
      && Base(code).Valid() && Base(code).index.depth == Width(code)
      && Base(code).Added() == Keyed(code, flows)
    }

    ghost predicate Valid()
      reads this, Repr
    {
      Apart() && forall c: IndexCode :: Kept(c, flows)
    }

    constructor ()
      ensures Valid() && fresh(Repr) && flows == []
      ensures forall c: IndexCode :: Unqueried(Base(c).index) && Base(c).records == []
    {
      hide IndexBase.Valid, Unqueried, AllEmpty, Apart, Kept;
      var bases;
      ghost var space;
      bases, space := NewBases([4, 4, 2, 2, 1, 4]);
      sipIndex, dipIndex, sportIndex := bases[0], bases[1], bases[2];
      dportIndex, protoIndex, timeIndex := bases[3], bases[4], bases[5];
      flows := [];
      Repr := space;
      new;
      Assembled(bases);
    }

    lemma Assembled(bases: seq<IndexBase>)
      requires |bases| == 6 && AllEmpty(bases, [4, 4, 2, 2, 1, 4], Repr) && this !in Repr && flows == []
      requires forall c: IndexCode :: Base(c) == bases[Ordinal(c)]
      ensures Valid() && forall c: IndexCode :: Unqueried(Base(c).index) && Base(c).records == []
    {
      hide IndexBase.Valid, Unqueried, IndexBase.Foot;
      forall c: IndexCode ensures Empty(bases[Ordinal(c)], Width(c), Repr) {}
      forall c, e: IndexCode | c != e ensures Base(c).Foot() !! Base(e).Foot() {
        OrdinalInjective(c, e);
      }
    }

    /** The flow has been given to some of the indexes. */
    ghost predicate Adding(given: set<IndexCode>, flow: Flow)
      reads this, Repr
    {
      Apart() && forall c: IndexCode :: Kept(c, if c in given then flows + [flow] else flows)
    }

    method AddKey(base: IndexBase, key: nat, position: Value, ghost code: IndexCode, ghost given: set<IndexCode>,
                  ghost record: Ipv4Record)
        returns (ghost given': set<IndexCode>)
      requires Adding(given, Flow(record, position)) && base == Base(code) && code !in given
               && key == KeyOf(code, record)
      modifies base`records
      ensures given' == given + {code} && Adding(given', Flow(record, position))
              && base.records == old(base.records) + [Entry(key, position)]
    {
      hide IndexBase.Valid, Keyed, Pow256;
      given' := given + {code};
      KeyFits(code, record);
      KeyedSnoc(code, flows, Flow(record, position));
      assert Kept(code, flows);
      base.AddItem(key, position);
      assert Kept(code, flows + [Flow(record, position)]);
      forall c: IndexCode | c != code ensures Kept(c, if c in given then flows + [Flow(record, position)] else flows) {
        assert Base(c).Foot() !! base.Foot();
        assert old(Kept(c, if c in given then flows + [Flow(record, position)] else flows));
      }
    }

    /** All indexes have been given the flow. */
    ghost method NoteFlow(flow: Flow)
      requires Adding({SRCIP, DSTIP, SPORT, DPORT, PROTO, TIME}, flow)
      modifies this`flows
      ensures Valid() && flows == old(flows) + [flow]
    {
      hide IndexBase.Valid, Keyed;
      forall c: IndexCode ensures Kept(c, flows + [flow]) {}
      flows := flows + [flow];
    }

    lemma AddingNone(flow: Flow)
      requires Valid()
      ensures Adding({}, flow)
    {
      hide IndexBase.Valid, Keyed;
    }

    lemma AllInside()
      requires Apart()
      ensures sipIndex in Repr && dipIndex in Repr && sportIndex in Repr && dportIndex in Repr && protoIndex in Repr
              && timeIndex in Repr
      ensures this !in Repr
    {
      assert Base(SRCIP) in Repr && Base(DSTIP) in Repr && Base(SPORT) in Repr && Base(DPORT) in Repr
             && Base(PROTO) in Repr && Base(TIME) in Repr;
    }

    lemma AllDifferent()
      requires Apart()
      ensures sipIndex != dipIndex && sipIndex != sportIndex && sipIndex != dportIndex && sipIndex != protoIndex
      ensures sipIndex != timeIndex && dipIndex != sportIndex && dipIndex != dportIndex && dipIndex != protoIndex
      ensures dipIndex != timeIndex && sportIndex != dportIndex && sportIndex != protoIndex && sportIndex != timeIndex
      ensures dportIndex != protoIndex && dportIndex != timeIndex && protoIndex != timeIndex
    {
      forall c: IndexCode, e: IndexCode | c != e ensures Base(c) != Base(e) {
        assert Base(c).Foot() !! Base(e).Foot() && Base(c) in Base(c).Foot();
      }
      assert sipIndex == Base(SRCIP) && dipIndex == Base(DSTIP) && sportIndex == Base(SPORT);
      assert dportIndex == Base(DPORT) && protoIndex == Base(PROTO) && timeIndex == Base(TIME);
    }

    /** addRecord: every index is given the record's own field as key. */
    method AddRecord(record: Ipv4Record, position: Value)
      requires Valid()
      modifies this`flows, sipIndex`records, dipIndex`records, sportIndex`records, dportIndex`records,
               protoIndex`records, timeIndex`records
      ensures Valid() && flows == old(flows) + [Flow(record, position)]
      ensures sipIndex.records == old(sipIndex.records) + [Entry(record.srcip, position)]
      ensures dipIndex.records == old(dipIndex.records) + [Entry(record.dstip, position)]
      ensures sportIndex.records == old(sportIndex.records) + [Entry(record.srcport, position)]
      ensures dportIndex.records == old(dportIndex.records) + [Entry(record.dstport, position)]
      ensures protoIndex.records == old(protoIndex.records) + [Entry(record.proto, position)]
      ensures timeIndex.records == old(timeIndex.records) + [Entry(record.startTime, position)]
    {
      hide IndexBase.Valid, Keyed, Kept, Adding, Apart;
      AddingNone(Flow(record, position));
      AllInside();
      AllDifferent();
      ghost var given: set<IndexCode> := {};
      given := AddKey(sipIndex, record.srcip, position, SRCIP, given, record);
      given := AddKey(dipIndex, record.dstip, position, DSTIP, given, record);
      given := AddKey(sportIndex, record.srcport, position, SPORT, given, record);
      given := AddKey(dportIndex, record.dstport, position, DPORT, given, record);
      given := AddKey(protoIndex, record.proto, position, PROTO, given, record);
      given := AddKey(timeIndex, record.startTime, position, TIME, given, record);
      assert given == {SRCIP, DSTIP, SPORT, DPORT, PROTO, TIME};
      NoteFlow(Flow(record, position));
    }

    /** A change to one index's parts leaves the other indexes as they were. */
    twostate lemma OthersKept(code: IndexCode)
      requires old(Valid()) && flows == old(flows) && Kept(code, flows)
      requires Repr == old(Repr) + Base(code).index.Repr && this !in Repr
      requires forall o :: o in old(Repr) && o !in old(Base(code).Foot()) ==> unchanged(o)
      requires forall o :: o in Base(code).index.Repr ==> o in old(Base(code).index.Repr) || o !in old(Repr)
      ensures Valid()
      ensures forall c: IndexCode :: c != code ==>
                old(Base(c).Foot() !! Base(code).Foot()) && old(Base(c).Foot()) <= old(Repr)
    {
      hide IndexBase.Valid, Keyed;
      forall c: IndexCode | c != code
        ensures Kept(c, flows) && Base(c).Foot() == old(Base(c).Foot()) && Base(c).Foot() !! Base(code).Foot()
      {
        assert old(Base(c).Foot() !! Base(code).Foot());
        assert old(Kept(c, flows));
      }
    }

    /** buildIndex: drains one index's staging buffer into its trie. */
    method BuildIndex(code: IndexCode)
      requires Valid()
      modifies this`Repr, Base(code)`records, Base(code).index, Base(code).index.Repr
      ensures Valid() && fresh(Repr - old(Repr)) && flows == old(flows)
      ensures Base(code).records == [] && (old(Unqueried(Base(code).index)) ==> Unqueried(Base(code).index))
    {
      hide IndexBase.Valid, Keyed, Unqueried;
      assert Kept(code, flows);
      Base(code).InsertRecords();
      Repr := Repr + Base(code).index.Repr;
      OthersKept(code);
    }

    /** queryFromMem: the bounds are cut to the index's key type. */
    method QueryFromMem(code: IndexCode, begin: nat, end: nat) returns (result: OffsetsResult)
      requires Valid() && AllFresh(Base(code).index.views)
      modifies this`Repr, Base(code).index`views, Base(code).index`Repr, Base(code).index.Repr
      ensures Valid() && fresh(Repr - old(Repr)) && fresh(result) && result !in Repr && flows == old(flows)
      ensures forall c: IndexCode ::
                Base(c).index.log == old(Base(c).index.log) && Base(c).records == old(Base(c).records)
      ensures forall c: IndexCode :: old(AllFresh(Base(c).index.views)) ==> AllFresh(Base(c).index.views)
      ensures result.offsets
              == Absorb(Base(code).index.log, begin % Pow256(Width(code)), end % Pow256(Width(code)) + 1, [])
    {
      hide IndexBase.Valid, Keyed, AllFresh, Absorb;
      assert Kept(code, flows);
      result := Base(code).QueryFromMem(begin % Pow256(Width(code)), end % Pow256(Width(code)));
      Repr := Repr + Base(code).index.Repr;
      OthersKept(code);
      forall c: IndexCode
        ensures Base(c).index.log == old(Base(c).index.log) && Base(c).records == old(Base(c).records)
        ensures old(AllFresh(Base(c).index.views)) ==> AllFresh(Base(c).index.views)
      {
        if c != code { assert old(Base(c).Foot() !! Base(code).Foot()); }
      }
    }
  }
}
