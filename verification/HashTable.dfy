/** The flow table: packets grouped by five-tuple in hash buckets, exported flow by flow. */
module HashTables {
  import opened FlowLog
  import opened Words

  /** The fields that identify a flow, as they stand in the packet headers. */
  datatype FiveTuple = FiveTuple(srcip: u32, dstip: u32, proto: u16, srcport: u16, dstport: u16)

  function HashCode(t: FiveTuple): nat {
    Xor(Xor(Xor(Xor(t.srcip, t.dstip), t.srcport), t.dstport), t.proto)
  }

  /** Bit i of the hash code is the parity of bit i of the five fields. */
  lemma HashBits(t: FiveTuple, i: nat)
    ensures Bit(HashCode(t), i) <==>
            ((((Bit(t.srcip, i) != Bit(t.dstip, i)) != Bit(t.srcport, i)) != Bit(t.dstport, i)) != Bit(t.proto, i))
  {
    hide Bit, Xor;
    var a := Xor(t.srcip, t.dstip);
    var b := Xor(a, t.srcport);
    BitOfXor(t.srcip, t.dstip, i);
    BitOfXor(a, t.srcport, i);
    BitOfXor(b, t.dstport, i);
    BitOfXor(Xor(b, t.dstport), t.proto, i);
  }

  datatype Packet = Packet(tuple: FiveTuple, seconds: nat, payload: nat)

  /** A flow in the table. */
  datatype Item = Item(tuple: FiveTuple, packets: seq<Packet>)

  /** addPacket on a bucket: the first flow with the packet's five-tuple takes it, or a new flow behind all others. */
  function AddTo(items: seq<Item>, p: Packet): seq<Item> {
    if items == [] then [Item(p.tuple, [p])]
    else if items[0].tuple == p.tuple then [Item(p.tuple, items[0].packets + [p])] + items[1..]
    else [items[0]] + AddTo(items[1..], p)
  }

  ghost predicate NoFlowOf(items: seq<Item>, t: FiveTuple) {
    forall i :: 0 <= i < |items| ==> items[i].tuple != t
  }

  ghost predicate FirstFlowOf(items: seq<Item>, t: FiveTuple, i: int) {
    0 <= i < |items| && items[i].tuple == t && NoFlowOf(items[..i], t)
  }

  /** Without a flow of its five-tuple, a packet gets a new flow behind all others. */
  lemma {:induction false} AddToNew(items: seq<Item>, p: Packet)
    requires NoFlowOf(items, p.tuple)
    ensures AddTo(items, p) == items + [Item(p.tuple, [p])]
  {
    if items != [] {
      AddToNew(items[1..], p);
      assert items == [items[0]] + items[1..];
    }
  }

  /** Otherwise it joins the first such flow. */
  lemma {:induction false} AddToFirst(items: seq<Item>, p: Packet, i: nat)
    requires FirstFlowOf(items, p.tuple, i)
    ensures AddTo(items, p) == items[i := Item(p.tuple, items[i].packets + [p])]
  {
    if i > 0 {
      assert items[..i][0] == items[0];
      assert items[1..][..i - 1] == items[..i][1..];
      AddToFirst(items[1..], p, i - 1);
      assert items == [items[0]] + items[1..];
    }
  }

  lemma AddMeans(items: seq<Item>, p: Packet)
    ensures NoFlowOf(items, p.tuple) ==> AddTo(items, p) == items + [Item(p.tuple, [p])]
    ensures forall i :: FirstFlowOf(items, p.tuple, i) ==>
              AddTo(items, p) == items[i := Item(p.tuple, items[i].packets + [p])]
  {
    if NoFlowOf(items, p.tuple) { AddToNew(items, p); }
    forall i | FirstFlowOf(items, p.tuple, i)
      ensures AddTo(items, p) == items[i := Item(p.tuple, items[i].packets + [p])]
    { AddToFirst(items, p, i); }
  }

  function Without<T>(xs: seq<T>, j: nat): seq<T>
    requires j < |xs|
  {
    xs[..j] + xs[j + 1..]
  }

  /** The packets a bucket holds for one five-tuple. */
  function LiveIn(items: seq<Item>, t: FiveTuple): seq<Packet> {
    if items == [] then [] else (if items[0].tuple == t then items[0].packets else []) + LiveIn(items[1..], t)
  }

  /** The packets of one five-tuple, in order. */
  function Having(packets: seq<Packet>, t: FiveTuple): seq<Packet> {
    if packets == [] then []
    else
      var init, last := packets[..|packets| - 1], packets[|packets| - 1];
      Having(init, t) + (if last.tuple == t then [last] else [])
  }

  /** The packets exported for one five-tuple, export after export. */
  function ExportedFor(exported: seq<Item>, t: FiveTuple): seq<Packet> {
    if exported == [] then []
    else
      var init, last := exported[..|exported| - 1], exported[|exported| - 1];
      ExportedFor(init, t) + (if last.tuple == t then last.packets else [])
  }

  /** No two flows of the bucket share a five-tuple, every flow has a packet, and its packets have its five-tuple. */
  ghost predicate Flows(items: seq<Item>) {
    && (forall i, j :: 0 <= i < j < |items| ==> items[i].tuple != items[j].tuple)
    && (forall i :: 0 <= i < |items| ==> items[i].packets != [] && forall p :: p in items[i].packets ==>
        p.tuple == items[i].tuple)
  }

  lemma {:induction false} LiveNone(items: seq<Item>, t: FiveTuple)
    requires forall i :: 0 <= i < |items| ==> items[i].tuple != t
    ensures LiveIn(items, t) == []
  {
    if items != [] { LiveNone(items[1..], t); }
  }

  lemma {:induction false} AddKeepsFlows(items: seq<Item>, p: Packet)
    requires Flows(items)
    ensures Flows(AddTo(items, p))
    ensures forall i :: 0 <= i < |AddTo(items, p)| ==>
              AddTo(items, p)[i].tuple == p.tuple ||
                exists j :: 0 <= j < |items| && items[j].tuple == AddTo(items, p)[i].tuple
  {
    if items != [] && items[0].tuple != p.tuple {
      AddKeepsFlows(items[1..], p);
      var rest := AddTo(items[1..], p);
      forall i | 0 <= i < |rest|
        ensures rest[i].tuple == p.tuple || exists j :: 0 <= j < |items| && items[j].tuple == rest[i].tuple
      {
        if rest[i].tuple != p.tuple {
          var j :| 0 <= j < |items[1..]| && items[1..][j].tuple == rest[i].tuple;
          assert items[j + 1].tuple == rest[i].tuple;
        }
      }
      forall i | 0 <= i < |rest| ensures rest[i].tuple != items[0].tuple {
        if rest[i].tuple != p.tuple {
          var j :| 0 <= j < |items[1..]| && items[1..][j].tuple == rest[i].tuple;
        }
      }
    }
  }

  /** A packet joins the packets of its five-tuple at the end, and no others. */
  lemma {:induction false} AddToLive(items: seq<Item>, p: Packet, t: FiveTuple)
    requires Flows(items)
    ensures LiveIn(AddTo(items, p), t) == LiveIn(items, t) + (if p.tuple == t then [p] else [])
  {
    if items != [] {
      if items[0].tuple == p.tuple {
        if p.tuple == t { LiveNone(items[1..], t); }
      } else {
        AddToLive(items[1..], p, t);
      }
    }
  }

  lemma WithoutFlows(items: seq<Item>, j: nat)
    requires Flows(items) && j < |items|
    ensures Flows(Without(items, j))
  {}

  lemma LiveCons(item: Item, rest: seq<Item>, t: FiveTuple)
    ensures LiveIn([item] + rest, t) == (if item.tuple == t then item.packets else []) + LiveIn(rest, t)
  {
    assert ([item] + rest)[1..] == rest;
  }

  lemma FlowsRest(items: seq<Item>)
    requires Flows(items) && items != []
    ensures Flows(items[1..]) && forall i :: 0 <= i < |items[1..]| ==> items[1..][i].tuple != items[0].tuple
  {}

  /** Taking a flow out takes exactly its packets. */
  lemma {:induction false} WithoutLive(items: seq<Item>, j: nat, t: FiveTuple)
    requires Flows(items) && j < |items|
    ensures LiveIn(items, t) == (if items[j].tuple == t then items[j].packets else []) + LiveIn(Without(items, j), t)
  {
    hide Flows, LiveIn;
    var rest := items[1..];
    assert items == [items[0]] + rest;
    LiveCons(items[0], rest, t);
    if j > 0 {
      FlowsRest(items);
      WithoutLive(rest, j - 1, t);
      assert Without(items, j) == [items[0]] + Without(rest, j - 1);
      LiveCons(items[0], Without(rest, j - 1), t);
      assert rest[j - 1].tuple != items[0].tuple;
    } else {
      assert Without(items, 0) == rest;
    }
  }

  // ---- runs of arrivals and exports ----

  /** A table with the flows exported from it so far and the packets that have arrived. */
  datatype State = State(table: seq<seq<Item>>, exported: seq<Item>, arrived: seq<Packet>)

  /** Arrivals and the steps of a scan interleave: a scan may export any live flow, whatever the timeout. */
  datatype Step = Arrive(p: Packet) | Export(bucket: nat, j: nat)

  function BucketOf(t: FiveTuple, size: nat): nat
    requires size > 0
  {
    HashCode(t) % size
  }

  predicate Possible(s: State, a: Step) {
    s.table != [] && (a.Export? ==> a.bucket < |s.table| && a.j < |s.table[a.bucket]|)
  }

  function Do(s: State, a: Step): State
    requires Possible(s, a)
  {
    match a
    case Arrive(p) =>
      var b := BucketOf(p.tuple, |s.table|);
      State(s.table[b := AddTo(s.table[b], p)], s.exported, s.arrived + [p])
    case Export(b, j) =>
      State(s.table[b := Without(s.table[b], j)], s.exported + [s.table[b][j]], s.arrived)
  }

  ghost predicate InBucket(items: seq<Item>, b: nat, size: nat)
    requires size > 0
  {
    forall i :: 0 <= i < |items| ==> BucketOf(items[i].tuple, size) == b
  }

  /** The flows of the table partition the packets by five-tuple: for every five-tuple, what has been exported followed
      by what its only live flow holds is what has arrived, in order. */
  ghost predicate Partition(s: State) {
    && s.table != []
    && (forall b :: 0 <= b < |s.table| ==> Flows(s.table[b]) && InBucket(s.table[b], b, |s.table|))
    && (forall t :: ExportedFor(s.exported, t) + LiveIn(s.table[BucketOf(t, |s.table|)], t) == Having(s.arrived, t))
  }

  lemma HavingSnoc(packets: seq<Packet>, p: Packet, t: FiveTuple)
    ensures Having(packets + [p], t) == Having(packets, t) + (if p.tuple == t then [p] else [])
  {
    assert (packets + [p])[..|packets|] == packets;
  }

  lemma ExportedSnoc(exported: seq<Item>, item: Item, t: FiveTuple)
    ensures ExportedFor(exported + [item], t)
            == ExportedFor(exported, t) + (if item.tuple == t then item.packets else [])
  {
    assert (exported + [item])[..|exported|] == exported;
  }

  lemma ArriveKeeps(s: State, p: Packet)
    requires Partition(s)
    ensures Partition(Do(s, Arrive(p)))
  {
    hide Flows, AddTo, LiveIn, Having, HashCode, ExportedFor;
    var s', b := Do(s, Arrive(p)), BucketOf(p.tuple, |s.table|);
    AddKeepsFlows(s.table[b], p);
    forall t
      ensures ExportedFor(s'.exported, t) + LiveIn(s'.table[BucketOf(t, |s'.table|)], t) == Having(s'.arrived, t)
    {
      HavingSnoc(s.arrived, p, t);
      assert ExportedFor(s.exported, t) + LiveIn(s.table[BucketOf(t, |s.table|)], t) == Having(s.arrived, t);
      if BucketOf(t, |s.table|) == b { AddToLive(s.table[b], p, t); }
    }
  }

  lemma ExportKeeps(s: State, b: nat, j: nat)
    requires Partition(s) && Possible(s, Export(b, j))
    ensures Partition(Do(s, Export(b, j)))
  {
    hide Flows, AddTo, LiveIn, Having, HashCode, ExportedFor;
    var s' := Do(s, Export(b, j));
    WithoutFlows(s.table[b], j);
    forall t
      ensures ExportedFor(s'.exported, t) + LiveIn(s'.table[BucketOf(t, |s'.table|)], t) == Having(s'.arrived, t)
    {
      ExportedSnoc(s.exported, s.table[b][j], t);
      assert ExportedFor(s.exported, t) + LiveIn(s.table[BucketOf(t, |s.table|)], t) == Having(s.arrived, t);
      if BucketOf(t, |s.table|) == b { WithoutLive(s.table[b], j, t); }
    }
  }

  predicate Steps(s: State, run: seq<Step>)
    decreases |run|
  {
    run == [] || (Possible(s, run[0]) && Steps(Do(s, run[0]), run[1..]))
  }

  function Reached(s: State, run: seq<Step>): State
    requires Steps(s, run)
    decreases |run|
  {
    if run == [] then s else Reached(Do(s, run[0]), run[1..])
  }

  function EmptyTable(size: nat): State {
    State(seq(size, _ => []), [], [])
  }

  lemma {:induction false} RunKeepsPartition(s: State, run: seq<Step>)
    requires Partition(s) && Steps(s, run)
    ensures Partition(Reached(s, run))
    decreases |run|
  {
    if run != [] {
      match run[0] {
        case Arrive(p) => ArriveKeeps(s, p);
        case Export(b, j) => ExportKeeps(s, b, j);
      }
      RunKeepsPartition(Do(s, run[0]), run[1..]);
    }
  }

  /** From an empty table on, every run keeps the partition. */
  lemma EveryRun(size: nat, run: seq<Step>)
    requires size > 0 && Steps(EmptyTable(size), run)
    ensures Partition(Reached(EmptyTable(size), run))
  {
    hide HashCode;
    RunKeepsPartition(EmptyTable(size), run);
  }

  /** No two flows of a table share a five-tuple. */
  lemma OneFlowEach(s: State, b: nat, i: nat, c: nat, j: nat)
    requires Partition(s) && b < |s.table| && c < |s.table| && i < |s.table[b]| && j < |s.table[c]|
    requires s.table[b][i].tuple == s.table[c][j].tuple
    ensures b == c && i == j
  {
    assert Flows(s.table[b]);
    assert InBucket(s.table[b], b, |s.table|) && InBucket(s.table[c], c, |s.table|);
  }

  lemma {:induction false} HavingCount(packets: seq<Packet>, p: Packet)
    ensures multiset(Having(packets, p.tuple))[p] == multiset(packets)[p]
  {
    if packets != [] {
      var init, last := packets[..|packets| - 1], packets[|packets| - 1];
      HavingCount(init, p);
      assert packets == init + [last];
    }
  }

  /** Every packet that has arrived is in the exported flows or in the live flow of its five-tuple, as often as it
      arrived. */
  lemma EachPacketOnce(s: State, p: Packet)
    requires Partition(s)
    ensures multiset(ExportedFor(s.exported, p.tuple))[p]
            + multiset(LiveIn(s.table[BucketOf(p.tuple, |s.table|)], p.tuple))[p]
            == multiset(s.arrived)[p]
  {
    hide HashCode, LiveIn, ExportedFor, Having, Flows;
    HavingCount(s.arrived, p);
    assert ExportedFor(s.exported, p.tuple) + LiveIn(s.table[BucketOf(p.tuple, |s.table|)], p.tuple)
           == Having(s.arrived, p.tuple);
  }

  // ---- the table in memory ----

  class PacketsItem {
    var fiveTuple: FiveTuple
    var packets: seq<Packet>

    constructor (packet: Packet)
      ensures fiveTuple == packet.tuple && packets == [packet]
    {
      fiveTuple, packets := packet.tuple, [packet];
    }

    /** The first packet gives the flow its five-tuple. */
    method AddPacket(packet: Packet)
      modifies this
      ensures packets == old(packets) + [packet]
      ensures fiveTuple == if old(packets) == [] then packet.tuple else old(fiveTuple)
    {
      if packets == [] {
        fiveTuple := packet.tuple;
      }
      packets := packets + [packet];
    }

    function View(): Item
      reads this
    {
      Item(fiveTuple, packets)
    }

    /** needToExport: the last packet came more than timeout seconds before now. */
    predicate NeedToExport(now: int, timeout: int)
      reads this
    {
      packets != [] && now - timeout > packets[|packets| - 1].seconds
    }
  }

  class HashBucket {
    var items: seq<PacketsItem>
    ghost var view: seq<Item>
    ghost var Repr: set<object>

    ghost predicate Valid()
      reads this, Repr
      ensures Valid() ==> this in Repr
    {
      && this in Repr && (forall i :: 0 <= i < |items| ==> items[i] in Repr)
      && (forall i, j :: 0 <= i < j < |items| ==> items[i] != items[j])
      && |view| == |items| && forall i :: 0 <= i < |items| ==> view[i] == items[i].View()
    }

    constructor ()
      ensures Valid() && fresh(Repr) && view == []
    {
      items, view, Repr := [], [], {this};
    }

    /** The first flow with the packet's five-tuple, or the end of the list. */
    method Find(packet: Packet) returns (i: nat)
      requires Valid()
      ensures i <= |items| && (i < |items| ==> items[i].fiveTuple == packet.tuple)
      ensures AddTo(view, packet) == view[..i] + AddTo(view[i..], packet)
    {
      hide AddTo;
      i := 0;
      assert view[0..] == view && view[..0] == [];
      while i < |items|
        invariant i <= |items| && AddTo(view, packet) == view[..i] + AddTo(view[i..], packet)
      {
        if packet.tuple == items[i].fiveTuple {
          return;
        }
        AddFrom(view, packet, i);
        i := i + 1;
      }
    }

    method AddPacket(packet: Packet)
      requires Valid()
      modifies Repr
      ensures Valid() && fresh(Repr - old(Repr)) && view == AddTo(old(view), packet)
      ensures NoFlowOf(old(view), packet.tuple) ==> view == old(view) + [Item(packet.tuple, [packet])]
      ensures forall i :: FirstFlowOf(old(view), packet.tuple, i) ==>
                view == old(view)[i := Item(packet.tuple, old(view)[i].packets + [packet])]
    {
      AddMeans(view, packet);
      var i := Find(packet);
      if i < |items| {
        AddAt(view, packet, i);
        items[i].AddPacket(packet);
        view := view[i := items[i].View()];
      } else {
        assert view[i..] == [] && view[..i] == view;
        var item := new PacketsItem(packet);
        items := items + [item];
        view := view + [item.View()];
        Repr := Repr + {item};
      }
    }

    /** deleteItem: the flow leaves the bucket. */
    method DeleteItem(j: nat)
      requires Valid() && j < |items|
      modifies this
      ensures Valid() && Repr == old(Repr) && items == Without(old(items), j) && view == Without(old(view), j)
    {
      items := items[..j] + items[j + 1..];
      view := view[..j] + view[j + 1..];
    }

    /** The scan of one bucket: flows whose last packet is too old are stored and deleted, the others stay. */
    method Scan(now: int, timeout: int) returns (exported: seq<Item>)
      requires Valid()
      modifies this
      ensures Valid() && Repr == old(Repr)
      ensures view == Staying(old(view), now, timeout) && exported == Leaving(old(view), now, timeout)
      ensures forall x :: x in exported ==> x.packets != [] && now - timeout > x.packets[|x.packets| - 1].seconds
      ensures forall x :: x in view && x.packets != [] ==> x.packets[|x.packets| - 1].seconds >= now - timeout
    {
      hide Staying, Leaving;
      ScanMeaning(view, now, timeout);
      exported := [];
      var it := 0;
      ghost var old_, n := view, 0;
      ScanStart(view, now, timeout);
      while it < |items|
        invariant Valid() && Repr == old(Repr) && 0 <= it <= |items| && it <= n <= |old_| && |items| - it == |old_| - n
        invariant view[..it] == Staying(old_[..n], now, timeout) && view[it..] == old_[n..]
                  && exported == Leaving(old_[..n], now, timeout)
        decreases |items| - it
      {
        ScanStep(old_, n, now, timeout);
        assert view[it] == old_[n];
        if items[it].NeedToExport(now, timeout) {
          exported := exported + [items[it].View()];
          DeleteItem(it);
        } else {
          it := it + 1;
        }
        n := n + 1;
      }
      assert old_[..n] == old_ && view[..it] == view;
    }
  }

  /** The last packet of the flow came more than timeout seconds before now. */
  predicate Due(item: Item, now: int, timeout: int) {
    item.packets != [] && now - timeout > item.packets[|item.packets| - 1].seconds
  }

  function Staying(items: seq<Item>, now: int, timeout: int): seq<Item> {
    if items == [] then []
    else
      var init, last := items[..|items| - 1], items[|items| - 1];
      Staying(init, now, timeout) + (if Due(last, now, timeout) then [] else [last])
  }

  function Leaving(items: seq<Item>, now: int, timeout: int): seq<Item> {
    if items == [] then []
    else
      var init, last := items[..|items| - 1], items[|items| - 1];
      Leaving(init, now, timeout) + (if Due(last, now, timeout) then [last] else [])
  }

  lemma {:induction false} LiveSnoc(items: seq<Item>, item: Item, t: FiveTuple)
    ensures LiveIn(items + [item], t) == LiveIn(items, t) + (if item.tuple == t then item.packets else [])
  {
    if items != [] {
      LiveSnoc(items[1..], item, t);
      assert (items + [item])[1..] == items[1..] + [item];
    }
  }

  lemma FlowsInit(items: seq<Item>)
    requires Flows(items) && items != []
    ensures Flows(items[..|items| - 1]) && forall i :: 0 <= i < |items| - 1 ==>
              items[i].tuple != items[|items| - 1].tuple
  {}

  lemma OneSide(e: seq<Packet>, s: seq<Packet>, live: seq<Packet>, more: seq<Packet>)
    requires e + s == live && (more == [] || live == [])
    ensures e + more + s == live + more && e + (s + more) == live + more
  {}

  /** A scan splits the packets of every five-tuple between what leaves and what stays. */
  lemma {:induction false} ScanSplits(items: seq<Item>, now: int, timeout: int, t: FiveTuple)
    requires Flows(items)
    ensures ExportedFor(Leaving(items, now, timeout), t) + LiveIn(Staying(items, now, timeout), t) == LiveIn(items, t)
  {
    if items != [] {
      hide Flows, ExportedFor, LiveIn, Due;
      var init, last := items[..|items| - 1], items[|items| - 1];
      var leaving, staying := Leaving(init, now, timeout), Staying(init, now, timeout);
      var more := if last.tuple == t then last.packets else [];
      assert items == init + [last];
      FlowsInit(items);
      ScanSplits(init, now, timeout, t);
      LiveSnoc(init, last, t);
      if last.tuple == t { LiveNone(init, t); }
      ExportedSnoc(leaving, last, t);
      LiveSnoc(staying, last, t);
      OneSide(ExportedFor(leaving, t), LiveIn(staying, t), LiveIn(init, t), more);
      assert staying + [] == staying && leaving + [] == leaving;
    }
  }

  /** A scan takes out flows whose last packet came more than timeout seconds before now, and leaves no such flow. */
  lemma {:induction false} ScanMeaning(items: seq<Item>, now: int, timeout: int)
    ensures forall x :: x in Leaving(items, now, timeout) ==>
              x.packets != [] && now - timeout > x.packets[|x.packets| - 1].seconds
    ensures forall x :: x in Staying(items, now, timeout) && x.packets != [] ==>
              x.packets[|x.packets| - 1].seconds >= now - timeout
  {
    if items != [] { ScanMeaning(items[..|items| - 1], now, timeout); }
  }

  lemma ScanStart(items: seq<Item>, now: int, timeout: int)
    ensures Staying(items[..0], now, timeout) == [] && Leaving(items[..0], now, timeout) == []
  {}

  lemma ScanStep(items: seq<Item>, n: nat, now: int, timeout: int)
    requires n < |items|
    ensures Staying(items[..n + 1], now, timeout)
            == Staying(items[..n], now, timeout) + (if Due(items[n], now, timeout) then [] else [items[n]])
    ensures Leaving(items[..n + 1], now, timeout)
            == Leaving(items[..n], now, timeout) + (if Due(items[n], now, timeout) then [items[n]] else [])
  {
    assert items[..n + 1][..n] == items[..n];
  }

  lemma {:induction false} AddAt(items: seq<Item>, p: Packet, i: nat)
    requires i < |items| && items[i].tuple == p.tuple && AddTo(items, p) == items[..i] + AddTo(items[i..], p)
    ensures AddTo(items, p) == items[i := Item(p.tuple, items[i].packets + [p])]
  {
    assert items[i..][0] == items[i] && items[i..][1..] == items[i + 1..];
  }

  lemma AddPast(items: seq<Item>, p: Packet, i: nat)
    requires i < |items| && items[i].tuple != p.tuple
    ensures AddTo(items[i..], p) == [items[i]] + AddTo(items[i + 1..], p)
  {
    assert items[i..][0] == items[i] && items[i..][1..] == items[i + 1..];
  }

  /** addPacket passes over the flows of other five-tuples. */
  lemma AddFrom(items: seq<Item>, p: Packet, i: nat)
    requires i < |items| && AddTo(items, p) == items[..i] + AddTo(items[i..], p) && items[i].tuple != p.tuple
    ensures AddTo(items, p) == items[..i + 1] + AddTo(items[i + 1..], p)
  {
    AddPast(items, p, i);
    hide AddTo;
    assert items[..i + 1] == items[..i] + [items[i]];
    ConcatAssoc(items[..i], [items[i]], AddTo(items[i + 1..], p));
  }

  // ---- the whole table ----

  /** The table when its first n buckets have been scanned. */
  function Scanned(table: seq<seq<Item>>, n: nat, now: int, timeout: int): (table': seq<seq<Item>>)
    requires n <= |table|
    ensures |table'| == |table|
  {
    if n == 0 then table else Scanned(table, n - 1, now, timeout)[n - 1 := Staying(table[n - 1], now, timeout)]
  }

  /** What a scan of the first n buckets exports, in order. */
  function ScannedOut(table: seq<seq<Item>>, n: nat, now: int, timeout: int): seq<Item>
    requires n <= |table|
  {
    if n == 0 then [] else ScannedOut(table, n - 1, now, timeout) + Leaving(table[n - 1], now, timeout)
  }

  lemma {:induction false} NotYetScanned(table: seq<seq<Item>>, n: nat, now: int, timeout: int)
    requires n <= |table|
    ensures forall b :: n <= b < |table| ==> Scanned(table, n, now, timeout)[b] == table[b]
  {
    if n > 0 { NotYetScanned(table, n - 1, now, timeout); }
  }

  lemma ConcatAssoc<T>(x: seq<T>, y: seq<T>, z: seq<T>)
    ensures x + (y + z) == (x + y) + z
  {}

  /** Scanning is done flow by flow, in the order of the bucket. */
  lemma {:induction false} ScanInOrder(a: seq<Item>, b: seq<Item>, now: int, timeout: int)
    ensures Leaving(a + b, now, timeout) == Leaving(a, now, timeout) + Leaving(b, now, timeout)
    ensures Staying(a + b, now, timeout) == Staying(a, now, timeout) + Staying(b, now, timeout)
  {
    if b == [] {
      assert a + b == a;
    } else {
      var init, last := b[..|b| - 1], b[|b| - 1];
      ScanInOrder(a, init, now, timeout);
      assert (a + b)[..|a + b| - 1] == a + init && (a + b)[|a + b| - 1] == last;
    }
  }

  lemma {:induction false} ScannedAt(table: seq<seq<Item>>, n: nat, now: int, timeout: int, b: nat)
    requires n <= |table| && b < |table|
    ensures Scanned(table, n, now, timeout)[b] == if b < n then Staying(table[b], now, timeout) else table[b]
  {
    if n > 0 { ScannedAt(table, n - 1, now, timeout, b); }
  }

  lemma {:induction false} ScannedOutFrom(table: seq<seq<Item>>, n: nat, now: int, timeout: int, x: Item)
    requires n <= |table| && x in ScannedOut(table, n, now, timeout)
    ensures x.packets != [] && now - timeout > x.packets[|x.packets| - 1].seconds
  {
    ScanMeaning(table[n - 1], now, timeout);
    if x !in Leaving(table[n - 1], now, timeout) { ScannedOutFrom(table, n - 1, now, timeout, x); }
  }

  /** A scan of the table exports flows whose last packet came more than timeout seconds before now, and leaves none in
      any bucket. */
  lemma TableScanMeaning(table: seq<seq<Item>>, now: int, timeout: int)
    ensures forall x :: x in ScannedOut(table, |table|, now, timeout) ==>
              x.packets != [] && now - timeout > x.packets[|x.packets| - 1].seconds
    ensures forall b, x :: 0 <= b < |table| && x in Scanned(table, |table|, now, timeout)[b] && x.packets != [] ==>
              x.packets[|x.packets| - 1].seconds >= now - timeout
  {
    hide Leaving, Staying, Scanned, ScannedOut;
    forall x | x in ScannedOut(table, |table|, now, timeout)
      ensures x.packets != [] && now - timeout > x.packets[|x.packets| - 1].seconds
    { ScannedOutFrom(table, |table|, now, timeout, x); }
    forall b, x | 0 <= b < |table| && x in Scanned(table, |table|, now, timeout)[b] && x.packets != []
      ensures x.packets[|x.packets| - 1].seconds >= now - timeout
    {
      ScannedAt(table, |table|, now, timeout, b);
      ScanMeaning(table[b], now, timeout);
    }
  }

  lemma {:induction false} ExportedConcat(a: seq<Item>, b: seq<Item>, t: FiveTuple)
    ensures ExportedFor(a + b, t) == ExportedFor(a, t) + ExportedFor(b, t)
  {
    if b == [] {
      assert a + b == a;
    } else {
      hide ExportedFor;
      var init, last := b[..|b| - 1], b[|b| - 1];
      ExportedConcat(a, init, t);
      var more := if last.tuple == t then last.packets else [];
      assert b == init + [last];
      ConcatAssoc(a, init, [last]);
      ExportedSnoc(a + init, last, t);
      ExportedSnoc(init, last, t);
      ConcatAssoc(ExportedFor(a, t), ExportedFor(init, t), more);
    }
  }

  lemma {:induction false} NoneExported(items: seq<Item>, t: FiveTuple)
    requires forall i :: 0 <= i < |items| ==> items[i].tuple != t
    ensures ExportedFor(items, t) == []
  {
    if items != [] { NoneExported(items[..|items| - 1], t); }
  }

  /** Every flow that stays or leaves was in the bucket. */
  lemma {:induction false} FromBucket(items: seq<Item>, now: int, timeout: int)
    ensures forall x :: x in Staying(items, now, timeout) ==> x in items
    ensures forall x :: x in Leaving(items, now, timeout) ==> x in items
  {
    if items != [] { FromBucket(items[..|items| - 1], now, timeout); }
  }

  lemma {:induction false} StayingFlows(items: seq<Item>, now: int, timeout: int)
    requires Flows(items)
    ensures Flows(Staying(items, now, timeout))
  {
    if items != [] {
      hide Flows, Due;
      var init, last := items[..|items| - 1], items[|items| - 1];
      FlowsInit(items);
      StayingFlows(init, now, timeout);
      FromBucket(init, now, timeout);
      assert last in items;
      FlowsSnoc(Staying(init, now, timeout), items);
    }
  }

  lemma FlowsSnoc(staying: seq<Item>, items: seq<Item>)
    requires Flows(items) && items != [] && Flows(staying) && forall x :: x in staying ==> x in items[..|items| - 1]
    ensures Flows(staying + [items[|items| - 1]])
  {
    var last := items[|items| - 1];
    forall i | 0 <= i < |staying| ensures staying[i].tuple != last.tuple {
      assert staying[i] in staying;
    }
  }

  /** The scan of a bucket keeps the partition. */
  lemma ScanKeeps(s: State, b: nat, now: int, timeout: int)
    requires Partition(s) && b < |s.table|
    ensures Partition(State(s.table[b := Staying(s.table[b], now, timeout)],
                            s.exported + Leaving(s.table[b], now, timeout), s.arrived))
  {
    hide Flows, LiveIn, Having, HashCode, ExportedFor, Staying, Leaving;
    var items, staying, leaving := s.table[b], Staying(s.table[b], now, timeout), Leaving(s.table[b], now, timeout);
    StayingFlows(items, now, timeout);
    FromBucket(items, now, timeout);
    StayInBucket(items, staying, b, |s.table|);
    StayInBucket(items, leaving, b, |s.table|);
    forall t
      ensures ExportedFor(s.exported + leaving, t) + LiveIn(s.table[b := staying][BucketOf(t, |s.table|)], t)
              == Having(s.arrived, t)
    {
      ExportedConcat(s.exported, leaving, t);
      assert ExportedFor(s.exported, t) + LiveIn(s.table[BucketOf(t, |s.table|)], t) == Having(s.arrived, t);
      if BucketOf(t, |s.table|) == b { ScanSplits(items, now, timeout, t); } else { NoneExported(leaving, t); }
    }
  }

  lemma StayInBucket(items: seq<Item>, some: seq<Item>, b: nat, size: nat)
    requires size > 0 && InBucket(items, b, size) && forall x :: x in some ==> x in items
    ensures InBucket(some, b, size)
  {
    hide HashCode;
    forall i | 0 <= i < |some| ensures BucketOf(some[i].tuple, size) == b { assert some[i] in items; }
  }

  /** A scan of the whole table keeps the partition. */
  lemma {:induction false} TableScanKeeps(s: State, n: nat, now: int, timeout: int)
    requires Partition(s) && n <= |s.table|
    ensures Partition(State(Scanned(s.table, n, now, timeout), s.exported + ScannedOut(s.table, n, now, timeout),
                            s.arrived))
  {
    hide Partition, Staying, Leaving;
    if n == 0 {
      assert s.exported + [] == s.exported;
    } else {
      TableScanKeeps(s, n - 1, now, timeout);
      NotYetScanned(s.table, n - 1, now, timeout);
      var before := State(Scanned(s.table, n - 1, now, timeout), s.exported + ScannedOut(s.table, n - 1, now, timeout),
                          s.arrived);
      ScanKeeps(before, n - 1, now, timeout);
      assert before.exported + Leaving(s.table[n - 1], now, timeout)
             == s.exported + ScannedOut(s.table, n, now, timeout);
    }
  }

  /** Every bucket lives in the space, shares nothing with the others, and is in order. */
  ghost predicate BucketsIn(buckets: seq<HashBucket>, space: set<object>)
    reads space
  {
    && (forall b :: 0 <= b < |buckets| ==> buckets[b] in space && buckets[b].Repr <= space && buckets[b].Valid())
    && (forall b, c :: 0 <= b < c < |buckets| ==> buckets[b].Repr !! buckets[c].Repr)
  }

  method NewBuckets(size: nat) returns (buckets: seq<HashBucket>, ghost space: set<object>)
    ensures |buckets| == size && fresh(space) && BucketsIn(buckets, space)
    ensures forall b :: 0 <= b < size ==> buckets[b].view == []
  {
    buckets, space := [], {};
    while |buckets| < size
      invariant |buckets| <= size && fresh(space) && BucketsIn(buckets, space)
      invariant forall b :: 0 <= b < |buckets| ==> buckets[b].view == []
    {
      var bucket := new HashBucket();
      buckets, space := buckets + [bucket], space + bucket.Repr;
    }
  }

  class HashTable {
    const buckets: seq<HashBucket>
    ghost var Repr: set<object>

    /** The buckets share nothing. */
    ghost predicate Valid()
      reads this, Repr
    {
      this !in Repr && buckets != [] && BucketsIn(buckets, Repr)
    }

    constructor (size: nat)
      requires size > 0
      ensures Valid() && fresh(Repr) && View() == EmptyTable(size).table
    {
      var made;
      ghost var space;
      made, space := NewBuckets(size);
      buckets, Repr := made, space;
    }

    ghost function View(): (table: seq<seq<Item>>)
      reads buckets
      ensures |table| == |buckets|
    {
      seq(|buckets|, b requires 0 <= b < |buckets| reads buckets => buckets[b].view)
    }

    /** addPacket: the packet goes to the bucket of its hash code. */
    method AddPacket(packet: Packet)
      requires Valid()
      modifies this, Repr
      ensures Valid() && fresh(Repr - old(Repr))
      ensures var b := BucketOf(packet.tuple, |buckets|);
              View() == old(View())[b := AddTo(old(View())[b], packet)]
    {
      hide AddTo, HashCode, HashBucket.Valid;
      var hashCode := HashCode(packet.tuple);
      hashCode := hashCode % |buckets|;
      buckets[hashCode].AddPacket(packet);
      Repr := Repr + buckets[hashCode].Repr;
      forall c | 0 <= c < |buckets| && c != hashCode
        ensures buckets[c].Valid() && buckets[c].view == old(buckets[c].view) && buckets[c].Repr == old(buckets[c].Repr)
        ensures buckets[c].Repr !! buckets[hashCode].Repr
      {
        assert old(buckets[c].Repr !! buckets[hashCode].Repr);
      }
    }

    /** A scan of the table: the flows of every bucket that are due are exported. */
    method Scan(now: int, timeout: int) returns (exported: seq<Item>)
      requires Valid()
      modifies this, Repr
      ensures Valid() && Repr == old(Repr)
      ensures View() == Scanned(old(View()), |buckets|, now, timeout)
              && exported == ScannedOut(old(View()), |buckets|, now, timeout)
      ensures forall x :: x in exported ==> x.packets != [] && now - timeout > x.packets[|x.packets| - 1].seconds
      ensures forall b, x :: 0 <= b < |buckets| && x in View()[b] && x.packets != [] ==>
                x.packets[|x.packets| - 1].seconds >= now - timeout
    {
      hide HashBucket.Valid, Staying, Leaving;
      exported := [];
      ghost var table := View();
      var i := 0;
      while i < |buckets|
        invariant 0 <= i <= |buckets| && Valid() && Repr == old(Repr)
        invariant View() == Scanned(table, i, now, timeout) && exported == ScannedOut(table, i, now, timeout)
      {
        var out := ScanBucket(i, now, timeout);
        NotYetScanned(table, i, now, timeout);
        exported := exported + out;
        i := i + 1;
      }
      TableScanMeaning(table, now, timeout);
    }

    method ScanBucket(i: nat, now: int, timeout: int) returns (exported: seq<Item>)
      requires Valid() && i < |buckets|
      modifies buckets[i]
      ensures Valid() && Repr == old(Repr) && exported == Leaving(old(View())[i], now, timeout)
      ensures View() == old(View())[i := Staying(old(View())[i], now, timeout)]
    {
      hide HashBucket.Valid, Staying, Leaving;
      exported := buckets[i].Scan(now, timeout);
      forall c | 0 <= c < |buckets| && c != i
        ensures buckets[c].Valid() && buckets[c].view == old(buckets[c].view) && buckets[c].Repr == old(buckets[c].Repr)
      {
        assert old(buckets[c].Repr !! buckets[i].Repr);
      }
    }
  }

  /** What happens to a table. */
  datatype Event = Arrival(p: Packet) | Scanning(now: int, timeout: int)

  /** The packets among the events. */
  function Arrivals(events: seq<Event>): seq<Packet> {
    if events == [] then []
    else
      var last := events[|events| - 1];
      Arrivals(events[..|events| - 1]) + (if last.Arrival? then [last.p] else [])
  }

  /** Any run of arrivals and scans on a new table partitions the packets that have arrived. */
  method RunTable(size: nat, events: seq<Event>) returns (table: HashTable, exported: seq<Item>)
    requires size > 0
    ensures table.Valid() && Partition(State(table.View(), exported, Arrivals(events)))
  {
    hide HashTable.Valid, Partition, Scanned, ScannedOut;
    table := new HashTable(size);
    exported := [];
    EmptyPartition(size);
    var n := 0;
    while n < |events|
      invariant 0 <= n <= |events| && table.Valid() && fresh(table) && fresh(table.Repr)
      invariant Partition(State(table.View(), exported, Arrivals(events[..n])))
    {
      ghost var s := State(table.View(), exported, Arrivals(events[..n]));
      assert events[..n + 1][..n] == events[..n];
      match events[n] {
        case Arrival(p) =>
          ArriveKeeps(s, p);
          table.AddPacket(p);
          assert State(table.View(), exported, Arrivals(events[..n + 1])) == Do(s, Arrive(p));
        case Scanning(now, timeout) =>
          TableScanKeeps(s, |s.table|, now, timeout);
          var out := table.Scan(now, timeout);
          exported := exported + out;
          assert Arrivals(events[..n + 1]) == s.arrived;
      }
      n := n + 1;
    }
    assert events[..n] == events;
  }

  lemma EmptyPartition(size: nat)
    requires size > 0
    ensures Partition(EmptyTable(size))
  {
    hide HashCode;
  }
}
