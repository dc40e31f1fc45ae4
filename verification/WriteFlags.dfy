/** The protocol by which the index threads are told to write their indexes, under every interleaving. */
module WriteFlags {
  import opened FlowLog
  import opened Words

  /** Where an index thread is in its loop. */
  datatype Pc = Building | Checking | Writing | Resetting

  /** An index and its thread. added is what has been given to the index since its file was last swapped; dumped is what
      the swaps wrote, and lost what they threw away with the staging buffer. */
  datatype Thread = Thread(pc: Pc, trie: Log, staged: Log, added: Log, dumped: Log, lost: Log)

  /** flag is write_index_flag, mask is indexFlag: bit k belongs to index k. */
  datatype State = State(flag: nat, mask: nat, threads: seq<Thread>)

  datatype Action =
    | SetFlag
    | Add(k: nat, e: Entry)
    | Build(k: nat)
    | Check(k: nat)
    | Write(k: nat)
    | Reset(k: nat)

  function Start(mask: nat): State {
    State(0, mask, seq(6, _ => Thread(Building, [], [], [], [], [])))
  }

  /** Every action is atomic: the accessors of the flag and the staging buffer hold their locks. */
  predicate Enabled(s: State, a: Action) {
    |s.threads| == 6 &&
    match a
    case SetFlag => true
    case Add(k, _) => k < 6 && Bit(s.mask, k)
    case Build(k) => k < 6 && Bit(s.mask, k) && s.threads[k].pc == Building
    case Check(k) => k < 6 && Bit(s.mask, k) && s.threads[k].pc == Checking
    case Write(k) => k < 6 && Bit(s.mask, k) && s.threads[k].pc == Writing
    case Reset(k) => k < 6 && Bit(s.mask, k) && s.threads[k].pc == Resetting
  }

  function Next(s: State, a: Action): State
    requires Enabled(s, a)
  {
    match a
    case SetFlag => s.(flag := s.mask)
    case Add(k, e) =>
      var t := s.threads[k];
      s.(threads := s.threads[k := t.(staged := t.staged + [e], added := t.added + [e])])
    case Build(k) =>
      var t := s.threads[k];
      s.(threads := s.threads[k := t.(pc := Checking, trie := t.trie + t.staged, staged := [])])
    case Check(k) =>
      s.(threads := s.threads[k := s.threads[k].(pc := if And(s.flag, Pow2(k)) != 0 then Writing else Building)])
    case Write(k) =>
      var t := s.threads[k];
      s.(threads := s.threads[k := Thread(Resetting, [], [], [], t.dumped + t.trie, t.lost + t.staged)])
    case Reset(k) =>
      s.(flag := Xor(s.flag, Pow2(k)), threads := s.threads[k := s.threads[k].(pc := Building)])
  }

  predicate Runs(s: State, run: seq<Action>)
    decreases |run|
  {
    run == [] || (Enabled(s, run[0]) && Runs(Next(s, run[0]), run[1..]))
  }

  function After(s: State, run: seq<Action>): State
    requires Runs(s, run)
    decreases |run|
  {
    if run == [] then s else After(Next(s, run[0]), run[1..])
  }

  /** A thread that has seen its bit has not lost it; nothing added has been lost or reordered outside a swap; only bits
      of existing indexes are ever set. */
  ghost predicate Safe(s: State) {
    && |s.threads| == 6
    && (forall k :: 0 <= k < 6 && s.threads[k].pc in {Writing, Resetting} ==> Bit(s.flag, k))
    && (forall k :: 0 <= k < 6 ==> s.threads[k].trie + s.threads[k].staged == s.threads[k].added)
    && (forall i: nat :: Bit(s.flag, i) ==> Bit(s.mask, i))
    && (forall k :: 0 <= k < 6 && s.threads[k].pc in {Writing, Resetting} ==> Bit(s.mask, k))
  }

  lemma {:induction false} AndMask(w: nat, k: nat)
    ensures And(w, Pow2(k)) != 0 <==> Bit(w, k)
  {
    if k > 0 {
      AndMask(w / 2, k - 1);
      assert Pow2(k) / 2 == Pow2(k - 1) && Pow2(k) % 2 == 0;
    } else {
      AndZero(w / 2);
    }
  }

  lemma {:induction false} AndZero(w: nat)
    ensures And(w, 0) == 0
  {
    if w > 0 { AndZero(w / 2); }
  }

  lemma XorFlips(w: nat, k: nat)
    ensures forall i: nat :: Bit(Xor(w, Pow2(k)), i) <==> (Bit(w, i) != (i == k))
  {
    forall i: nat ensures Bit(Xor(w, Pow2(k)), i) <==> (Bit(w, i) != (i == k)) {
      BitOfXor(w, Pow2(k), i);
      BitOfPow2(k, i);
    }
  }

  lemma StartSafe(mask: nat)
    ensures Safe(Start(mask))
  {
    forall i: nat ensures !Bit(0, i) { ZeroHasNoBits(i); }
  }

  lemma StepSafe(s: State, a: Action)
    requires Safe(s) && Enabled(s, a)
    ensures Safe(Next(s, a))
  {
    hide Bit, And, Xor, Pow2;
    match a {
      case SetFlag =>
      case Add(k, e) =>
      case Build(k) =>
      case Check(k) => AndMask(s.flag, k);
      case Write(k) =>
      case Reset(k) => XorFlips(s.flag, k);
    }
  }

  lemma {:induction false} RunSafe(s: State, run: seq<Action>)
    requires Safe(s) && Runs(s, run)
    ensures Safe(After(s, run))
    decreases |run|
  {
    if run != [] {
      StepSafe(s, run[0]);
      RunSafe(Next(s, run[0]), run[1..]);
    }
  }

  /** In every reachable state the reset of a thread finds its bit set, clears it, and touches no other bit. */
  lemma ResetClears(mask: nat, run: seq<Action>, k: nat)
    requires Runs(Start(mask), run) && Enabled(After(Start(mask), run), Reset(k))
    ensures var s := After(Start(mask), run);
            Bit(s.flag, k) && forall i: nat :: Bit(Next(s, Reset(k)).flag, i) <==> Bit(s.flag, i) && i != k
  {
    hide Bit, Xor, Pow2;
    StartSafe(mask);
    RunSafe(Start(mask), run);
    XorFlips(After(Start(mask), run).flag, k);
  }

  /** A bit is cleared by its own thread's reset only, which comes after that thread's write. */
  lemma OnlyResetClears(s: State, a: Action, k: nat)
    requires Safe(s) && Enabled(s, a) && Bit(s.flag, k) && !Bit(Next(s, a).flag, k)
    ensures a == Reset(k) && s.threads[k].pc == Resetting
  {
    hide Bit, Xor, Pow2;
    if a.Reset? { XorFlips(s.flag, a.k); }
  }

  /** Between swaps, what the trie holds followed by what is staged is what was added, in order. A swap writes what the
      trie holds and loses what was staged since the thread's last buildIndex. */
  lemma SwapLoses(mask: nat, run: seq<Action>, k: nat)
    requires Runs(Start(mask), run) && Enabled(After(Start(mask), run), Write(k))
    ensures var t := After(Start(mask), run).threads[k];
            var t' := Next(After(Start(mask), run), Write(k)).threads[k];
            && t.trie + t.staged == t.added
            && t'.dumped + t.staged == t.dumped + t.added && t'.lost == t.lost + t.staged && t'.added == []
  {
    StartSafe(mask);
    RunSafe(Start(mask), run);
    var t := After(Start(mask), run).threads[k];
    assert t.dumped + t.trie + t.staged == t.dumped + (t.trie + t.staged);
  }

  /** A thread that has not yet written for the request keeps its bit until it does. */
  ghost predicate Owed(s: State, k: nat) {
    |s.threads| == 6 && k < 6 && Bit(s.flag, k) && s.threads[k].pc != Resetting
  }

  lemma StepOwed(s: State, a: Action, k: nat)
    requires Owed(s, k) && Bit(s.mask, k) && Enabled(s, a) && a != Write(k)
    ensures Owed(Next(s, a), k)
  {
    hide Bit, Xor, Pow2;
    if a.Reset? { XorFlips(s.flag, a.k); }
  }

  lemma {:induction false} RunOwed(s: State, run: seq<Action>, k: nat)
    requires Owed(s, k) && Bit(s.mask, k) && Runs(s, run) && Write(k) !in run
    ensures Bit(After(s, run).flag, k)
    decreases |run|
  {
    if run != [] {
      StepOwed(s, run[0], k);
      MaskStays(s, run[0]);
      RunOwed(Next(s, run[0]), run[1..], k);
    }
  }

  lemma MaskStays(s: State, a: Action)
    requires Enabled(s, a)
    ensures Next(s, a).mask == s.mask
  {}

  /** The request made in s cannot be cleared for index k without a write after it. */
  ghost predicate Honoured(s: State, k: nat)
    requires Enabled(s, SetFlag)
  {
    forall run :: Runs(Next(s, SetFlag), run) && !Bit(After(Next(s, SetFlag), run).flag, k) ==> Write(k) in run
  }

  /** A request is honoured by an index's thread exactly if the thread does not stand between its write and its
      reset. */
  lemma RequestHonoured(s: State, k: nat)
    requires Safe(s) && k < 6 && Bit(s.mask, k)
    ensures Honoured(s, k) <==> s.threads[k].pc != Resetting
  {
    hide Bit, Xor, Pow2;
    var s' := Next(s, SetFlag);
    if s.threads[k].pc != Resetting {
      forall run | Runs(s', run) && !Bit(After(s', run).flag, k) ensures Write(k) in run {
        if Write(k) !in run { RunOwed(s', run, k); }
      }
    } else {
      var run := [Reset(k)];
      XorFlips(s'.flag, k);
      assert run[1..] == [];
      assert After(s', run) == Next(s', Reset(k));
    }
  }

  // ---- what a swap writes and loses, in terms of the actions before it ----

  /** The entries given to index k behind the last occurrence of an action. */
  function AddedBehind(run: seq<Action>, k: nat, mark: Action): Log {
    if run == [] then []
    else
      var init, last := run[..|run| - 1], run[|run| - 1];
      if last == mark then []
      else AddedBehind(init, k, mark) + (if last.Add? && last.k == k then [last.e] else [])
  }

  lemma {:induction false} RunSplits(s: State, run: seq<Action>)
    requires Runs(s, run) && run != []
    ensures Runs(s, run[..|run| - 1]) && Enabled(After(s, run[..|run| - 1]), run[|run| - 1])
    ensures After(s, run) == Next(After(s, run[..|run| - 1]), run[|run| - 1])
    decreases |run|
  {
    var init := run[..|run| - 1];
    if |run| > 1 {
      RunSplits(Next(s, run[0]), run[1..]);
      assert run[1..][..|run| - 2] == init[1..];
      assert init[0] == run[0];
    } else {
      assert init == [] && run[1..] == [];
    }
  }

  /** The state of an index's thread after a run: what has been added since the last swap, and, once drained for the
      next write, what has been staged since. */
  lemma {:induction false} StagedAre(mask: nat, run: seq<Action>, k: nat)
    requires Runs(Start(mask), run) && k < 6
    ensures var s := After(Start(mask), run);
            && |s.threads| == 6 && s.threads[k].added == AddedBehind(run, k, Write(k))
            && (s.threads[k].pc in {Checking, Writing} ==> s.threads[k].staged == AddedBehind(run, k, Build(k)))
    decreases |run|
  {
    hide Words.And, Xor, Pow2, Bit;
    if run != [] {
      RunSplits(Start(mask), run);
      StagedAre(mask, run[..|run| - 1], k);
    }
  }

  /** A swap writes all that has been added since the swap before, but for the entries behind the last drain, which it
      loses. */
  lemma SwapWrites(mask: nat, run: seq<Action>, k: nat)
    requires Runs(Start(mask), run) && Enabled(After(Start(mask), run), Write(k))
    ensures var t, t' := After(Start(mask), run).threads[k], Next(After(Start(mask), run), Write(k)).threads[k];
            && t'.lost == t.lost + AddedBehind(run, k, Build(k))
            && t'.dumped + AddedBehind(run, k, Build(k)) == t.dumped + AddedBehind(run, k, Write(k))
            && (AddedBehind(run, k, Build(k)) == [] ==>
                  t'.lost == t.lost && t'.dumped == t.dumped + AddedBehind(run, k, Write(k)))
  {
    hide Words.And, Xor, Pow2, Bit, AddedBehind;
    StagedAre(mask, run, k);
    SwapLoses(mask, run, k);
  }

  // ---- a request that is seen is carried out ----

  /** The actions of an index's thread. */
  predicate Steps(a: Action, k: nat) {
    a == Build(k) || a == Check(k) || a == Write(k) || a == Reset(k)
  }

  /** A thread that writes next, or drains next, does nothing before. */
  lemma {:induction false} NextIs(s: State, run: seq<Action>, k: nat, next: Action)
    requires Runs(s, run) && |s.threads| == 6 && k < 6 && next !in run
    requires (next == Write(k) && s.threads[k].pc == Writing) || (next == Build(k) && s.threads[k].pc == Building)
    ensures forall a :: a in run ==> !Steps(a, k)
    decreases |run|
  {
    hide Words.And, Xor, Pow2, Bit;
    if run != [] {
      assert run == [run[0]] + run[1..];
      NextIs(Next(s, run[0]), run[1..], k, next);
    }
  }

  /** A thread that checks its bit goes on to write exactly if the bit is set: then its next step, in every run, is the
      write, and otherwise the next drain. */
  lemma CheckDecides(s: State, run: seq<Action>, k: nat)
    requires |s.threads| == 6 && k < 6 && Bit(s.mask, k) && s.threads[k].pc == Checking
    requires Runs(Next(s, Check(k)), run)
    ensures Enabled(Next(s, Check(k)), Write(k)) <==> Bit(s.flag, k)
    ensures Bit(s.flag, k) && Write(k) !in run ==> forall a :: a in run ==> !Steps(a, k)
    ensures !Bit(s.flag, k) && Build(k) !in run ==> forall a :: a in run ==> !Steps(a, k)
  {
    hide Bit, Words.And, Pow2;
    AndMask(s.flag, k);
    if Bit(s.flag, k) {
      if Write(k) !in run { NextIs(Next(s, Check(k)), run, k, Write(k)); }
    } else if Build(k) !in run {
      NextIs(Next(s, Check(k)), run, k, Build(k));
    }
  }
}
