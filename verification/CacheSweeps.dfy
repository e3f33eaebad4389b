/**
 What repeated pruning and the capacity limit do to the stored cache.
 */
module CacheSweeps {
  import opened Host
  import opened PruneRing
  import opened CacheModel
  import opened CacheProofs

  /** `n` prune calls in a row at one time, with nothing in between. */
  function PruneTimes(c: Cache, ns: Symbol, maxEntries: nat, now: nat, n: nat): Cache
    decreases n
  {
    if n == 0 then c else PruneTimes(Prune(c, ns, maxEntries, now), ns, maxEntries, now, n - 1)
  }

  lemma PruneActsOnRing(c: Cache, ns: Symbol, maxEntries: nat, now: nat)
    ensures RingOf(Prune(c, ns, maxEntries, now), ns) == Sweep(RingOf(c, ns), DeadKeys(c, ns, now), maxEntries)
  {
    hide Without, StopAt, Hits;
  }

  lemma {:induction false} HitsSame(keys: seq<Symbol>, a: set<Symbol>, b: set<Symbol>, start: nat, n: nat)
    requires |keys| > 0 && forall k :: k in keys ==> (k in a <==> k in b)
    ensures Hits(keys, a, start, n) == Hits(keys, b, start, n)
  {
    if n > 0 {
      HitsSame(keys, a, b, start, n - 1);
      assert At(keys, start, n - 1) in keys;
    }
  }

  lemma {:induction false} StopSame(keys: seq<Symbol>, a: set<Symbol>, b: set<Symbol>, start: nat, window: nat,
                                    limit: nat, i: nat)
    requires |keys| > 0 && i <= window && forall k :: k in keys ==> (k in a <==> k in b)
    ensures StopAt(keys, a, start, window, limit, i) == StopAt(keys, b, start, window, limit, i)
    decreases window - i
  {
    HitsSame(keys, a, b, start, i);
    if i < window {
      StopSame(keys, a, b, start, window, limit, i + 1);
    }
  }

  /** A sweep only asks about keys of its ring. */
  lemma SweepSame(r: Ring, a: set<Symbol>, b: set<Symbol>, maxEntries: nat)
    requires forall k :: k in r.keys ==> (k in a <==> k in b)
    ensures Sweep(r, a, maxEntries) == Sweep(r, b, maxEntries)
  {
    hide StopAt, Hits, Without;
    if r.keys != [] {
      StopSame(r.keys, a, b, Start(r), Window(|r.keys|, maxEntries), Limit(maxEntries), 0);
      HitsSame(r.keys, a, b, Start(r), Scanned(r, a, maxEntries));
    }
  }

  lemma {:induction false} SweepTimesSame(r: Ring, a: set<Symbol>, b: set<Symbol>, maxEntries: nat, n: nat)
    requires NoDup(r.keys) && forall k :: k in r.keys ==> (k in a <==> k in b)
    ensures SweepTimes(r, a, maxEntries, n) == SweepTimes(r, b, maxEntries, n)
    decreases n
  {
    hide Sweep, NoDup, Without, Removed;
    if n > 0 {
      SweepSame(r, a, b, maxEntries);
      SweepEffect(r, a, maxEntries);
      WithoutMembers(r.keys, ToSet(Removed(r, a, maxEntries)));
      SweepTimesSame(Sweep(r, a, maxEntries), a, b, maxEntries, n - 1);
    }
  }

  /** Pruning takes exactly the removed keys out of the dead ones and touches no surviving slot. */
  lemma DeadAfterPrune(c: Cache, ns: Symbol, maxEntries: nat, now: nat)
    requires IndexValid(c, ns)
    ensures var p, gone := Prune(c, ns, maxEntries, now), ToSet(Pruned(c, ns, maxEntries, now));
            && IndexValid(p, ns)
            && DeadKeys(p, ns, now) == DeadKeys(c, ns, now) - gone
  {
    hide Prune, Pruned, Without, NoDup;
    PruneEffect(c, ns, maxEntries, now);
    var gone := Pruned(c, ns, maxEntries, now);
    WithoutMembers(Keys(c, ns), ToSet(gone));
    SlotsOfMembers(ns, gone);
  }

  lemma {:induction false} PruneTimesActsOnRing(c: Cache, ns: Symbol, maxEntries: nat, now: nat, n: nat)
    requires IndexValid(c, ns)
    ensures var p := PruneTimes(c, ns, maxEntries, now, n);
            && RingOf(p, ns) == SweepTimes(RingOf(c, ns), DeadKeys(c, ns, now), maxEntries, n)
            && IndexValid(p, ns) && DeadKeys(p, ns, now) <= DeadKeys(c, ns, now)
    decreases n
  {
    hide Prune, Pruned, Sweep, IndexValid, SweepTimes;
    if n == 0 {
      SweepTimesNone(RingOf(c, ns), DeadKeys(c, ns, now), maxEntries);
    } else {
      var p, dead := Prune(c, ns, maxEntries, now), DeadKeys(c, ns, now);
      PruneActsOnRing(c, ns, maxEntries, now);
      DeadAfterPrune(c, ns, maxEntries, now);
      SweepTimesFirst(RingOf(c, ns), dead, maxEntries, n);
      PruneTimesActsOnRing(p, ns, maxEntries, now, n - 1);
      SameDead(c, p, ns, maxEntries, now, n - 1);
    }
  }

  lemma SweepTimesNone(r: Ring, dead: set<Symbol>, maxEntries: nat)
    ensures SweepTimes(r, dead, maxEntries, 0) == r
  {}

  lemma SameDead(c: Cache, p: Cache, ns: Symbol, maxEntries: nat, now: nat, n: nat)
    requires IndexValid(c, ns) && p == Prune(c, ns, maxEntries, now)
    ensures SweepTimes(RingOf(p, ns), DeadKeys(p, ns, now), maxEntries, n) ==
            SweepTimes(RingOf(p, ns), DeadKeys(c, ns, now), maxEntries, n)
  {
    hide Prune, Pruned, SweepTimes, NoDup, Without;
    DeadAfterPrune(c, ns, maxEntries, now);
    PruneEffect(c, ns, maxEntries, now);
    WithoutMembers(Keys(c, ns), ToSet(Pruned(c, ns, maxEntries, now)));
    SweepTimesSame(RingOf(p, ns), DeadKeys(p, ns, now), DeadKeys(c, ns, now), maxEntries, n);
  }

  /**
   Bounded sweeps at one time make progress and finish. Any calls whose windows cover the index remove
   a dead entry if there is one; one such round per dead key leaves exactly the live keys, in order.
   */
  lemma PruningClears(c: Cache, ns: Symbol, maxEntries: nat, now: nat, n: nat)
    requires IndexValid(c, ns) && maxEntries > 0
    ensures n >= CallsPerRound(|Keys(c, ns)|, maxEntries) && DeadKeys(c, ns, now) != {} ==>
              |Keys(PruneTimes(c, ns, maxEntries, now, n), ns)| < |Keys(c, ns)|
    ensures n >= |DeadKeys(c, ns, now)| * CallsPerRound(|Keys(c, ns)|, maxEntries) ==>
              && Keys(PruneTimes(c, ns, maxEntries, now, n), ns) == Without(Keys(c, ns), DeadKeys(c, ns, now))
              && DeadKeys(PruneTimes(c, ns, maxEntries, now, n), ns, now) == {}
  {
    hide PruneTimes, SweepTimes, CallsPerRound, Without, NoDup, Window;
    var r, dead := RingOf(c, ns), DeadKeys(c, ns, now);
    var p := PruneTimes(c, ns, maxEntries, now, n);
    PruneTimesActsOnRing(c, ns, maxEntries, now, n);
    assert dead * ToSet(r.keys) == dead;
    var m := CallsPerRound(|r.keys|, maxEntries);
    if n >= m && dead != {} {
      Arith.MulMono(Window(|r.keys|, maxEntries), m, n);
      SweepsProgress(r, dead, maxEntries, n);
    }
    if n >= |dead| * m {
      SweepsClear(r, dead, maxEntries, n);
      WithoutMembers(r.keys, dead);
      assert forall k :: k in DeadKeys(p, ns, now) ==> k in dead;
    }
  }

  /** `clear_stale_entries` returning fewer than its batch size leaves no dead entry, and then only then. */
  lemma ClearStaleIsExhaustive(c: Cache, ns: Symbol, now: nat)
    requires IndexValid(c, ns)
    ensures |Pruned(c, ns, MAX_PRUNE_BATCH, now)| == Min(|DeadKeys(c, ns, now)|, MAX_PRUNE_BATCH)
    ensures |Pruned(c, ns, MAX_PRUNE_BATCH, now)| < MAX_PRUNE_BATCH ==>
              DeadKeys(Prune(c, ns, MAX_PRUNE_BATCH, now), ns, now) == {}
  {
    hide Prune, Removed, Without, NoDup;
    var dead := DeadKeys(c, ns, now);
    FullBatchIsExhaustive(RingOf(c, ns), dead);
    assert dead * ToSet(Keys(c, ns)) == dead;
    PruneActsOnRing(c, ns, MAX_PRUNE_BATCH, now);
    DeadAfterPrune(c, ns, MAX_PRUNE_BATCH, now);
    WithoutMembers(Keys(c, ns), dead);
    assert forall k :: k in DeadKeys(Prune(c, ns, MAX_PRUNE_BATCH, now), ns, now) ==> k in dead;
  }

  // ----- when a namespace is full ---------------------------------------------------------

  /** An automatic prune finds nothing exactly when the next 20 keys from the cursor are all live. */
  lemma AutoPruneFindsNothing(r: Ring, dead: set<Symbol>)
    requires NoDup(r.keys) && r.keys != []
    ensures Removed(r, dead, AUTO_PRUNE_BATCH) == [] <==>
            forall d: nat :: d < Min(|r.keys|, 20) ==> At(r.keys, Start(r), d) !in dead
  {
    hide NoDup;
    if Removed(r, dead, AUTO_PRUNE_BATCH) == [] {
      forall d: nat | d < Min(|r.keys|, 20) ensures At(r.keys, Start(r), d) !in dead {
        if At(r.keys, Start(r), d) in dead {
          WindowIsSearched(r, dead, AUTO_PRUNE_BATCH, d);
        }
      }
    } else {
      var stop := Scanned(r, dead, AUTO_PRUNE_BATCH);
      StopAtBounds(r.keys, dead, Start(r), Window(|r.keys|, AUTO_PRUNE_BATCH), Limit(AUTO_PRUNE_BATCH), 0);
      HitsSound(r.keys, dead, Start(r), stop);
      var k := Hits(r.keys, dead, Start(r), stop)[0];
      assert k in Hits(r.keys, dead, Start(r), stop);
      var j: nat :| j < stop && k == At(r.keys, Start(r), j);
    }
  }

  /** A write is refused as full exactly when its key is new, 100 keys are indexed and none of the next 20 is dead. */
  lemma FullExactly(c: Cache, ns: Symbol, key: Symbol, ttl: nat, now: nat)
    requires IndexValid(c, ns)
    ensures WriteOutcome(c, ns, key, ttl, now) == Err(NamespaceFull) <==>
            && ttl > 0 && key !in Keys(c, ns) && |Keys(c, ns)| == MAX_KEYS_PER_NAMESPACE
            && forall d: nat :: d < 20 ==> At(Keys(c, ns), Start(RingOf(c, ns)), d) !in DeadKeys(c, ns, now)
  {
    hide Prune, Removed, Without, NoDup;
    PruneEffect(c, ns, AUTO_PRUNE_BATCH, now);
    WithoutMembers(Keys(c, ns), ToSet(Pruned(c, ns, AUTO_PRUNE_BATCH, now)));
    if |Keys(c, ns)| == MAX_KEYS_PER_NAMESPACE {
      AutoPruneFindsNothing(RingOf(c, ns), DeadKeys(c, ns, now));
    }
  }

  /** Among the next 20 keys from the cursor some is dead. */
  ghost predicate DeadAhead(c: Cache, ns: Symbol, now: nat) {
    Keys(c, ns) != [] &&
    exists d: nat :: d < 20 && Serve(c, Slot(ns, At(Keys(c, ns), Start(RingOf(c, ns)), d)), now) == None
  }

  /**
   Exactly when a write is accepted: its TTL is positive, and its key is indexed, or there is room, or the
   automatic prune makes room. Only a zero TTL is invalid.
   */
  lemma AcceptedExactly(c: Cache, ns: Symbol, key: Symbol, ttl: nat, now: nat)
    requires IndexValid(c, ns)
    ensures WriteOutcome(c, ns, key, ttl, now).Ok? <==>
            ttl > 0 && (key in Keys(c, ns) || |Keys(c, ns)| < 100 || DeadAhead(c, ns, now))
    ensures WriteOutcome(c, ns, key, ttl, now) == Err(InvalidTtl) <==> ttl == 0
    ensures WriteOutcome(c, ns, key, ttl, now) == Err(NamespaceFull) <==>
            ttl > 0 && key !in Keys(c, ns) && |Keys(c, ns)| == 100 && !DeadAhead(c, ns, now)
  {
    hide WriteOutcome, NoDup, Serve, DeadKeys;
    OutcomeKinds(c, ns, key, ttl, now);
    FullExactly(c, ns, key, ttl, now);
    if Keys(c, ns) != [] {
      forall d: nat
        ensures At(Keys(c, ns), Start(RingOf(c, ns)), d) in DeadKeys(c, ns, now) <==>
                Serve(c, Slot(ns, At(Keys(c, ns), Start(RingOf(c, ns)), d)), now) == None
      {
        DeadExactly(c, ns, At(Keys(c, ns), Start(RingOf(c, ns)), d), now);
      }
    }
  }

  lemma OutcomeKinds(c: Cache, ns: Symbol, key: Symbol, ttl: nat, now: nat)
    ensures var out := WriteOutcome(c, ns, key, ttl, now);
            (out.Ok? || out == Err(NamespaceFull) || out == Err(InvalidTtl)) && (out == Err(InvalidTtl) <==> ttl == 0)
  {
    hide Prune;
  }

  lemma WrittenIsStored(c: Cache, ns: Symbol, key: Symbol, value: Bytes, ttl: nat, now: nat)
    requires WriteOutcome(c, ns, key, ttl, now).Ok?
    ensures var s, w := Slot(ns, key), Write(c, ns, key, value, ttl, now);
            s in w.entries && !Flagged(w, s) && w.entries[s] == CachedData(value, now, ttl, true)
  {
    hide Prune;
  }

  /**
   After every run, a write with a positive TTL to an indexed key, or to any key while there is or can be
   made room, is served back from then on until its TTL has passed, and not after it.
   */
  lemma WrittenIsServed(calls: seq<Call>, write: Call, t: nat)
    requires Monotone(calls + [write]) && write.op.WriteOp? && write.op.ttl > 0 && write.now <= t
    requires var c := Run(calls).0;
             || write.op.key in Keys(c, write.op.ns) || |Keys(c, write.op.ns)| < 100
             || DeadAhead(c, write.op.ns, write.now)
    ensures Serve(Run(calls + [write]).0, Slot(write.op.ns, write.op.key), t) ==
            if t - write.now <= write.op.ttl then Some(write.op.value) else None
  {
    hide WriteOutcome, Write, DeadAhead, Keys;
    var c := Run(calls).0;
    assert (calls + [write])[..|calls|] == calls;
    assert Monotone(calls) by {
      assert forall i :: 0 <= i < |calls| ==> calls[i] == (calls + [write])[i];
    }
    RunAgrees(calls);
    AcceptedExactly(c, write.op.ns, write.op.key, write.op.ttl, write.now);
    WrittenIsStored(c, write.op.ns, write.op.key, write.op.value, write.op.ttl, write.now);
  }

  // ----- a run that ends with a full namespace and a dead key -------------------------------

  const NS := Symbol("prices")

  function NthKey(i: nat): Symbol {
    Symbol(seq(i, _ => 'k'))
  }

  function FirstKeys(n: nat): seq<Symbol> {
    seq(n, i requires 0 <= i => NthKey(i))
  }

  lemma NthKeysDiffer(n: nat)
    ensures |FirstKeys(n)| == n && NoDup(FirstKeys(n)) && NthKey(n) !in FirstKeys(n)
    ensures forall i: nat, j: nat :: NthKey(i) == NthKey(j) <==> i == j
  {
    assert forall i: nat :: |NthKey(i).text| == i;
  }

  /** The i-th write of the run; one key gets a short TTL. */
  function FillCall(short: nat, i: nat): Call {
    Call(WriteOp(NS, NthKey(i), [], if i == short then 1 else 9), 0, true)
  }

  function Fill(short: nat, n: nat): seq<Call> {
    seq(n, i requires 0 <= i => FillCall(short, i))
  }

  /** Where the automatic prunes of the first n writes leave the cursor; each one finds nothing. */
  function FillCursor(n: nat): nat {
    if n <= 1 then 0 else Wrap(Wrap(FillCursor(n - 1), n - 1) + Window(n - 1, AUTO_PRUNE_BATCH), n - 1)
  }

  ghost predicate Filled(c: Cache, short: nat, n: nat) {
    && RingOf(c, NS) == Ring(FirstKeys(n), FillCursor(n))
    && forall i: nat :: i < n ==> Holds(c, short, i)
  }

  predicate Holds(c: Cache, short: nat, i: nat) {
    var s := Slot(NS, NthKey(i));
    s in c.entries && !Flagged(c, s) && c.entries[s] == CachedData([], 0, if i == short then 1 else 9, true)
  }

  /** An automatic prune of a namespace without dead keys only moves the cursor. */
  lemma IdlePrune(c: Cache, ns: Symbol, now: nat)
    requires NoDup(Keys(c, ns)) && Keys(c, ns) != [] && DeadKeys(c, ns, now) == {}
    ensures var r := RingOf(c, ns);
            Prune(c, ns, AUTO_PRUNE_BATCH, now) == c.(
              index := c.index[ns := r.keys],
              cursor := c.cursor[ns := Wrap(Start(r) + Window(|r.keys|, AUTO_PRUNE_BATCH), |r.keys|)])
  {
    hide NoDup, Removed, Sweep, Wrap, Window, DeadKeys;
    IdleSweep(RingOf(c, ns), AUTO_PRUNE_BATCH);
    assert SlotsOf(ns, []) == {};
  }

  lemma IdleSweep(r: Ring, maxEntries: nat)
    requires NoDup(r.keys) && r.keys != [] && maxEntries > 0
    ensures Removed(r, {}, maxEntries) == []
    ensures Sweep(r, {}, maxEntries) == Ring(r.keys, Wrap(Start(r) + Window(|r.keys|, maxEntries), |r.keys|))
  {
    hide NoDup, Removed, Sweep;
    SweepEffect(r, {}, maxEntries);
    assert Removed(r, {}, maxEntries) == [];
    IdleSweepAdvances(r, {}, maxEntries);
  }

  lemma NothingDeadYet(c: Cache, short: nat, n: nat)
    requires Filled(c, short, n)
    ensures DeadKeys(c, NS, 0) == {}
  {
    hide Holds;
    forall k | k in Keys(c, NS) ensures !Prunable(c, Slot(NS, k), 0) {
      var i :| 0 <= i < n && k == FirstKeys(n)[i];
      assert Holds(c, short, i) && k == NthKey(i);
      NotYetDead(c, short, i);
    }
  }

  lemma NotYetDead(c: Cache, short: nat, i: nat)
    requires Holds(c, short, i)
    ensures !Prunable(c, Slot(NS, NthKey(i)), 0)
    ensures Prunable(c, Slot(NS, NthKey(i)), 5) <==> i == short
  {}

  lemma FillStep(c: Cache, short: nat, n: nat)
    requires Filled(c, short, n) && n < MAX_KEYS_PER_NAMESPACE
    ensures Filled(Step(c, FillCall(short, n)), short, n + 1)
  {
    hide NoDup, Prune, Window, FillCursor, NthKey, Holds, DeadKeys, Step;
    NthKeysDiffer(n);
    NothingDeadYet(c, short, n);
    if n > 0 {
      IdlePrune(c, NS, 0);
    } else {
      NothingToPrune(c, NS);
    }
    NextCursor(n);
    var p := Prune(c, NS, AUTO_PRUNE_BATCH, 0);
    assert FirstKeys(n + 1) == FirstKeys(n) + [NthKey(n)];
    FillWrites(c, p, short, n);
    forall i: nat | i < n ensures Holds(Step(c, FillCall(short, n)), short, i) {
      assert Holds(c, short, i);
      StillHolds(c, Step(c, FillCall(short, n)), short, n, i, CachedData([], 0, if n == short then 1 else 9, true));
    }
  }

  lemma FillWrites(c: Cache, p: Cache, short: nat, n: nat)
    requires p == Prune(c, NS, AUTO_PRUNE_BATCH, 0) && Keys(p, NS) == FirstKeys(n) && n < MAX_KEYS_PER_NAMESPACE
    ensures var next, s := Step(c, FillCall(short, n)), Slot(NS, NthKey(n));
            && next.entries == p.entries[s := CachedData([], 0, if n == short then 1 else 9, true)]
            && next.stale == p.stale[s := false] && next.cursor == p.cursor
            && Keys(next, NS) == FirstKeys(n) + [NthKey(n)] && Holds(next, short, n)
  {
    hide Prune, NoDup, NthKey, FirstKeys, WriteOutcome;
    NthKeysDiffer(n);
    RoomLeft(c, NthKey(n), if n == short then 1 else 9);
  }

  lemma RoomLeft(c: Cache, key: Symbol, ttl: nat)
    requires var keys := Keys(Prune(c, NS, AUTO_PRUNE_BATCH, 0), NS);
             ttl > 0 && key !in keys && |keys| < MAX_KEYS_PER_NAMESPACE
    ensures WriteOutcome(c, NS, key, ttl, 0) == Ok(())
  {
    hide Prune;
  }

  lemma StillHolds(c: Cache, next: Cache, short: nat, n: nat, i: nat, d: CachedData)
    requires Holds(c, short, i) && i < n
    requires var s := Slot(NS, NthKey(n)); next.entries == c.entries[s := d] && next.stale == c.stale[s := false]
    ensures Holds(next, short, i)
  {
    hide NthKey, NoDup;
    NthKeysDiffer(n);
  }

  lemma NothingToPrune(c: Cache, ns: Symbol)
    requires Keys(c, ns) == []
    ensures Prune(c, ns, AUTO_PRUNE_BATCH, 0) == c
  {}

  lemma NextCursor(n: nat)
    ensures FillCursor(n + 1) ==
            if n == 0 then 0 else Wrap(Wrap(FillCursor(n), n) + Window(n, AUTO_PRUNE_BATCH), n)
    ensures FillCursor(0) == 0
  {}

  lemma {:induction false} FillRuns(short: nat, n: nat)
    requires n <= MAX_KEYS_PER_NAMESPACE
    ensures Filled(Run(Fill(short, n)).0, short, n)
  {
    hide Step, NthKey;
    if n > 0 {
      assert Fill(short, n)[..n - 1] == Fill(short, n - 1);
      FillRuns(short, n - 1);
      FillStep(Run(Fill(short, n - 1)).0, short, n - 1);
    }
  }

  /**
   Although the documentation speaks of 100 live keys, a write can be refused with an expired key still
   indexed: in this run it lies 50 steps ahead of the cursor.
   */
  lemma FullWithDeadKey() returns (calls: seq<Call>, key: Symbol, now: nat)
    ensures Monotone(calls) && LastTime(calls) <= now
    ensures DeadKeys(Run(calls).0, NS, now) != {}
    ensures WriteOutcome(Run(calls).0, NS, key, 1, now) == Err(NamespaceFull)
  {
    hide Run, WriteOutcome, NoDup, NthKey, FillCursor, DeadKeys;
    var start := Wrap(FillCursor(100), 100);
    var short := Wrap(start + 50, 100);
    calls, key, now := Fill(short, 100), NthKey(100), 5;
    FillRuns(short, 100);
    RunAgrees(calls);
    NthKeysDiffer(100);
    ShortIsDead(Run(calls).0, short);
    forall d: nat | d < 20 ensures At(FirstKeys(100), start, d) !in DeadKeys(Run(calls).0, NS, now) {
      RingDistinct(FirstKeys(100), start, d, 50);
    }
    FullExactly(Run(calls).0, NS, key, 1, now);
  }

  lemma ShortIsDead(c: Cache, short: nat)
    requires Filled(c, short, 100) && short < 100
    ensures DeadKeys(c, NS, 5) == {NthKey(short)}
  {
    hide Holds, NthKey;
    assert Holds(c, short, short) && FirstKeys(100)[short] == NthKey(short);
    NotYetDead(c, short, short);
    forall k | k in Keys(c, NS) ensures Prunable(c, Slot(NS, k), 5) <==> k == NthKey(short) {
      var i :| 0 <= i < 100 && k == FirstKeys(100)[i];
      assert Holds(c, short, i);
      NotYetDead(c, short, i);
      NthKeysDiffer(100);
    }
  }
}
