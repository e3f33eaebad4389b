/**
 The TTL cache against a plain cache that never prunes, over every run.
 */
module CacheProofs {
  import opened Host
  import opened PruneRing
  import opened CacheModel

  // ----- the storage invariant ----------------------------------------------------

  ghost predicate IndexValid(c: Cache, ns: Symbol) {
    NoDup(Keys(c, ns)) && |Keys(c, ns)| <= MAX_KEYS_PER_NAMESPACE &&
    forall k :: k in Keys(c, ns) <==> Slot(ns, k) in c.entries
  }

  /** The index of every namespace is duplicate-free, bounded and exactly the set of stored keys. */
  ghost predicate Valid(c: Cache) {
    forall ns :: IndexValid(c, ns)
  }

  lemma SlotsOfMembers(ns: Symbol, keys: seq<Symbol>)
    ensures forall m, k :: Slot(m, k) in SlotsOf(ns, keys) <==> m == ns && k in keys
  {}

  /** Everything one prune call does to its namespace. */
  lemma PruneEffect(c: Cache, ns: Symbol, maxEntries: nat, now: nat)
    requires NoDup(Keys(c, ns))
    ensures var p, gone := Prune(c, ns, maxEntries, now), Pruned(c, ns, maxEntries, now);
            && |gone| <= Limit(maxEntries) && ToSet(gone) <= DeadKeys(c, ns, now)
            && p.entries == c.entries - SlotsOf(ns, gone) && p.stale == c.stale - SlotsOf(ns, gone)
            && Keys(p, ns) == Without(Keys(c, ns), ToSet(gone)) && NoDup(Keys(p, ns))
            && |Keys(p, ns)| == |Keys(c, ns)| - |gone|
            && (forall m :: m != ns ==> Keys(p, m) == Keys(c, m))
  {
    hide Sweep, Removed, NoDup, Without;
    SweepEffect(RingOf(c, ns), DeadKeys(c, ns, now), maxEntries);
    var gone := Pruned(c, ns, maxEntries, now);
    if Limit(maxEntries) == 0 || Keys(c, ns) == [] {
      NothingToSweep(RingOf(c, ns), DeadKeys(c, ns, now), maxEntries);
      assert SlotsOf(ns, gone) == {};
    }
  }

  lemma NothingToSweep(r: Ring, dead: set<Symbol>, maxEntries: nat)
    requires Limit(maxEntries) == 0 || r.keys == []
    ensures Removed(r, dead, maxEntries) == [] && Sweep(r, dead, maxEntries) == r
  {}

  /** A prune changes nothing any reader is served, now or later. */
  lemma PruneInvisible(c: Cache, ns: Symbol, maxEntries: nat, now: nat, s: Slot, t: nat)
    requires NoDup(Keys(c, ns)) && now <= t
    ensures Serve(Prune(c, ns, maxEntries, now), s, t) == Serve(c, s, t)
  {
    hide Prune, Pruned, Without, NoDup;
    PruneEffect(c, ns, maxEntries, now);
    SlotsOfMembers(ns, Pruned(c, ns, maxEntries, now));
    if s in SlotsOf(ns, Pruned(c, ns, maxEntries, now)) {
      assert s.key in ToSet(Pruned(c, ns, maxEntries, now));
    }
  }

  lemma PruneKeepsValid(c: Cache, ns: Symbol, maxEntries: nat, now: nat)
    requires Valid(c)
    ensures Valid(Prune(c, ns, maxEntries, now))
  {
    hide Prune, Pruned, Without, NoDup;
    assert IndexValid(c, ns);
    PruneEffect(c, ns, maxEntries, now);
    var p, gone := Prune(c, ns, maxEntries, now), Pruned(c, ns, maxEntries, now);
    WithoutMembers(Keys(c, ns), ToSet(gone));
    SlotsOfMembers(ns, gone);
    forall m ensures IndexValid(p, m) {
      assert IndexValid(c, m);
    }
  }

  lemma WriteKeepsValid(c: Cache, ns: Symbol, key: Symbol, value: Bytes, ttl: nat, now: nat)
    requires Valid(c)
    ensures Valid(Write(c, ns, key, value, ttl, now))
  {
    hide Prune;
    var p, w := Prune(c, ns, AUTO_PRUNE_BATCH, now), Write(c, ns, key, value, ttl, now);
    PruneKeepsValid(c, ns, AUTO_PRUNE_BATCH, now);
    forall m ensures IndexValid(w, m) {
      assert IndexValid(p, m) && IndexValid(c, m);
    }
  }

  lemma InvalidateNamespaceKeepsValid(c: Cache, ns: Symbol, now: nat)
    requires Valid(c)
    ensures Valid(InvalidateNamespace(c, ns, now))
  {
    var d := InvalidateNamespace(c, ns, now);
    SlotsOfMembers(ns, Keys(c, ns));
    forall m ensures IndexValid(d, m) {
      assert IndexValid(c, m) && IndexValid(c, ns);
    }
  }

  // ----- the reference cache ---------------------------------------------------------

  /** A write as the reference cache remembers it. */
  datatype Stored = Stored(value: Bytes, at: nat, ttl: nat)

  /** The reference cache: the last accepted write of each slot not invalidated since. It never prunes. */
  type Reference = map<Slot, Stored>

  function RefServe(r: Reference, s: Slot, now: nat): Option<Bytes> {
    if s in r && MinusOrZero(now, r[s].at) <= r[s].ttl then Some(r[s].value) else None
  }

  datatype Op =
    | WriteOp(ns: Symbol, key: Symbol, value: Bytes, ttl: nat)
    | ReadOp(slot: Slot)
    | InvalidateOp(slot: Slot)
    | InvalidateNamespaceOp(ns: Symbol)
    | PruneOp(ns: Symbol, maxEntries: nat)

  /** A call at a ledger time; `rollback` says whether the host undoes it should it fail. */
  datatype Call = Call(op: Op, now: nat, rollback: bool)

  predicate Fails(c: Cache, op: Op, now: nat) {
    match op
    case WriteOp(ns, key, value, ttl) => WriteOutcome(c, ns, key, ttl, now).Err?
    case ReadOp(s) => ReadOutcome(c, s, now).Err?
    case _ => false
  }

  function Apply(c: Cache, op: Op, now: nat): Cache {
    match op
    case WriteOp(ns, key, value, ttl) => Write(c, ns, key, value, ttl, now)
    case ReadOp(s) => Read(c, s, now)
    case InvalidateOp(s) => Invalidate(c, s)
    case InvalidateNamespaceOp(ns) => InvalidateNamespace(c, ns, now)
    case PruneOp(ns, maxEntries) => Prune(c, ns, maxEntries, now)
  }

  function Step(c: Cache, call: Call): Cache {
    if call.rollback && Fails(c, call.op, call.now) then c else Apply(c, call.op, call.now)
  }

  /** The reference only learns whether the write was accepted. */
  function RefStep(r: Reference, call: Call, accepted: bool): Reference {
    match call.op
    case WriteOp(ns, key, value, ttl) => if accepted then r[Slot(ns, key) := Stored(value, call.now, ttl)] else r
    case InvalidateOp(s) => r - {s}
    case InvalidateNamespaceOp(ns) => map s | s in r && s.ns != ns :: r[s]
    case ReadOp(_) => r
    case PruneOp(_, _) => r
  }

  function Run(calls: seq<Call>): (Cache, Reference) {
    if calls == [] then (EMPTY_CACHE, map[])
    else
      var (c, r) := Run(calls[..|calls| - 1]);
      var call := calls[|calls| - 1];
      (Step(c, call), RefStep(r, call, !Fails(c, call.op, call.now)))
  }

  ghost predicate Monotone(calls: seq<Call>) {
    forall i, j :: 0 <= i <= j < |calls| ==> calls[i].now <= calls[j].now
  }

  function LastTime(calls: seq<Call>): nat {
    if calls == [] then 0 else calls[|calls| - 1].now
  }

  /** A slot holds the reference's write, unflagged, unless both sides would refuse it for ever. */
  ghost predicate SlotAgrees(c: Cache, r: Reference, s: Slot, now: nat) {
    && (s in c.entries ==> c.entries[s].isValid)
    && (s in c.entries && !Flagged(c, s) ==>
          s in r && r[s] == Stored(c.entries[s].value, c.entries[s].cachedAt, c.entries[s].ttl))
    && (s in r ==> r[s].at <= now)
    && (s in r && now - r[s].at <= r[s].ttl ==> s in c.entries && !Flagged(c, s))
  }

  ghost predicate Agrees(c: Cache, r: Reference, now: nat) {
    forall s :: SlotAgrees(c, r, s, now)
  }

  lemma AgreesLater(c: Cache, r: Reference, now: nat, later: nat)
    requires Agrees(c, r, now) && now <= later
    ensures Agrees(c, r, later)
  {
    forall s ensures SlotAgrees(c, r, s, later) {
      assert SlotAgrees(c, r, s, now);
    }
  }

  lemma PruneAgrees(c: Cache, r: Reference, ns: Symbol, maxEntries: nat, now: nat)
    requires Valid(c) && Agrees(c, r, now)
    ensures Agrees(Prune(c, ns, maxEntries, now), r, now)
  {
    hide Prune, Pruned, NoDup, Without;
    assert IndexValid(c, ns);
    PruneEffect(c, ns, maxEntries, now);
    var p, gone := Prune(c, ns, maxEntries, now), Pruned(c, ns, maxEntries, now);
    SlotsOfMembers(ns, gone);
    forall s ensures SlotAgrees(p, r, s, now) {
      assert SlotAgrees(c, r, s, now);
      if s in SlotsOf(ns, gone) {
        assert s == Slot(ns, s.key) && s.key in ToSet(gone);
      }
    }
  }

  lemma WriteAgrees(c: Cache, r: Reference, call: Call)
    requires Valid(c) && Agrees(c, r, call.now) && call.op.WriteOp?
    ensures Agrees(Step(c, call), RefStep(r, call, !Fails(c, call.op, call.now)), call.now)
  {
    hide Prune;
    var p := Prune(c, call.op.ns, AUTO_PRUNE_BATCH, call.now);
    var c', r' := Step(c, call), RefStep(r, call, !Fails(c, call.op, call.now));
    PruneAgrees(c, r, call.op.ns, AUTO_PRUNE_BATCH, call.now);
    forall s ensures SlotAgrees(c', r', s, call.now) {
      assert SlotAgrees(p, r, s, call.now) && SlotAgrees(c, r, s, call.now);
    }
  }

  lemma InvalidateNamespaceAgrees(c: Cache, r: Reference, call: Call)
    requires Valid(c) && Agrees(c, r, call.now) && call.op.InvalidateNamespaceOp?
    ensures Agrees(Step(c, call), RefStep(r, call, !Fails(c, call.op, call.now)), call.now)
  {
    var ns := call.op.ns;
    var c', r' := Step(c, call), RefStep(r, call, true);
    SlotsOfMembers(ns, Keys(c, ns));
    forall s ensures SlotAgrees(c', r', s, call.now) {
      assert SlotAgrees(c, r, s, call.now) && IndexValid(c, s.ns);
      assert s == Slot(s.ns, s.key);
    }
  }

  /** One call keeps the storage valid and the two caches in agreement. */
  lemma StepAgrees(c: Cache, r: Reference, call: Call)
    requires Valid(c) && Agrees(c, r, call.now)
    ensures Valid(Step(c, call))
    ensures Agrees(Step(c, call), RefStep(r, call, !Fails(c, call.op, call.now)), call.now)
  {
    var c', r' := Step(c, call), RefStep(r, call, !Fails(c, call.op, call.now));
    match call.op
    case WriteOp(ns, key, value, ttl) =>
      WriteKeepsValid(c, ns, key, value, ttl, call.now);
      WriteAgrees(c, r, call);
    case PruneOp(ns, maxEntries) =>
      PruneKeepsValid(c, ns, maxEntries, call.now);
      PruneAgrees(c, r, ns, maxEntries, call.now);
    case InvalidateNamespaceOp(ns) =>
      InvalidateNamespaceKeepsValid(c, ns, call.now);
      InvalidateNamespaceAgrees(c, r, call);
    case ReadOp(s) =>
      assert SlotAgrees(c, r, s, call.now);
      if c' != c {
        FlagAgrees(c, r, c', r', call.now, s);
      }
    case InvalidateOp(s) =>
      FlagAgrees(c, r, c', r', call.now, s);
  }

  /** Raising a flag on a slot the reference no longer serves, or drops, keeps the agreement. */
  lemma FlagAgrees(c: Cache, r: Reference, c': Cache, r': Reference, now: nat, s: Slot)
    requires Valid(c) && Agrees(c, r, now)
    requires c' == c.(stale := c.stale[s := true])
    requires r' == r - {s} || (r' == r && RefServe(r, s, now) == None)
    ensures Valid(c') && Agrees(c', r', now)
  {
    forall t ensures SlotAgrees(c', r', t, now) {
      assert SlotAgrees(c, r, t, now);
    }
    forall ns ensures IndexValid(c', ns) {
      assert IndexValid(c, ns);
    }
  }

  lemma {:induction false} RunAgrees(calls: seq<Call>)
    requires Monotone(calls)
    ensures Valid(Run(calls).0) && Agrees(Run(calls).0, Run(calls).1, LastTime(calls))
  {
    if calls == [] {
      forall s ensures SlotAgrees(EMPTY_CACHE, map[], s, 0) {}
      forall ns ensures IndexValid(EMPTY_CACHE, ns) {}
    } else {
      var before, call := calls[..|calls| - 1], calls[|calls| - 1];
      RunAgrees(before);
      var (c, r) := Run(before);
      AgreesLater(c, r, LastTime(before), call.now);
      StepAgrees(c, r, call);
    }
  }

  /**
   After every run, a reader is served exactly what the never-pruning reference would serve, at every
   time from the last call on; and the index is duplicate-free, bounded and exactly the stored keys.
   */
  lemma CacheMatchesReference(calls: seq<Call>, s: Slot, t: nat)
    requires Monotone(calls) && LastTime(calls) <= t
    ensures Serve(Run(calls).0, s, t) == RefServe(Run(calls).1, s, t)
    ensures forall v :: ReadOutcome(Run(calls).0, s, t) == Ok(v) <==> RefServe(Run(calls).1, s, t) == Some(v)
    ensures ReadOutcome(Run(calls).0, s, t) == Err(EntryNotFound) <==> s.key !in Keys(Run(calls).0, s.ns)
    ensures IndexValid(Run(calls).0, s.ns)
  {
    hide Run, Serve, RefServe, Valid, NoDup, Agrees;
    RunAgrees(calls);
    AgreesLater(Run(calls).0, Run(calls).1, LastTime(calls), t);
    ServedAlike(Run(calls).0, Run(calls).1, s, t);
  }

  lemma ServedAlike(c: Cache, r: Reference, s: Slot, t: nat)
    requires Valid(c) && Agrees(c, r, t)
    ensures Serve(c, s, t) == RefServe(r, s, t) && (Serve(c, s, t).Some? ==> s in c.entries) && IndexValid(c, s.ns)
  {
    assert SlotAgrees(c, r, s, t);
  }

  /** What is prunable is exactly what is not served any more. */
  lemma DeadExactly(c: Cache, ns: Symbol, k: Symbol, now: nat)
    ensures k in DeadKeys(c, ns, now) <==> k in Keys(c, ns) && Serve(c, Slot(ns, k), now) == None
  {}

  /** A dead key is never served again. */
  lemma DeadForEver(c: Cache, ns: Symbol, k: Symbol, now: nat, later: nat)
    requires k in DeadKeys(c, ns, now) && now <= later
    ensures Serve(c, Slot(ns, k), later) == None
  {}

  /** How a read is answered, and the flag it leaves on an entry that is stored but no longer served. */
  lemma ReadExactly(c: Cache, s: Slot, now: nat)
    ensures ReadOutcome(c, s, now) == Err(EntryNotFound) <==> s !in c.entries
    ensures ReadOutcome(c, s, now) == Err(CacheExpired) <==> s in c.entries && Serve(c, s, now) == None
    ensures forall v :: ReadOutcome(c, s, now) == Ok(v) <==> Serve(c, s, now) == Some(v)
    ensures var r := Read(c, s, now);
            && r.entries == c.entries && r.index == c.index && r.cursor == c.cursor
            && (Flagged(r, s) <==> Flagged(c, s) || (s in c.entries && Serve(c, s, now) == None))
            && (forall t :: t != s ==> Flagged(r, t) == Flagged(c, t))
  {}
}
