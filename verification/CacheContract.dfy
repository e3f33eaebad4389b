/**
 The TTL cache as the contract runs it: storage maps updated in place, one ledger time per call.
 */
module CacheContract {
  import opened Host
  import opened PruneRing
  import opened CacheModel
  import opened CacheProofs

  class TtlCache {
    var entries: map<Slot, CachedData>
    var stale: map<Slot, bool>
    var index: map<Symbol, seq<Symbol>>
    var cursor: map<Symbol, nat>
    var lastInvalidation: map<Symbol, nat>

    ghost function Model(): Cache
      reads this
    {
      Cache(entries, stale, index, cursor, lastInvalidation)
    }

    constructor ()
      ensures Model() == EMPTY_CACHE
    {
      entries, stale, index, cursor, lastInvalidation := map[], map[], map[], map[], map[];
    }

    function NamespaceIndex(ns: Symbol): (keys: seq<Symbol>)
      reads this
      ensures keys == Keys(Model(), ns)
    {
      if ns in index then index[ns] else []
    }

    /** Delete a cached value and its stale flag. */
    method RemoveEntry(ns: Symbol, key: Symbol)
      modifies this`entries, this`stale
      ensures entries == old(entries) - {Slot(ns, key)} && stale == old(stale) - {Slot(ns, key)}
    {
      entries := entries - {Slot(ns, key)};
      stale := stale - {Slot(ns, key)};
    }

    predicate IsPrunable(ns: Symbol, key: Symbol, now: nat)
      reads this
      ensures IsPrunable(ns, key, now) <==> Prunable(Model(), Slot(ns, key), now)
    {
      var s := Slot(ns, key);
      if s !in entries then true
      else
        var flagged := s in stale && stale[s];
        flagged || !entries[s].isValid || MinusOrZero(now, entries[s].cachedAt) > entries[s].ttl
    }

    method CacheWithTtl(ns: Symbol, key: Symbol, value: Bytes, ttl: nat, now: nat) returns (r: Result<(), CacheError>)
      requires IndexValid(Model(), ns)
      modifies this
      ensures r == WriteOutcome(old(Model()), ns, key, ttl, now)
      ensures Model() == Write(old(Model()), ns, key, value, ttl, now)
    {
      if ttl == 0 {
        return Err(InvalidTtl);
      }
      var _ := PruneExpiredEntries(ns, AUTO_PRUNE_BATCH, now);
      var keys := NamespaceIndex(ns);
      if key !in keys {
        if |keys| >= MAX_KEYS_PER_NAMESPACE {
          return Err(NamespaceFull);
        }
        index := index[ns := keys + [key]];
      }
      entries := entries[Slot(ns, key) := CachedData(value, now, ttl, true)];
      stale := stale[Slot(ns, key) := false];
      r := Ok(());
    }

    /** A dead entry is flagged on the read path; the flag survives only where the caller keeps the failed call. */
    method GetCachedWithTtl(ns: Symbol, key: Symbol, now: nat) returns (r: Result<Bytes, CacheError>)
      modifies this`stale
      ensures r == ReadOutcome(old(Model()), Slot(ns, key), now)
      ensures Model() == Read(old(Model()), Slot(ns, key), now)
    {
      var s := Slot(ns, key);
      if s !in entries {
        return Err(EntryNotFound);
      }
      var age := MinusOrZero(now, entries[s].cachedAt);
      var invalidated := s in stale && stale[s];
      if invalidated || !entries[s].isValid || age > entries[s].ttl {
        stale := stale[s := true];
        r := Err(CacheExpired);
      } else {
        r := Ok(entries[s].value);
      }
    }

    method IsCacheValid(ns: Symbol, key: Symbol, now: nat) returns (valid: bool)
      ensures valid <==> Serve(Model(), Slot(ns, key), now).Some?
    {
      var s := Slot(ns, key);
      if s !in entries {
        return false;
      }
      var invalidated := s in stale && stale[s];
      valid := !invalidated && entries[s].isValid && MinusOrZero(now, entries[s].cachedAt) <= entries[s].ttl;
    }

    method InvalidateCacheEntry(ns: Symbol, key: Symbol)
      modifies this`stale
      ensures Model() == Invalidate(old(Model()), Slot(ns, key))
    {
      stale := stale[Slot(ns, key) := true];
    }

    method InvalidateNamespace(ns: Symbol, now: nat) returns (removed: nat)
      modifies this
      ensures Model() == CacheModel.InvalidateNamespace(old(Model()), ns, now)
      ensures removed == |Keys(old(Model()), ns)|
    {
      lastInvalidation := lastInvalidation[ns := now];
      var keys := NamespaceIndex(ns);
      for i := 0 to |keys|
        invariant entries == old(entries) - SlotsOf(ns, keys[..i])
        invariant stale == old(stale) - SlotsOf(ns, keys[..i])
        invariant index == old(index) && cursor == old(cursor)
        invariant lastInvalidation == old(lastInvalidation)[ns := now]
      {
        RemoveEntry(ns, keys[i]);
        SlotsOfOneMore(ns, keys, i);
      }
      assert keys[..|keys|] == keys;
      index := index - {ns};
      cursor := cursor - {ns};
      removed := |keys|;
    }

    method ClearStaleEntries(ns: Symbol, now: nat) returns (removed: nat)
      requires IndexValid(Model(), ns)
      modifies this
      ensures Model() == Prune(old(Model()), ns, MAX_PRUNE_BATCH, now)
      ensures removed == |Pruned(old(Model()), ns, MAX_PRUNE_BATCH, now)|
    {
      removed := PruneExpiredEntries(ns, MAX_PRUNE_BATCH, now);
    }

    method PruneExpiredEntries(ns: Symbol, maxEntries: nat, now: nat) returns (removed: nat)
      requires IndexValid(Model(), ns)
      modifies this
      ensures Model() == Prune(old(Model()), ns, maxEntries, now)
      ensures removed == |Pruned(old(Model()), ns, maxEntries, now)|
    {
      hide Prune, Pruned, IndexValid, NoDup, AfterScan, StopAt, Hits, DeadKeys;
      var limit := Min(maxEntries, MAX_PRUNE_BATCH);
      var keys := NamespaceIndex(ns);
      if limit == 0 || |keys| == 0 {
        NothingToPrune(Model(), ns, maxEntries, now);
        return 0;
      }
      PruneUnfolded(Model(), ns, maxEntries, now);
      IndexIsNoDup(Model(), ns);
      var start := Wrap(if ns in cursor then cursor[ns] else 0, |keys|);
      removed := PruneKeys(ns, keys, start, Min(|keys|, limit * PRUNE_SCAN_FACTOR), limit, now);
    }

    /** The scan of a non-empty index from `start`, and the bookkeeping after it. */
    method PruneKeys(ns: Symbol, keys: seq<Symbol>, start: nat, scan: nat, limit: nat, now: nat) returns (removed: nat)
      requires keys == Keys(Model(), ns) && NoDup(keys) && start < |keys| && scan <= |keys|
      modifies this
      ensures var dead := DeadKeys(old(Model()), ns, now);
              var stop := StopAt(keys, dead, start, scan, limit, 0);
              var gone := Hits(keys, dead, start, stop);
              removed == |gone| && Model() == AfterScan(old(Model()), ns, keys, gone, start + stop - |gone|)
    {
      hide DeadKeys, StopAt, Hits, NoDup, SlotsOf, Without, ToSet, Wrap;
      var pruned, scanned := RemoveDeadKeys(ns, keys, start, scan, limit, now);
      KeptLength(keys, DeadKeys(old(Model()), ns, now), start, scanned, scan, limit);
      removed := |pruned|;
      ShrinkIndex(ns, keys, pruned, start + scanned - removed);
    }

    /** Store the cursor and the index without the pruned keys; an emptied namespace loses both. */
    method ShrinkIndex(ns: Symbol, keys: seq<Symbol>, pruned: seq<Symbol>, resume: nat)
      requires |Without(keys, ToSet(pruned))| == |keys| - |pruned|
      modifies this`index, this`cursor
      ensures var kept := Without(keys, ToSet(pruned));
              && cursor == (if kept == [] then old(cursor) - {ns} else old(cursor)[ns := Wrap(resume, |kept|)])
              && index == (if pruned == [] then old(index) else if kept == [] then old(index) - {ns}
                           else old(index)[ns := kept])
    {
      hide Without, ToSet, Wrap;
      var remaining := |keys| - |pruned|;
      if remaining == 0 {
        cursor := cursor - {ns};
      } else {
        cursor := cursor[ns := Wrap(resume, remaining)];
      }
      if |pruned| == 0 {
        return;
      }
      if remaining == 0 {
        index := index - {ns};
      } else {
        var kept := KeepOthers(keys, pruned);
        index := index[ns := kept];
      }
    }

    /** The bounded scan: examine keys from `start` around the ring, deleting the dead ones. */
    method RemoveDeadKeys(ns: Symbol, keys: seq<Symbol>, start: nat, scan: nat, limit: nat, now: nat)
      returns (pruned: seq<Symbol>, scanned: nat)
      requires keys == Keys(Model(), ns) && NoDup(keys) && start < |keys| && scan <= |keys|
      modifies this`entries, this`stale
      ensures scanned == StopAt(keys, DeadKeys(old(Model()), ns, now), start, scan, limit, 0)
      ensures pruned == Hits(keys, DeadKeys(old(Model()), ns, now), start, scanned)
      ensures Model() == DropSlots(old(Model()), ns, pruned)
    {
      hide Wrap, StopAt, Hits, DeadKeys, SlotsOf, NoDup;
      ghost var was, dead := Model(), DeadKeys(Model(), ns, now);
      pruned, scanned := [], 0;
      NothingDropped(was, ns);
      assert Hits(keys, dead, start, 0) == [];
      while scanned < scan && |pruned| < limit
        invariant scanned <= scan && pruned == Hits(keys, dead, start, scanned)
        invariant StopAt(keys, dead, start, scan, limit, scanned) == StopAt(keys, dead, start, scan, limit, 0)
        invariant Model() == DropSlots(was, ns, pruned)
      {
        var key := keys[Wrap(start + scanned, |keys|)];
        OneMoreKey(was, ns, now, start, scan, limit, scanned);
        if IsPrunable(ns, key, now) {
          RemoveEntry(ns, key);
          pruned := pruned + [key];
        }
        scanned := scanned + 1;
      }
      ScanEnds(keys, dead, start, scan, limit, scanned);
    }

    /** The index without the pruned keys. */
    static method KeepOthers(keys: seq<Symbol>, pruned: seq<Symbol>) returns (kept: seq<Symbol>)
      ensures kept == Without(keys, ToSet(pruned))
    {
      kept := [];
      for i := 0 to |keys|
        invariant kept == Without(keys[..i], ToSet(pruned))
      {
        assert keys[..i + 1][..i] == keys[..i];
        if keys[i] !in pruned {
          kept := kept + [keys[i]];
        }
      }
      assert keys[..|keys|] == keys;
    }
  }

  lemma SlotsOfOneMore(ns: Symbol, keys: seq<Symbol>, i: nat)
    requires i < |keys|
    ensures SlotsOf(ns, keys[..i + 1]) == SlotsOf(ns, keys[..i]) + {Slot(ns, keys[i])}
  {
    assert keys[..i + 1] == keys[..i] + [keys[i]];
  }

  lemma NothingDropped(c: Cache, ns: Symbol)
    ensures DropSlots(c, ns, []) == c
  {
    assert SlotsOf(ns, []) == {};
  }

  /** A key met for the first time in this turn has not been pruned yet. */
  lemma NextNotYetPruned(keys: seq<Symbol>, dead: set<Symbol>, start: nat, n: nat)
    requires NoDup(keys) && start < |keys| && n < |keys|
    ensures At(keys, start, n) !in Hits(keys, dead, start, n)
  {
    HitsSound(keys, dead, start, n);
    if At(keys, start, n) in Hits(keys, dead, start, n) {
      var j: nat :| j < n && At(keys, start, n) == At(keys, start, j);
      RingDistinct(keys, start, j, n);
    }
  }

  /** One iteration of the scan: the removals so far do not change whether the next key is dead. */
  lemma OneMoreKey(was: Cache, ns: Symbol, now: nat, start: nat, scan: nat, limit: nat, i: nat)
    requires NoDup(Keys(was, ns)) && start < |Keys(was, ns)| && scan <= |Keys(was, ns)| && i < scan
    requires |Hits(Keys(was, ns), DeadKeys(was, ns, now), start, i)| < limit
    ensures var keys, dead := Keys(was, ns), DeadKeys(was, ns, now);
            var pruned, key := Hits(keys, dead, start, i), At(keys, start, i);
            var sofar := DropSlots(was, ns, pruned);
            && Hits(keys, dead, start, i + 1) == (if key in dead then pruned + [key] else pruned)
            && StopAt(keys, dead, start, scan, limit, i) == StopAt(keys, dead, start, scan, limit, i + 1)
            && (Prunable(sofar, Slot(ns, key), now) <==> key in dead)
            && DropSlots(was, ns, pruned + [key]) ==
               sofar.(entries := sofar.entries - {Slot(ns, key)}, stale := sofar.stale - {Slot(ns, key)})
  {
    hide StopAt, NoDup, Wrap, Prunable, DropSlots;
    var keys, dead := Keys(was, ns), DeadKeys(was, ns, now);
    var pruned, key := Hits(keys, dead, start, i), At(keys, start, i);
    NextNotYetPruned(keys, dead, start, i);
    OtherSlotsUntouched(was, ns, pruned, key, now);
    DropOneMore(was, ns, pruned, key);
    ScanGoesOn(keys, dead, start, scan, limit, i);
  }

  lemma OtherSlotsUntouched(c: Cache, ns: Symbol, gone: seq<Symbol>, key: Symbol, now: nat)
    requires key !in gone
    ensures Prunable(DropSlots(c, ns, gone), Slot(ns, key), now) == Prunable(c, Slot(ns, key), now)
  {
    SlotsOfMembers(ns, gone);
  }

  lemma DropOneMore(c: Cache, ns: Symbol, gone: seq<Symbol>, key: Symbol)
    ensures var d := DropSlots(c, ns, gone);
            DropSlots(c, ns, gone + [key]) ==
            d.(entries := d.entries - {Slot(ns, key)}, stale := d.stale - {Slot(ns, key)})
  {
    assert SlotsOf(ns, gone + [key]) == SlotsOf(ns, gone) + {Slot(ns, key)};
  }

  lemma ScanGoesOn(keys: seq<Symbol>, dead: set<Symbol>, start: nat, scan: nat, limit: nat, i: nat)
    requires |keys| > 0 && i < scan && |Hits(keys, dead, start, i)| < limit
    ensures StopAt(keys, dead, start, scan, limit, i) == StopAt(keys, dead, start, scan, limit, i + 1)
  {}

  lemma ScanEnds(keys: seq<Symbol>, dead: set<Symbol>, start: nat, scan: nat, limit: nat, i: nat)
    requires |keys| > 0 && i <= scan && (i == scan || |Hits(keys, dead, start, i)| >= limit)
    ensures StopAt(keys, dead, start, scan, limit, i) == i
  {}

  /** The storage after the keys `gone` were removed and the scan is to resume at `resume`. */
  ghost function AfterScan(c: Cache, ns: Symbol, keys: seq<Symbol>, gone: seq<Symbol>, resume: nat): Cache {
    var kept := Without(keys, ToSet(gone));
    Cache(
      c.entries - SlotsOf(ns, gone),
      c.stale - SlotsOf(ns, gone),
      if gone == [] then c.index else if kept == [] then c.index - {ns} else c.index[ns := kept],
      if kept == [] then c.cursor - {ns} else c.cursor[ns := Wrap(resume, |kept|)],
      c.lastInvalidation)
  }

  lemma KeptLength(keys: seq<Symbol>, dead: set<Symbol>, start: nat, n: nat, window: nat, limit: nat)
    requires NoDup(keys) && start < |keys| && window <= |keys| && n == StopAt(keys, dead, start, window, limit, 0)
    ensures n <= window
    ensures |Without(keys, ToSet(Hits(keys, dead, start, n)))| == |keys| - |Hits(keys, dead, start, n)|
  {
    hide NoDup, Without, StopAt;
    StopAtBounds(keys, dead, start, window, limit, 0);
    HitsSound(keys, dead, start, n);
    HitsNoDup(keys, dead, start, n);
    NoDupCard(Hits(keys, dead, start, n));
    WithoutLength(keys, ToSet(Hits(keys, dead, start, n)));
  }

  lemma IndexIsNoDup(c: Cache, ns: Symbol)
    requires IndexValid(c, ns)
    ensures NoDup(Keys(c, ns))
  {}

  lemma NothingToPrune(c: Cache, ns: Symbol, maxEntries: nat, now: nat)
    requires Limit(maxEntries) == 0 || Keys(c, ns) == []
    ensures Prune(c, ns, maxEntries, now) == c && Pruned(c, ns, maxEntries, now) == []
  {}

  /** A prune call in the terms of its scan. */
  lemma PruneUnfolded(c: Cache, ns: Symbol, maxEntries: nat, now: nat)
    requires IndexValid(c, ns) && Limit(maxEntries) > 0 && Keys(c, ns) != []
    ensures var r, dead := RingOf(c, ns), DeadKeys(c, ns, now);
            var stop := StopAt(r.keys, dead, Start(r), Window(|r.keys|, maxEntries), Limit(maxEntries), 0);
            var gone := Hits(r.keys, dead, Start(r), stop);
            && gone == Pruned(c, ns, maxEntries, now)
            && Prune(c, ns, maxEntries, now) == AfterScan(c, ns, r.keys, gone, Start(r) + stop - |gone|)
  {
    hide NoDup, Without, StopAt, Hits;
    SweepEffect(RingOf(c, ns), DeadKeys(c, ns, now), maxEntries);
    WithoutNone(Keys(c, ns), {});
    assert ToSet([]) == {};
  }
}
