/**
 The TTL cache as a value: the storage maps of every namespace and the effect of each
 operation on them. `CacheContract` implements these operations in place.
 */
module CacheModel {
  import opened Host
  import opened PruneRing

  const MAX_KEYS_PER_NAMESPACE: nat := 100
  const AUTO_PRUNE_BATCH: nat := 5

  type Bytes = seq<int>

  /** A storage slot: `CacheEntry(namespace, key)` and `IsStale(namespace, key)` share it. */
  datatype Slot = Slot(ns: Symbol, key: Symbol)

  datatype CachedData = CachedData(value: Bytes, cachedAt: nat, ttl: nat, isValid: bool)

  datatype Cache = Cache(
    entries: map<Slot, CachedData>,
    stale: map<Slot, bool>,
    index: map<Symbol, seq<Symbol>>,
    cursor: map<Symbol, nat>,
    lastInvalidation: map<Symbol, nat>)

  datatype CacheError = CacheExpired | EntryNotFound | InvalidTtl | NamespaceFull

  const EMPTY_CACHE := Cache(map[], map[], map[], map[], map[])

  // ----- reads -----------------------------------------------------------------

  function Keys(c: Cache, ns: Symbol): seq<Symbol> {
    if ns in c.index then c.index[ns] else []
  }

  predicate Flagged(c: Cache, s: Slot) {
    s in c.stale && c.stale[s]
  }

  function Age(e: CachedData, now: nat): nat {
    MinusOrZero(now, e.cachedAt)
  }

  /** What a reader is served at time `now`. */
  function Serve(c: Cache, s: Slot, now: nat): Option<Bytes> {
    if s in c.entries && !Flagged(c, s) && c.entries[s].isValid && Age(c.entries[s], now) <= c.entries[s].ttl
    then Some(c.entries[s].value)
    else None
  }

  predicate Prunable(c: Cache, s: Slot, now: nat) {
    s !in c.entries || Flagged(c, s) || !c.entries[s].isValid || Age(c.entries[s], now) > c.entries[s].ttl
  }

  function DeadKeys(c: Cache, ns: Symbol, now: nat): set<Symbol> {
    set k | k in Keys(c, ns) && Prunable(c, Slot(ns, k), now)
  }

  function RingOf(c: Cache, ns: Symbol): Ring {
    Ring(Keys(c, ns), if ns in c.cursor then c.cursor[ns] else 0)
  }

  // ----- the operations ------------------------------------------------------------

  function SlotsOf(ns: Symbol, keys: seq<Symbol>): set<Slot> {
    set k | k in keys :: Slot(ns, k)
  }

  function DropSlots(c: Cache, ns: Symbol, keys: seq<Symbol>): Cache {
    c.(entries := c.entries - SlotsOf(ns, keys), stale := c.stale - SlotsOf(ns, keys))
  }

  /** The keys of `ns` one prune call removes. */
  function Pruned(c: Cache, ns: Symbol, maxEntries: nat, now: nat): seq<Symbol> {
    Removed(RingOf(c, ns), DeadKeys(c, ns, now), maxEntries)
  }

  function Prune(c: Cache, ns: Symbol, maxEntries: nat, now: nat): Cache {
    if Limit(maxEntries) == 0 || Keys(c, ns) == [] then c
    else
      var next := Sweep(RingOf(c, ns), DeadKeys(c, ns, now), maxEntries);
      var dropped := DropSlots(c, ns, Pruned(c, ns, maxEntries, now));
      if next.keys == [] then dropped.(index := c.index - {ns}, cursor := c.cursor - {ns})
      else dropped.(index := c.index[ns := next.keys], cursor := c.cursor[ns := next.cursor])
  }

  /** Whether a write is accepted, and if not why. */
  function WriteOutcome(c: Cache, ns: Symbol, key: Symbol, ttl: nat, now: nat): Result<(), CacheError> {
    var keys := Keys(Prune(c, ns, AUTO_PRUNE_BATCH, now), ns);
    if ttl == 0 then Err(InvalidTtl)
    else if key !in keys && |keys| >= MAX_KEYS_PER_NAMESPACE then Err(NamespaceFull)
    else Ok(())
  }

  /** The state a write leaves before any rollback: a refused write may still have pruned. */
  function Write(c: Cache, ns: Symbol, key: Symbol, value: Bytes, ttl: nat, now: nat): Cache {
    if ttl == 0 then c
    else
      var p := Prune(c, ns, AUTO_PRUNE_BATCH, now);
      if WriteOutcome(c, ns, key, ttl, now).Err? then p
      else
        p.(entries := p.entries[Slot(ns, key) := CachedData(value, now, ttl, true)],
           stale := p.stale[Slot(ns, key) := false],
           index := if key in Keys(p, ns) then p.index else p.index[ns := Keys(p, ns) + [key]])
  }

  function ReadOutcome(c: Cache, s: Slot, now: nat): Result<Bytes, CacheError> {
    if s !in c.entries then Err(EntryNotFound)
    else match Serve(c, s, now)
      case Some(v) => Ok(v)
      case None => Err(CacheExpired)
  }

  /** A read that finds a dead entry flags it (before any rollback). */
  function Read(c: Cache, s: Slot, now: nat): Cache {
    if ReadOutcome(c, s, now) == Err(CacheExpired) then c.(stale := c.stale[s := true]) else c
  }

  function Invalidate(c: Cache, s: Slot): Cache {
    c.(stale := c.stale[s := true])
  }

  function InvalidateNamespace(c: Cache, ns: Symbol, now: nat): Cache {
    DropSlots(c, ns, Keys(c, ns)).(
      index := c.index - {ns},
      cursor := c.cursor - {ns},
      lastInvalidation := c.lastInvalidation[ns := now])
  }
}
