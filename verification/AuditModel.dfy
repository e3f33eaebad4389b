/**
 The audit log as a value: sequential entries, a sliding window of retained ones and its policy.
 */
module AuditModel {
  import opened Host

  const MAX_QUERY_LIMIT: nat := 1000
  const AUTO_PRUNE_BATCH: nat := 4
  const MAX_PRUNE_BATCH: nat := 100

  datatype AuditError = InvalidRetention | Unauthorized | HostPanic

  datatype Policy = Policy(maxAge: nat, maxEntries: nat)

  const DEFAULT_POLICY := Policy(2_592_000, 256)

  datatype Entry = Entry(id: nat, timestamp: nat, actor: Option<Address>, action: Symbol, details: seq<int>)

  datatype Log = Log(entries: map<nat, Entry>, counter: nat, oldest: nat, policy: Option<Policy>)

  const EMPTY_LOG := Log(map[], 0, 0, None)

  function PolicyOf(log: Log): Policy {
    if log.policy.Some? then log.policy.value else DEFAULT_POLICY
  }

  predicate OverCapacity(log: Log, i: nat) {
    log.counter - i > PolicyOf(log).maxEntries
  }

  predicate Expired(log: Log, i: nat, now: nat) {
    i !in log.entries || MinusOrZero(now, log.entries[i].timestamp) > PolicyOf(log).maxAge
  }

  /** The policy says entry `i` must go. */
  predicate Violates(log: Log, i: nat, now: nat) {
    OverCapacity(log, i) || Expired(log, i, now)
  }

  /** Where pruning at most `limit` entries from `next` on stops. */
  function PruneEnd(log: Log, now: nat, next: nat, limit: nat): (end: nat)
    ensures next <= end <= next + limit
    decreases limit
  {
    if limit > 0 && next < log.counter && Violates(log, next, now)
    then PruneEnd(log, now, next + 1, limit - 1)
    else next
  }

  function DropTo(log: Log, end: nat): Log {
    log.(entries := map i | i in log.entries && !(log.oldest <= i < end) :: log.entries[i], oldest := end)
  }

  /** Pruning without the batch cap. */
  function PruneUpTo(log: Log, limit: nat, now: nat): Log {
    DropTo(log, PruneEnd(log, now, log.oldest, limit))
  }

  function Prune(log: Log, maxEntries: nat, now: nat): Log {
    PruneUpTo(log, Min(maxEntries, MAX_PRUNE_BATCH), now)
  }

  function Append(log: Log, actor: Option<Address>, action: Symbol, details: seq<int>, now: nat): Log {
    log.(entries := log.entries[log.counter := Entry(log.counter, now, actor, action, details)],
         counter := log.counter + 1)
  }

  function Record(log: Log, actor: Option<Address>, action: Symbol, details: seq<int>, now: nat)
    : Result<Log, AuditError>
  {
    if log.counter + 1 > U64_MAX then Err(HostPanic)
    else Ok(Prune(Append(log, actor, action, details, now), AUTO_PRUNE_BATCH, now))
  }

  function SetPolicy(log: Log, isAdmin: bool, policy: Policy): Result<Log, AuditError> {
    if !isAdmin then Err(Unauthorized)
    else if policy.maxAge == 0 || policy.maxEntries == 0 then Err(InvalidRetention)
    else Ok(log.(policy := Some(policy)))
  }

  /** Entries lo <= i < hi with the given action, oldest first. */
  function Filter(log: Log, action: Symbol, lo: nat, hi: nat): seq<Entry> {
    if hi <= lo then []
    else
      var last := if hi - 1 in log.entries && log.entries[hi - 1].action == action then [log.entries[hi - 1]] else [];
      Filter(log, action, lo, hi - 1) + last
  }

  /** How many retained entries a query looks at. */
  function QuerySpan(log: Log, limit: nat): nat
    requires log.oldest <= log.counter
  {
    Min(log.counter - log.oldest, if limit == 0 then MAX_QUERY_LIMIT else Min(limit, MAX_QUERY_LIMIT))
  }
}
