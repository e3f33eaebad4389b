/**
 The audit log as the contract runs it: counter, oldest pointer and entries updated in place.
 */
module AuditContract {
  import opened Host
  import opened AuditModel
  import opened AuditProofs

  class AuditLogger {
    var entries: map<nat, Entry>
    var counter: nat
    var oldest: nat
    var policy: Option<Policy>

    ghost function Model(): Log
      reads this
    {
      Log(entries, counter, oldest, policy)
    }

    constructor ()
      ensures Model() == EMPTY_LOG
    {
      entries, counter, oldest, policy := map[], 0, 0, None;
    }

    method LogAuditEvent(actor: Option<Address>, action: Symbol, details: seq<int>, now: nat)
      returns (r: Result<Entry, AuditError>)
      requires oldest <= counter
      modifies this
      ensures match Record(old(Model()), actor, action, details, now)
              case Ok(log) => Model() == log && r == Ok(Entry(old(counter), now, actor, action, details))
              case Err(error) => r == Err(error) && Model() == old(Model())
    {
      hide PruneEnd;
      if counter + 1 > U64_MAX {
        return Err(HostPanic);
      }
      var entry := Entry(counter, now, actor, action, details);
      entries := entries[counter := entry];
      counter := counter + 1;
      var _ := PruneAuditLogs(AUTO_PRUNE_BATCH, now);
      r := Ok(entry);
    }

    method SetAuditRetention(isAdmin: bool, newPolicy: Policy) returns (r: Result<(), AuditError>)
      modifies this`policy
      ensures match SetPolicy(old(Model()), isAdmin, newPolicy)
              case Ok(log) => Model() == log && r == Ok(())
              case Err(error) => r == Err(error) && Model() == old(Model())
    {
      if !isAdmin {
        return Err(Unauthorized);
      }
      if newPolicy.maxAge == 0 || newPolicy.maxEntries == 0 {
        return Err(InvalidRetention);
      }
      policy := Some(newPolicy);
      r := Ok(());
    }

    /** Delete entries from the front until one must stay or the batch is used up. */
    method PruneAuditLogs(maxEntries: nat, now: nat) returns (removed: nat)
      requires oldest <= counter
      modifies this`entries, this`oldest
      ensures Model() == Prune(old(Model()), maxEntries, now)
      ensures removed == Prune(old(Model()), maxEntries, now).oldest - old(oldest)
      ensures oldest <= counter
    {
      hide PruneEnd;
      ghost var was := Model();
      var limit := Min(maxEntries, MAX_PRUNE_BATCH);
      var p := if policy.Some? then policy.value else DEFAULT_POLICY;
      var next := oldest;
      removed := 0;
      PruneEndIsLongest(was, now, oldest, limit);
      while removed < limit && next < counter
        invariant next == oldest + removed && removed <= limit && next <= counter && oldest == was.oldest
        invariant entries == map i | i in was.entries && !(was.oldest <= i < next) :: was.entries[i]
        invariant PruneEnd(was, now, next, limit - removed) == PruneEnd(was, now, was.oldest, limit)
        decreases limit - removed
      {
        var overCapacity := counter - next > p.maxEntries;
        var expired := next !in entries || MinusOrZero(now, entries[next].timestamp) > p.maxAge;
        PruneEndUnfolds(was, now, next, limit - removed);
        if !overCapacity && !expired {
          break;
        }
        entries := entries - {next};
        next := next + 1;
        removed := removed + 1;
      }
      PruneEndUnfolds(was, now, next, limit - removed);
      if removed > 0 {
        oldest := next;
      }
      assert entries == DropTo(was, next).entries;
    }

    /** The oldest retained entries, at most the query limit of them, that have the given action. */
    method QueryAuditLogs(filter: Symbol, limit: nat) returns (results: seq<Entry>)
      requires oldest <= counter
      ensures results == Filter(Model(), filter, oldest, oldest + QuerySpan(Model(), limit))
    {
      var capped := Min(limit, MAX_QUERY_LIMIT);
      var retained := counter - oldest;
      var max := if capped == 0 then Min(retained, MAX_QUERY_LIMIT) else Min(retained, capped);
      results := [];
      var i := oldest;
      while i < oldest + max
        invariant oldest <= i <= oldest + max && results == Filter(Model(), filter, oldest, i)
      {
        if i in entries && filter == entries[i].action {
          results := results + [entries[i]];
        }
        i := i + 1;
      }
    }
  }

  lemma PruneEndUnfolds(log: Log, now: nat, next: nat, limit: nat)
    ensures PruneEnd(log, now, next, limit) ==
            if limit > 0 && next < log.counter && Violates(log, next, now)
            then PruneEnd(log, now, next + 1, limit - 1) else next
  {}
}
