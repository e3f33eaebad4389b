/**
 Retention of the audit log: what pruning removes, and how a backlog drains.
 */
module AuditProofs {
  import opened Host
  import opened AuditModel

  // ----- one prune ---------------------------------------------------------------------------

  /** Pruning removes the longest violating prefix that the limit and the log allow. */
  lemma {:induction false} PruneEndIsLongest(log: Log, now: nat, next: nat, limit: nat)
    requires next <= log.counter
    ensures var end := PruneEnd(log, now, next, limit);
            && end <= log.counter
            && (forall i :: next <= i < end ==> Violates(log, i, now))
            && (end < log.counter && end < next + limit ==> !Violates(log, end, now))
    decreases limit
  {
    if limit > 0 && next < log.counter && Violates(log, next, now) {
      PruneEndIsLongest(log, now, next + 1, limit - 1);
    }
  }

  lemma {:induction false} PruneEndSplit(log: Log, now: nat, next: nat, a: nat, b: nat)
    ensures PruneEnd(log, now, next, a + b) == PruneEnd(log, now, PruneEnd(log, now, next, a), b)
    decreases a
  {
    if a > 0 && next < log.counter && Violates(log, next, now) {
      PruneEndSplit(log, now, next + 1, a - 1, b);
    } else {
      PruneEndStuck(log, now, next, a, b);
    }
  }

  lemma PruneEndStuck(log: Log, now: nat, next: nat, a: nat, b: nat)
    requires a == 0 || next >= log.counter || !Violates(log, next, now)
    ensures PruneEnd(log, now, next, a) == next && PruneEnd(log, now, next, a + b) == PruneEnd(log, now, next, b)
  {}

  /** Entries from a point on are judged alike before and after older ones are dropped. */
  lemma {:induction false} PruneEndAfterDrop(log: Log, now: nat, to: nat, next: nat, limit: nat)
    requires log.oldest <= to <= next
    ensures PruneEnd(DropTo(log, to), now, next, limit) == PruneEnd(log, now, next, limit)
    decreases limit
  {
    if limit > 0 {
      PruneEndAfterDrop(log, now, to, next + 1, limit - 1);
    }
  }

  lemma DropTwice(log: Log, a: nat, b: nat)
    requires log.oldest <= a <= b
    ensures DropTo(DropTo(log, a), b) == DropTo(log, b)
  {
    assert DropTo(DropTo(log, a), b).entries == DropTo(log, b).entries;
  }

  /** Two prunes at one time do what one prune with both batches does. */
  lemma PruneUpToSplit(log: Log, a: nat, b: nat, now: nat)
    ensures PruneUpTo(PruneUpTo(log, a, now), b, now) == PruneUpTo(log, a + b, now)
  {
    hide PruneEnd, DropTo;
    var mid := PruneEnd(log, now, log.oldest, a);
    PruneEndSplit(log, now, log.oldest, a, b);
    DropOldest(log, mid);
    PruneEndAfterDrop(log, now, mid, mid, b);
    DropTwice(log, mid, PruneEnd(log, now, mid, b));
  }

  lemma DropOldest(log: Log, to: nat)
    ensures DropTo(log, to).oldest == to
  {}

  /** prune(a) then prune(b) is prune(a + b) as long as the batch cap does not bite. */
  lemma PruneSplit(log: Log, a: nat, b: nat, now: nat)
    requires a + b <= MAX_PRUNE_BATCH
    ensures Prune(Prune(log, a, now), b, now) == Prune(log, a + b, now)
  {
    PruneUpToSplit(log, a, b, now);
  }

  // ----- every run ------------------------------------------------------------------------------

  datatype Op =
    | RecordOp(actor: Option<Address>, action: Symbol, details: seq<int>)
    | PruneOp(maxEntries: nat)
    | PolicyOp(isAdmin: bool, policy: Policy)

  datatype Call = Call(op: Op, now: nat)

  function Apply(log: Log, call: Call): Result<Log, AuditError> {
    match call.op
    case RecordOp(actor, action, details) => Record(log, actor, action, details, call.now)
    case PruneOp(maxEntries) => Ok(Prune(log, maxEntries, call.now))
    case PolicyOp(isAdmin, policy) => SetPolicy(log, isAdmin, policy)
  }

  function Step(log: Log, call: Call): Log {
    match Apply(log, call)
    case Ok(next) => next
    case Err(_) => log
  }

  function Run(log: Log, calls: seq<Call>): Log {
    if calls == [] then log else Step(Run(log, calls[..|calls| - 1]), calls[|calls| - 1])
  }

  /** Everything ever recorded, whether or not it is still retained. */
  function Recorded(calls: seq<Call>): seq<Entry> {
    if calls == [] then [] else RecordedWith(Recorded(calls[..|calls| - 1]), calls[|calls| - 1])
  }

  function RecordedWith(all: seq<Entry>, call: Call): seq<Entry> {
    if call.op.RecordOp? && |all| + 1 <= U64_MAX
    then all + [Entry(|all|, call.now, call.op.actor, call.op.action, call.op.details)]
    else all
  }

  ghost predicate Monotone(calls: seq<Call>, from: nat) {
    && (forall i :: 0 <= i < |calls| ==> from <= calls[i].now)
    && (forall i, j :: 0 <= i <= j < |calls| ==> calls[i].now <= calls[j].now)
  }

  function LastTime(calls: seq<Call>, from: nat): nat {
    if calls == [] then from else calls[|calls| - 1].now
  }

  /** The log retains exactly the recorded entries from `oldest` on, unmodified. */
  ghost predicate Retains(log: Log, all: seq<Entry>, now: nat) {
    && log.counter == |all| && log.oldest <= log.counter
    && (forall i :: i in log.entries <==> log.oldest <= i < log.counter)
    && (forall i :: log.oldest <= i < log.counter ==> log.entries[i] == all[i])
    && (forall i, j :: 0 <= i <= j < |all| ==> all[i].timestamp <= all[j].timestamp)
    && (forall i :: 0 <= i < |all| ==> all[i].timestamp <= now && all[i].id == i)
    && PolicyOf(log).maxEntries > 0 && PolicyOf(log).maxAge > 0
  }

  lemma PruneRetains(log: Log, all: seq<Entry>, limit: nat, now: nat)
    requires Retains(log, all, now)
    ensures Retains(PruneUpTo(log, limit, now), all, now)
  {
    hide PruneEnd, Violates;
    PruneEndIsLongest(log, now, log.oldest, limit);
  }

  lemma AppendRetains(log: Log, all: seq<Entry>, before: nat, e: Entry, now: nat)
    requires Retains(log, all, before) && before <= now && e.id == |all| && e.timestamp == now
    ensures Retains(Append(log, e.actor, e.action, e.details, now), all + [e], now)
  {
    var next := Append(log, e.actor, e.action, e.details, now);
    assert next.entries[|all|] == e;
  }

  lemma RetainsLater(log: Log, all: seq<Entry>, before: nat, now: nat)
    requires Retains(log, all, before) && before <= now
    ensures Retains(log, all, now)
  {}

  lemma PolicyRetains(log: Log, all: seq<Entry>, now: nat, isAdmin: bool, policy: Policy)
    requires Retains(log, all, now) && SetPolicy(log, isAdmin, policy).Ok?
    ensures Retains(SetPolicy(log, isAdmin, policy).value, all, now)
  {}

  lemma RetainsCounter(log: Log, all: seq<Entry>, now: nat)
    requires Retains(log, all, now)
    ensures log.counter == |all|
  {}

  lemma StepRetains(log: Log, all: seq<Entry>, before: nat, call: Call)
    requires Retains(log, all, before) && before <= call.now
    ensures Retains(Step(log, call), RecordedWith(all, call), call.now)
  {
    hide PruneUpTo, Append, Retains, SetPolicy;
    RetainsLater(log, all, before, call.now);
    RetainsCounter(log, all, before);
    match call.op
    case RecordOp(actor, action, details) =>
      if |all| + 1 <= U64_MAX {
        AppendRetains(log, all, before, Entry(|all|, call.now, actor, action, details), call.now);
        PruneRetains(Append(log, actor, action, details, call.now), RecordedWith(all, call), AUTO_PRUNE_BATCH,
                     call.now);
      }
    case PruneOp(maxEntries) => PruneRetains(log, all, Min(maxEntries, MAX_PRUNE_BATCH), call.now);
    case PolicyOp(isAdmin, policy) =>
      if SetPolicy(log, isAdmin, policy).Ok? {
        PolicyRetains(log, all, call.now, isAdmin, policy);
      }
  }

  /** In every run the retained log is the contiguous range [oldest, count) of what was recorded, in time order. */
  lemma {:induction false} RunRetains(calls: seq<Call>)
    requires Monotone(calls, 0)
    ensures Retains(Run(EMPTY_LOG, calls), Recorded(calls), LastTime(calls, 0))
  {
    if calls != [] {
      hide Step, RecordedWith, Retains;
      var before, call := calls[..|calls| - 1], calls[|calls| - 1];
      RunRetains(before);
      StepRetains(Run(EMPTY_LOG, before), Recorded(before), LastTime(before, 0), call);
    }
  }

  /** Entries are in time order, so a prune that stops short of its batch leaves nothing the policy forbids. */
  lemma PruneIsExhaustive(log: Log, all: seq<Entry>, limit: nat, now: nat, i: nat)
    requires Retains(log, all, now)
    requires PruneEnd(log, now, log.oldest, limit) < log.oldest + limit
    requires i in PruneUpTo(log, limit, now).entries
    ensures !Violates(PruneUpTo(log, limit, now), i, now)
  {
    hide PruneEnd;
    PruneEndIsLongest(log, now, log.oldest, limit);
    var end := PruneEnd(log, now, log.oldest, limit);
    assert end <= i < log.counter;
    assert !Violates(log, end, now);
    assert all[end].timestamp <= all[i].timestamp;
  }

  /** The policy forbids entry `i` of everything recorded: too many came after it, or it is too old. */
  predicate Outdated(all: seq<Entry>, policy: Policy, i: nat, now: nat)
    requires i < |all|
  {
    |all| - i > policy.maxEntries || now > all[i].timestamp + policy.maxAge
  }

  /** A prune removes exactly the outdated entries among the oldest ones its batch reaches. */
  lemma PruneExactly(log: Log, all: seq<Entry>, maxEntries: nat, now: nat, i: nat)
    requires Retains(log, all, now)
    ensures i in Prune(log, maxEntries, now).entries <==>
            log.oldest <= i < |all| && !(i < log.oldest + Min(maxEntries, 100) && Outdated(all, PolicyOf(log), i, now))
  {
    hide PruneEnd;
    var limit := Min(maxEntries, 100);
    var end := PruneEnd(log, now, log.oldest, limit);
    PruneEndIsLongest(log, now, log.oldest, limit);
    assert forall j :: log.oldest <= j < |all| ==> (Violates(log, j, now) <==> Outdated(all, PolicyOf(log), j, now));
    if end <= i < |all| && end < log.oldest + limit {
      assert !Violates(log, end, now) && all[end].timestamp <= all[i].timestamp;
    }
  }

  /** A log call records its entry and removes exactly the outdated ones among the four oldest. */
  lemma RecordExactly(log: Log, all: seq<Entry>, before: nat, call: Call, i: nat)
    requires Retains(log, all, before) && before <= call.now && call.op.RecordOp? && |all| < U64_MAX
    ensures var next := all + [Entry(|all|, call.now, call.op.actor, call.op.action, call.op.details)];
            && Apply(log, call).Ok? && Step(log, call).counter == |next| && PolicyOf(Step(log, call)) == PolicyOf(log)
            && (i in Step(log, call).entries <==>
                  log.oldest <= i < |next| && !(i < log.oldest + 4 && Outdated(next, PolicyOf(log), i, call.now)))
            && (i in Step(log, call).entries ==> Step(log, call).entries[i] == next[i])
  {
    hide PruneEnd, Retains, Outdated;
    RetainsCounter(log, all, before);
    var e := Entry(|all|, call.now, call.op.actor, call.op.action, call.op.details);
    AppendRetains(log, all, before, e, call.now);
    var appended := Append(log, e.actor, e.action, e.details, call.now);
    PruneExactly(appended, all + [e], 4, call.now, i);
    RetainedAsRecorded(appended, all + [e], call.now, i);
  }

  lemma RetainedAsRecorded(log: Log, all: seq<Entry>, now: nat, i: nat)
    requires Retains(log, all, now)
    ensures i in log.entries ==> i < |all| && log.entries[i] == all[i]
  {}

  /** Until the admin sets another positive policy, entries stay thirty days and at most 256 of them. */
  lemma PolicyExactly(log: Log, isAdmin: bool, policy: Policy, now: nat)
    ensures var call := Call(PolicyOp(isAdmin, policy), now);
            && (Apply(log, call).Ok? <==> isAdmin && policy.maxAge > 0 && policy.maxEntries > 0)
            && (Apply(log, call).Ok? ==> PolicyOf(Step(log, call)) == policy)
            && Step(log, call).entries == log.entries && Step(log, call).oldest == log.oldest
    ensures PolicyOf(EMPTY_LOG) == Policy(30 * 86_400, 256)
  {}

  /** Entries lo..hi are stored as recorded. */
  ghost predicate StoredAs(log: Log, all: seq<Entry>, lo: nat, hi: nat) {
    forall i :: lo <= i < hi ==> i in log.entries && i < |all| && log.entries[i] == all[i] && all[i].id == i
  }

  lemma {:induction false} FilterMembers(log: Log, all: seq<Entry>, action: Symbol, lo: nat, hi: nat)
    requires StoredAs(log, all, lo, hi) && hi <= |all|
    ensures forall x :: x in Filter(log, action, lo, hi) <==> lo <= x.id < hi && x == all[x.id] && x.action == action
    decreases hi
  {
    if lo < hi {
      FilterMembers(log, all, action, lo, hi - 1);
      assert log.entries[hi - 1] == all[hi - 1] && all[hi - 1].id == hi - 1;
    }
  }

  lemma {:induction false} FilterAscends(log: Log, all: seq<Entry>, action: Symbol, lo: nat, hi: nat)
    requires StoredAs(log, all, lo, hi) && hi <= |all|
    ensures IdsAscend(Filter(log, action, lo, hi))
    decreases hi
  {
    if lo < hi {
      FilterAscends(log, all, action, lo, hi - 1);
      FilterMembers(log, all, action, lo, hi - 1);
      hide IdsAscend;
      AppendAscends(Filter(log, action, lo, hi - 1), log.entries[hi - 1]);
    }
  }

  lemma AppendAscends(front: seq<Entry>, x: Entry)
    requires IdsAscend(front) && forall y :: y in front ==> y.id < x.id
    ensures IdsAscend(front + [x])
  {
    forall i, j | 0 <= i < j < |front| + 1 ensures (front + [x])[i].id < (front + [x])[j].id {
      assert front[i] in front;
    }
  }

  /** A query returns exactly the entries with the action in its span, as recorded and in ID order. */
  lemma QueryExact(log: Log, all: seq<Entry>, now: nat, action: Symbol, limit: nat)
    requires Retains(log, all, now)
    ensures log.oldest <= |all|
    ensures var hi := Min(|all|, log.oldest + if limit == 0 then 1000 else Min(limit, 1000));
            var found := Filter(log, action, log.oldest, log.oldest + QuerySpan(log, limit));
            && IdsAscend(found)
            && forall x :: x in found <==> log.oldest <= x.id < hi && x == all[x.id] && x.action == action
  {
    hide Filter, IdsAscend;
    var hi := log.oldest + QuerySpan(log, limit);
    FilterMembers(log, all, action, log.oldest, hi);
    FilterAscends(log, all, action, log.oldest, hi);
  }

  ghost predicate IdsAscend(entries: seq<Entry>) {
    forall i, j :: 0 <= i < j < |entries| ==> entries[i].id < entries[j].id
  }

  // ----- draining a backlog ------------------------------------------------------------------------

  /** Retained entries beyond the capacity. */
  function Excess(log: Log): nat {
    Max(0, log.counter - log.oldest - PolicyOf(log).maxEntries)
  }

  /** Over-capacity entries are pruned whatever their age. */
  lemma {:induction false} PruneEndReaches(log: Log, now: nat, next: nat, limit: nat)
    ensures PruneEnd(log, now, next, limit) >= Min(next + limit, log.counter - PolicyOf(log).maxEntries)
    decreases limit
  {
    if limit > 0 && next < log.counter - PolicyOf(log).maxEntries {
      PruneEndReaches(log, now, next + 1, limit - 1);
    }
  }

  /** The entry a call records survives the pruning of that call. */
  lemma RecordKeepsItsEntry(log: Log, all: seq<Entry>, before: nat, actor: Option<Address>, action: Symbol,
                            details: seq<int>, now: nat)
    requires Retains(log, all, before) && before <= now && log.counter + 1 <= U64_MAX
    ensures var next := Record(log, actor, action, details, now).value;
            && log.counter in next.entries
            && next.entries[log.counter] == Entry(log.counter, now, actor, action, details)
  {
    hide PruneEnd;
    var long := Append(log, actor, action, details, now);
    PruneEndIsLongest(long, now, long.oldest, AUTO_PRUNE_BATCH);
    assert !Violates(long, log.counter, now);
  }

  lemma RecordDrains(log: Log, actor: Option<Address>, action: Symbol, details: seq<int>, now: nat)
    requires log.oldest <= log.counter && log.counter + 1 <= U64_MAX
    ensures Excess(Record(log, actor, action, details, now).value) <= Max(0, Excess(log) - 3)
  {
    hide PruneEnd;
    var long := Append(log, actor, action, details, now);
    PruneEndReaches(long, now, long.oldest, AUTO_PRUNE_BATCH);
  }

  /** How many calls of the run recorded an entry. */
  function RecordCount(log: Log, calls: seq<Call>): nat {
    if calls == [] then 0
    else
      var before, call := calls[..|calls| - 1], calls[|calls| - 1];
      RecordCount(log, before) + if call.op.RecordOp? && Apply(Run(log, before), call).Ok? then 1 else 0
  }

  /** Under a fixed policy every record call takes three entries off a backlog, and no call adds to it. */
  lemma {:induction false} BacklogDrains(log: Log, calls: seq<Call>)
    requires log.oldest <= log.counter
    requires forall i :: 0 <= i < |calls| ==> !calls[i].op.PolicyOp?
    ensures var end := Run(log, calls);
            && end.oldest <= end.counter && PolicyOf(end) == PolicyOf(log)
            && Excess(end) <= Max(0, Excess(log) - 3 * RecordCount(log, calls))
  {
    hide PruneEnd;
    if calls != [] {
      var before, call := calls[..|calls| - 1], calls[|calls| - 1];
      BacklogDrains(log, before);
      var mid := Run(log, before);
      match call.op
      case RecordOp(actor, action, details) =>
        if mid.counter + 1 <= U64_MAX {
          RecordDrains(mid, actor, action, details, call.now);
          PruneEndIsLongest(Append(mid, actor, action, details, call.now), call.now, mid.oldest, AUTO_PRUNE_BATCH);
        }
      case PruneOp(maxEntries) =>
        PruneEndIsLongest(mid, call.now, mid.oldest, Min(maxEntries, MAX_PRUNE_BATCH));
    }
  }

  /** ceil(k / 3) record calls bring a log that is k entries over capacity within it, and it then stays there. */
  lemma BacklogGone(log: Log, calls: seq<Call>)
    requires log.oldest <= log.counter
    requires forall i :: 0 <= i < |calls| ==> !calls[i].op.PolicyOp?
    requires RecordCount(log, calls) >= (Excess(log) + 2) / 3
    ensures Run(log, calls).counter - Run(log, calls).oldest <= PolicyOf(log).maxEntries
  {
    hide Run, RecordCount;
    BacklogDrains(log, calls);
  }
}
