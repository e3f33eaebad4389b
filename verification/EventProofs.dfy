/**
 Bursts refine single emissions, and when IDs strictly increase.
 */
module EventProofs {
  import opened Host
  import opened Arith
  import opened EventModel

  // ----- a burst is the same as single emissions ----------------------------------------------

  lemma {:induction false} EachStores(e: Events, caller: Address, eventType: Symbol, payloads: seq<Payload>, now: nat)
    requires eventType in e.schemas && Fits(e, now, |payloads|) && payloads != []
    ensures EmitEach(e, caller, eventType, payloads, now) ==
            Ok(Reserve(e, now, |payloads|).(records :=
              StoreAll(e.records, caller, eventType, e.schemas[eventType], payloads, e.index + 1,
                       SeqBefore(e, now) + 1, now)))
  {
    var n := |payloads| - 1;
    if n > 0 {
      EachStores(e, caller, eventType, payloads[..n], now);
    }
  }

  /**
   Emitting a burst within the size limit leaves the same records, indices, IDs and counters as emitting
   its payloads one by one, and fails for the same reason.
   */
  lemma BurstIsSingles(e: Events, caller: Address, eventType: Symbol, payloads: seq<Payload>, now: nat)
    ensures EmitBurst(e, caller, eventType, payloads, now) ==
            if |payloads| > MAX_BURST_EVENTS then Err(LimitTooLarge) else EmitEach(e, caller, eventType, payloads, now)
  {
    if 0 < |payloads| <= MAX_BURST_EVENTS {
      if eventType !in e.schemas {
        EachFails(e, caller, eventType, payloads, now);
      } else if Fits(e, now, |payloads|) {
        EachStores(e, caller, eventType, payloads, now);
      } else {
        EachOverflows(e, caller, eventType, payloads, now);
      }
    }
  }

  lemma {:induction false} EachOverflows(e: Events, caller: Address, eventType: Symbol, payloads: seq<Payload>,
                                         now: nat)
    requires eventType in e.schemas && payloads != [] && !Fits(e, now, |payloads|)
    ensures EmitEach(e, caller, eventType, payloads, now) == Err(HostPanic)
  {
    var before := payloads[..|payloads| - 1];
    if before != [] {
      if Fits(e, now, |before|) {
        EachStores(e, caller, eventType, before, now);
      } else {
        EachOverflows(e, caller, eventType, before, now);
      }
    }
  }

  lemma {:induction false} EachFails(e: Events, caller: Address, eventType: Symbol, payloads: seq<Payload>, now: nat)
    requires eventType !in e.schemas && payloads != []
    ensures EmitEach(e, caller, eventType, payloads, now) == Err(InvalidEventType)
  {
    if |payloads| > 1 {
      EachFails(e, caller, eventType, payloads[..|payloads| - 1], now);
    }
  }

  /** The i-th record of a burst has the first one's ID plus i, exactly as long as the ID fits a u64. */
  lemma BurstIdsConsecutive(now: nat, firstSeq: nat, i: nat)
    ensures IdOf(now, firstSeq + i) == IdOf(now, firstSeq) + i <==>
            i == 0 || now * IDS_PER_TIMESTAMP + firstSeq + i <= U64_MAX
  {}

  // ----- the log of a run --------------------------------------------------------------------------

  datatype Op =
    | EmitOp(caller: Address, eventType: Symbol, payload: Payload)
    | BurstOp(caller: Address, eventType: Symbol, payloads: seq<Payload>)
    | RegisterOp(eventType: Symbol, version: nat)

  datatype Call = Call(op: Op, now: nat)

  function Apply(e: Events, call: Call): Result<Events, EventError> {
    match call.op
    case EmitOp(caller, eventType, payload) => Emit(e, caller, eventType, payload, call.now)
    case BurstOp(caller, eventType, payloads) => EmitBurst(e, caller, eventType, payloads, call.now)
    case RegisterOp(eventType, version) => Ok(Register(e, eventType, version))
  }

  function Step(e: Events, call: Call): Events {
    match Apply(e, call)
    case Ok(next) => next
    case Err(_) => e
  }

  function Run(start: nat, calls: seq<Call>): Events {
    if calls == [] then Seeded(start) else Step(Run(start, calls[..|calls| - 1]), calls[|calls| - 1])
  }

  ghost predicate Monotone(start: nat, calls: seq<Call>) {
    && (forall i :: 0 <= i < |calls| ==> start <= calls[i].now)
    && (forall i, j :: 0 <= i <= j < |calls| ==> calls[i].now <= calls[j].now)
  }

  function LastTime(start: nat, calls: seq<Call>): nat {
    if calls == [] then start else calls[|calls| - 1].now
  }

  /** Where a record stands among those of its timestamp, from 1. */
  function SeqAt(log: seq<EventRecord>, i: nat): nat
    requires i < |log|
  {
    if i == 0 || log[i - 1].timestamp != log[i].timestamp then 1 else SeqAt(log, i - 1) + 1
  }

  ghost predicate WellNumbered(log: seq<EventRecord>) {
    && (forall i :: 0 <= i < |log| ==> log[i].id == IdOf(log[i].timestamp, SeqAt(log, i)))
    && (forall i, j :: 0 <= i <= j < |log| ==> log[i].timestamp <= log[j].timestamp)
  }

  /** The records at 1..index are `log`, and the counters describe its end. */
  ghost predicate Holds(e: Events, log: seq<EventRecord>, now: nat) {
    && e.index == |log| && e.lastTs <= now
    && (forall i :: i in e.records <==> 1 <= i <= |log|)
    && (forall i :: 1 <= i <= |log| ==> e.records[i] == log[i - 1])
    && WellNumbered(log)
    && (if log == [] then e.seqNo == 0
        else e.lastTs == log[|log| - 1].timestamp && e.seqNo == SeqAt(log, |log| - 1))
  }

  lemma {:induction false} SeqAtAppend(log: seq<EventRecord>, r: EventRecord, i: nat)
    requires i < |log|
    ensures SeqAt(log + [r], i) == SeqAt(log, i)
  {
    if i > 0 {
      SeqAtAppend(log, r, i - 1);
    }
  }

  lemma AppendWellNumbered(log: seq<EventRecord>, r: EventRecord)
    requires WellNumbered(log) && (log != [] ==> log[|log| - 1].timestamp <= r.timestamp)
    requires r.id == IdOf(r.timestamp, SeqAt(log + [r], |log|))
    ensures WellNumbered(log + [r])
  {
    hide IdOf, SeqAt;
    forall i: nat | i < |log| ensures SeqAt(log + [r], i) == SeqAt(log, i) {
      SeqAtAppend(log, r, i);
    }
  }

  lemma SeqAtEnd(log: seq<EventRecord>, r: EventRecord)
    ensures SeqAt(log + [r], |log|) ==
            if log != [] && log[|log| - 1].timestamp == r.timestamp then SeqAt(log, |log| - 1) + 1 else 1
  {
    if log != [] {
      SeqAtAppend(log, r, |log| - 1);
    }
  }

  lemma EmitHolds(e: Events, log: seq<EventRecord>, before: nat, caller: Address, eventType: Symbol, payload: Payload,
                  now: nat)
    requires Holds(e, log, before) && before <= now && Emit(e, caller, eventType, payload, now).Ok?
    ensures var next := Emit(e, caller, eventType, payload, now).value;
            e.index + 1 in next.records && Holds(next, log + [next.records[e.index + 1]], now)
  {
    hide IdOf, WellNumbered, SeqAt;
    var next := Emit(e, caller, eventType, payload, now).value;
    var r := next.records[e.index + 1];
    SeqAtEnd(log, r);
    AppendWellNumbered(log, r);
  }

  lemma {:induction false} EachHolds(e: Events, log: seq<EventRecord>, before: nat, caller: Address,
                                     eventType: Symbol, payloads: seq<Payload>, now: nat)
    returns (log': seq<EventRecord>)
    requires Holds(e, log, before) && before <= now && EmitEach(e, caller, eventType, payloads, now).Ok?
    ensures log <= log' && |log'| == |log| + |payloads|
    ensures Holds(EmitEach(e, caller, eventType, payloads, now).value, log', now)
  {
    hide Holds, Emit;
    log' := log;
    if payloads == [] {
      HoldsLater(e, log, before, now);
    } else {
      var n := |payloads| - 1;
      var mid := EachHolds(e, log, before, caller, eventType, payloads[..n], now);
      var e' := EmitEach(e, caller, eventType, payloads[..n], now).value;
      EmitHolds(e', mid, now, caller, eventType, payloads[n], now);
      log' := mid + [Emit(e', caller, eventType, payloads[n], now).value.records[e'.index + 1]];
    }
  }

  lemma HoldsLater(e: Events, log: seq<EventRecord>, before: nat, now: nat)
    requires Holds(e, log, before) && before <= now
    ensures Holds(e, log, now)
  {}

  lemma RegisterHolds(e: Events, log: seq<EventRecord>, now: nat, eventType: Symbol, version: nat)
    requires Holds(e, log, now)
    ensures Holds(Register(e, eventType, version), log, now)
  {}

  lemma StepHolds(e: Events, log: seq<EventRecord>, before: nat, call: Call) returns (log': seq<EventRecord>)
    requires Holds(e, log, before) && before <= call.now
    ensures log <= log' && Holds(Step(e, call), log', call.now)
  {
    hide Holds, Emit, EmitEach;
    HoldsLater(e, log, before, call.now);
    log' := log;
    match call.op
    case EmitOp(caller, eventType, payload) =>
      if Emit(e, caller, eventType, payload, call.now).Ok? {
        EmitHolds(e, log, before, caller, eventType, payload, call.now);
        log' := log + [Emit(e, caller, eventType, payload, call.now).value.records[e.index + 1]];
      }
    case BurstOp(caller, eventType, payloads) =>
      if EmitBurst(e, caller, eventType, payloads, call.now).Ok? && payloads != [] {
        BurstIsSingles(e, caller, eventType, payloads, call.now);
        log' := EachHolds(e, log, before, caller, eventType, payloads, call.now);
      }
    case RegisterOp(eventType, version) =>
      RegisterHolds(e, log, call.now, eventType, version);
  }

  /** The log of records written so far, in index order. */
  function LogOf(e: Events): seq<EventRecord>
    requires forall i :: 1 <= i <= e.index ==> i in e.records
  {
    seq(e.index, i requires 0 <= i < e.index => e.records[i + 1])
  }

  /** In every run the records are dense from 1 and well numbered. */
  lemma {:induction false} RunHolds(start: nat, calls: seq<Call>)
    requires Monotone(start, calls)
    ensures forall i :: i in Run(start, calls).records <==> 1 <= i <= Run(start, calls).index
    ensures Holds(Run(start, calls), LogOf(Run(start, calls)), LastTime(start, calls))
  {
    var log := [];
    if calls != [] {
      hide Step, WellNumbered, SeqAt;
      var before := calls[..|calls| - 1];
      RunHolds(start, before);
      log := StepHolds(Run(start, before), LogOf(Run(start, before)), LastTime(start, before), calls[|calls| - 1]);
    }
    assert Holds(Run(start, calls), log, LastTime(start, calls));
    assert LogOf(Run(start, calls)) == log;
  }

  // ----- when IDs strictly increase -------------------------------------------------------------------

  ghost predicate StrictlyIncreasing(log: seq<EventRecord>) {
    forall i, j :: 0 <= i < j < |log| ==> log[i].id < log[j].id
  }

  /** Before saturation. */
  function RawId(log: seq<EventRecord>, i: nat): nat
    requires i < |log|
  {
    log[i].timestamp * IDS_PER_TIMESTAMP + SeqAt(log, i)
  }

  /** The records of a timestamp do not reach into the IDs of the next one used, nor saturate before the end. */
  predicate RoomAfter(log: seq<EventRecord>, i: nat)
    requires i + 1 < |log|
  {
    && RawId(log, i) < U64_MAX
    && (log[i].timestamp == log[i + 1].timestamp ||
        SeqAt(log, i) <= (log[i + 1].timestamp - log[i].timestamp) * IDS_PER_TIMESTAMP)
  }

  lemma IdIsRaw(timestamp: nat, seqNo: nat)
    ensures IdOf(timestamp, seqNo) == Min(timestamp * IDS_PER_TIMESTAMP + seqNo, U64_MAX)
  {}

  predicate Rises(log: seq<EventRecord>, i: nat)
    requires i + 1 < |log|
  {
    log[i].id < log[i + 1].id
  }

  lemma NeighboursIncrease(log: seq<EventRecord>, i: nat)
    requires WellNumbered(log) && i + 1 < |log|
    ensures Rises(log, i) <==> RoomAfter(log, i)
  {
    hide IdOf;
    IdIsRaw(log[i].timestamp, SeqAt(log, i));
    IdIsRaw(log[i + 1].timestamp, SeqAt(log, i + 1));
    assert log[i].timestamp <= log[i + 1].timestamp;
  }

  lemma {:induction false} NeighboursSuffice(log: seq<EventRecord>, i: nat, j: nat)
    requires i < j < |log| && forall k: nat :: k + 1 < |log| ==> Rises(log, k)
    ensures log[i].id < log[j].id
    decreases j
  {
    assert Rises(log, j - 1);
    if i + 1 < j {
      NeighboursSuffice(log, i, j - 1);
    }
  }

  lemma IncreasingExactly(log: seq<EventRecord>)
    requires WellNumbered(log)
    ensures StrictlyIncreasing(log) <==> forall i: nat :: i + 1 < |log| ==> RoomAfter(log, i)
  {
    hide RoomAfter, WellNumbered;
    forall i: nat | i + 1 < |log| ensures Rises(log, i) <==> RoomAfter(log, i) {
      NeighboursIncrease(log, i);
    }
    if forall i: nat :: i + 1 < |log| ==> RoomAfter(log, i) {
      forall i, j | 0 <= i < j < |log| ensures log[i].id < log[j].id {
        hide Rises;
        NeighboursSuffice(log, i, j);
      }
    }
  }

  /** The IDs of a run strictly increase exactly when every timestamp leaves room for its records. */
  lemma IdsIncreaseExactly(start: nat, calls: seq<Call>)
    requires Monotone(start, calls)
    ensures forall i :: 1 <= i <= Run(start, calls).index ==> i in Run(start, calls).records
    ensures var log := LogOf(Run(start, calls));
            StrictlyIncreasing(log) <==> forall i: nat :: i + 1 < |log| ==> RoomAfter(log, i)
  {
    RunHolds(start, calls);
    hide Run, RoomAfter, StrictlyIncreasing, WellNumbered;
    IncreasingExactly(LogOf(Run(start, calls)));
  }

  function Emission(t: nat): Call {
    Call(EmitOp(Address(0), Symbol("system"), []), t)
  }

  function Emissions(t: nat, n: nat): seq<Call> {
    seq(n, _ => Emission(t))
  }

  /** n emissions at one timestamp are numbered 1 to n. */
  lemma {:induction false} EmissionsNumbered(start: nat, t: nat, n: nat)
    requires n <= U64_MAX
    ensures var e := Run(start, Emissions(t, n));
            && e.index == n && SeqBefore(e, t) == n && Symbol("system") in e.schemas
            && (n > 0 ==> e.lastTs == t)
            && forall i :: 1 <= i <= n ==> i in e.records && e.records[i].id == IdOf(t, i)
  {
    hide IdOf;
    if n > 0 {
      assert Emissions(t, n)[..n - 1] == Emissions(t, n - 1);
      EmissionsNumbered(start, t, n - 1);
    }
  }

  /** A run of a million and one records in one second and one in the next, in which two records share an ID. */
  lemma TooManyRecordsCollide(start: nat, t: nat) returns (calls: seq<Call>)
    requires start <= t
    ensures Monotone(start, calls) && |calls| == IDS_PER_TIMESTAMP + 2
    ensures var e := Run(start, calls);
            && e.index == IDS_PER_TIMESTAMP + 2
            && (forall i :: 1 <= i <= e.index ==> i in e.records)
            && e.records[IDS_PER_TIMESTAMP + 1].id == e.records[IDS_PER_TIMESTAMP + 2].id
            && !StrictlyIncreasing(LogOf(e))
  {
    hide StrictlyIncreasing, IdOf;
    var n := IDS_PER_TIMESTAMP + 1;
    EmissionsNumbered(start, t, n);
    calls := Emissions(t, n) + [Emission(t + 1)];
    assert calls[..n] == Emissions(t, n);
    hide Run;
    var before, e := Run(start, Emissions(t, n)), Run(start, calls);
    assert e == Step(before, Emission(t + 1)) by { LastCall(start, calls); }
    SameId(t);
    NotIncreasing(LogOf(e), n - 1);
  }

  lemma LastCall(start: nat, calls: seq<Call>)
    requires calls != []
    ensures Run(start, calls) == Step(Run(start, calls[..|calls| - 1]), calls[|calls| - 1])
  {}

  lemma SameId(t: nat)
    ensures IdOf(t, IDS_PER_TIMESTAMP + 1) == IdOf(t + 1, 1)
  {
    assert (t + 1) * IDS_PER_TIMESTAMP == t * IDS_PER_TIMESTAMP + IDS_PER_TIMESTAMP;
  }

  lemma NotIncreasing(log: seq<EventRecord>, i: nat)
    requires i + 1 < |log| && log[i].id == log[i + 1].id
    ensures !StrictlyIncreasing(log)
  {}

  /** In particular IDs increase when no timestamp has more than a million records and no ID saturates. */
  lemma MillionPerTimestampIncreases(log: seq<EventRecord>)
    requires WellNumbered(log)
    requires forall i: nat :: i + 1 < |log| ==> SeqAt(log, i) <= IDS_PER_TIMESTAMP && RawId(log, i) < U64_MAX
    ensures StrictlyIncreasing(log)
  {
    hide StrictlyIncreasing, RoomAfter;
    IncreasingExactly(log);
    forall i: nat | i + 1 < |log| ensures RoomAfter(log, i) {
      MillionPerTimestampSuffices(log, i);
    }
  }

  lemma MillionPerTimestampSuffices(log: seq<EventRecord>, i: nat)
    requires WellNumbered(log) && i + 1 < |log|
    requires SeqAt(log, i) <= IDS_PER_TIMESTAMP && RawId(log, i) < U64_MAX
    ensures RoomAfter(log, i)
  {
    assert log[i].timestamp <= log[i + 1].timestamp;
    if log[i].timestamp < log[i + 1].timestamp {
      MulMono(IDS_PER_TIMESTAMP, 1, log[i + 1].timestamp - log[i].timestamp);
    }
  }

  // ----- queries -------------------------------------------------------------------------------------------

  lemma {:induction false} NewestFirstExtends(e: Events, filter: Symbol, lo: nat, hi: nat)
    requires 0 < lo <= hi
    ensures NewestFirst(e, filter, lo - 1, hi) == NewestFirst(e, filter, lo, hi) + NewestFirst(e, filter, lo - 1, lo)
    decreases hi
  {
    if lo < hi {
      NewestFirstExtends(e, filter, lo, hi - 1);
    }
  }

  /** A scan that has come down to `lo` holds the first of the matching records. */
  lemma {:induction false} NewestFirstPrefix(e: Events, filter: Symbol, lo: nat, hi: nat)
    requires lo <= hi
    ensures NewestFirst(e, filter, lo, hi) <= NewestFirst(e, filter, 0, hi)
    decreases lo
  {
    if lo > 0 {
      NewestFirstExtends(e, filter, lo, hi);
      NewestFirstPrefix(e, filter, lo - 1, hi);
    }
  }

  /** The records of a sequence that pass the filter, in order. */
  function Matching(records: seq<EventRecord>, filter: Symbol): seq<EventRecord> {
    if records == [] then []
    else
      var first := if filter == Symbol("all") || records[0].eventType == filter then [records[0]] else [];
      first + Matching(records[1..], filter)
  }

  function Backwards(log: seq<EventRecord>): seq<EventRecord> {
    seq(|log|, i requires 0 <= i < |log| => log[|log| - 1 - i])
  }

  /** A query reads the log backwards and keeps what matches. */
  lemma {:induction false} QueryIsFilteredLog(e: Events, log: seq<EventRecord>, now: nat, filter: Symbol, hi: nat)
    requires Holds(e, log, now) && hi <= |log|
    ensures NewestFirst(e, filter, 0, hi) == Matching(Backwards(log[..hi]), filter)
    decreases hi
  {
    hide WellNumbered;
    if hi > 0 {
      QueryIsFilteredLog(e, log, now, filter, hi - 1);
      var b := Backwards(log[..hi]);
      assert b[0] == log[hi - 1] && b[1..] == Backwards(log[..hi - 1]);
    }
  }
}
