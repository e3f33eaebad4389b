/**
 The event log of a run, read off the calls alone: every record holds what its caller emitted.
 */
module EventHistory {
  import opened Host
  import opened EventModel
  import opened EventProofs

  /** A record without its ID. */
  datatype Content = Content(eventType: Symbol, payload: Payload, version: nat, caller: Address, timestamp: nat)

  function ContentOf(r: EventRecord): Content {
    Content(r.eventType, r.payload, r.version, r.caller, r.timestamp)
  }

  /** The registered event types and their versions. */
  function Registered(calls: seq<Call>): map<Symbol, nat> {
    if calls == [] then
      map[Symbol("system") := 1, Symbol("tutorial") := 1, Symbol("fleet") := 1, Symbol("bounty") := 1]
    else
      var before, op := Registered(calls[..|calls| - 1]), calls[|calls| - 1].op;
      if op.RegisterOp? then before[op.eventType := op.version] else before
  }

  /** What a call emits under the given types: single payloads, or bursts of at most 15, of a registered type. */
  function EmittedBy(call: Call, types: map<Symbol, nat>): seq<Content> {
    match call.op
    case EmitOp(caller, eventType, payload) =>
      if eventType in types then [Content(eventType, payload, types[eventType], caller, call.now)] else []
    case BurstOp(caller, eventType, payloads) =>
      if eventType in types && |payloads| <= 15 then
        seq(|payloads|, i requires 0 <= i < |payloads| =>
          Content(eventType, payloads[i], types[eventType], caller, call.now))
      else []
    case RegisterOp(_, _) => []
  }

  /** Everything emitted so far, as long as the log stays within a u64. */
  function Emitted(calls: seq<Call>): seq<Content> {
    if calls == [] then []
    else
      var before := Emitted(calls[..|calls| - 1]);
      var more := EmittedBy(calls[|calls| - 1], Registered(calls[..|calls| - 1]));
      if |before| + |more| <= U64_MAX then before + more else before
  }

  /** The records are exactly `log`, in order. */
  ghost predicate Logged(e: Events, log: seq<Content>) {
    && e.index == |log| && e.seqNo <= e.index
    && forall i :: 1 <= i <= |log| ==> i in e.records && ContentOf(e.records[i]) == log[i - 1]
  }

  lemma {:induction false} StoredContents(records: map<nat, EventRecord>, caller: Address, eventType: Symbol,
                                          version: nat, payloads: seq<Payload>, first: nat, firstSeq: nat, now: nat)
    ensures var stored := StoreAll(records, caller, eventType, version, payloads, first, firstSeq, now);
            && (forall i :: 0 <= i < |payloads| ==>
                  Stores(stored, first + i, Content(eventType, payloads[i], version, caller, now)))
            && (forall i :: i in records && i < first ==> i in stored && stored[i] == records[i])
  {
    hide IdOf;
    if payloads != [] {
      var n := |payloads| - 1;
      StoredContents(records, caller, eventType, version, payloads[..n], first, firstSeq, now);
      var stored := StoreAll(records, caller, eventType, version, payloads, first, firstSeq, now);
      forall i | 0 <= i < |payloads|
        ensures Stores(stored, first + i, Content(eventType, payloads[i], version, caller, now))
      {
        assert i < n ==> payloads[..n][i] == payloads[i];
      }
    }
  }

  predicate Stores(records: map<nat, EventRecord>, i: nat, c: Content) {
    i in records && ContentOf(records[i]) == c
  }

  lemma EmitLogged(e: Events, log: seq<Content>, call: Call)
    requires Logged(e, log) && call.op.EmitOp?
    ensures var more := EmittedBy(call, e.schemas);
            Logged(Step(e, call), if |log| + |more| <= U64_MAX then log + more else log)
  {
    hide IdOf;
  }

  lemma BurstLogged(e: Events, log: seq<Content>, call: Call)
    requires Logged(e, log) && call.op.BurstOp?
    ensures var more := EmittedBy(call, e.schemas);
            Logged(Step(e, call), if |log| + |more| <= U64_MAX then log + more else log)
  {
    hide StoreAll;
    var BurstOp(caller, eventType, payloads) := call.op;
    var more, t := EmittedBy(call, e.schemas), Step(e, call);
    if more == [] {
      assert log + more == log && t == e;
    } else if |log| + |more| <= U64_MAX {
      StoredContents(e.records, caller, eventType, e.schemas[eventType], payloads, e.index + 1,
                     SeqBefore(e, call.now) + 1, call.now);
      forall i | 1 <= i <= |log| + |more| ensures i in t.records && ContentOf(t.records[i]) == (log + more)[i - 1] {
        if i > |log| {
          var k := i - 1 - |log|;
          assert payloads[k] == more[k].payload && e.index + 1 + k == i;
        }
      }
    }
  }

  lemma StepSchemas(e: Events, call: Call)
    ensures Step(e, call).schemas ==
            if call.op.RegisterOp? then e.schemas[call.op.eventType := call.op.version] else e.schemas
  {
    hide StoreAll, IdOf;
  }

  /** After every run the records hold, in order, exactly what the calls emitted. */
  lemma {:induction false} LogIsEmitted(start: nat, calls: seq<Call>)
    ensures Logged(Run(start, calls), Emitted(calls)) && Run(start, calls).schemas == Registered(calls)
  {
    if calls != [] {
      hide Step, Logged, EmittedBy;
      var before, call := calls[..|calls| - 1], calls[|calls| - 1];
      LogIsEmitted(start, before);
      var e := Run(start, before);
      StepSchemas(e, call);
      match call.op
      case EmitOp(_, _, _) => EmitLogged(e, Emitted(before), call);
      case BurstOp(_, _, _) => BurstLogged(e, Emitted(before), call);
      case RegisterOp(_, _) => RegisterLogged(e, Emitted(before), call);
    }
  }

  lemma RegisterLogged(e: Events, log: seq<Content>, call: Call)
    requires Logged(e, log) && call.op.RegisterOp?
    ensures EmittedBy(call, e.schemas) == [] && log + [] == log && Logged(Step(e, call), log)
  {}

  // ----- queries ---------------------------------------------------------------------------------

  /** The emitted contents of a type, or all of them, newest first. */
  function Newest(log: seq<Content>, filter: Symbol): seq<Content> {
    if log == [] then []
    else
      var last := log[|log| - 1];
      (if filter == Symbol("all") || last.eventType == filter then [last] else []) + Newest(log[..|log| - 1], filter)
  }

  function Contents(records: seq<EventRecord>): seq<Content> {
    seq(|records|, i requires 0 <= i < |records| => ContentOf(records[i]))
  }

  lemma {:induction false} ScanIsNewest(e: Events, log: seq<Content>, filter: Symbol, hi: nat)
    requires Logged(e, log) && hi <= |log|
    ensures Contents(NewestFirst(e, filter, 0, hi)) == Newest(log[..hi], filter)
  {
    if hi > 0 {
      ScanIsNewest(e, log, filter, hi - 1);
      assert log[..hi][..hi - 1] == log[..hi - 1] && log[..hi][hi - 1] == log[hi - 1];
      assert ContentOf(e.records[hi]) == log[hi - 1];
    }
  }

  /** After every run a query returns the newest emitted contents of its type, at most min(limit, 100) of them. */
  lemma QueryExactly(start: nat, calls: seq<Call>, filter: Symbol, limit: nat)
    ensures var e := Run(start, calls);
            Contents(Take(NewestFirst(e, filter, 0, e.index), Min(limit, MAX_QUERY))) ==
            var found := Newest(Emitted(calls), filter); found[..Min(|found|, Min(limit, 100))]
  {
    hide Run, NewestFirst, Newest, Emitted;
    LogIsEmitted(start, calls);
    ScanIsNewest(Run(start, calls), Emitted(calls), filter, |Emitted(calls)|);
    assert Emitted(calls)[..|Emitted(calls)|] == Emitted(calls);
  }
}
