/**
 The event framework as the contract runs it: a counter record advanced by each reservation, records
 written in a loop and a backwards scan for queries.
 */
module EventContract {
  import opened Host
  import opened EventModel
  import opened EventProofs

  class EventFramework {
    var records: map<nat, EventRecord>
    var index: nat
    var lastTs: nat
    var seqNo: nat
    var schemas: map<Symbol, nat>

    ghost function Model(): Events
      reads this
    {
      Events(records, index, lastTs, seqNo, schemas)
    }

    constructor (now: nat)
      ensures Model() == EventModel.Seeded(now)
    {
      records, index, lastTs, seqNo := map[], 0, now, 0;
      schemas := map[Symbol("system") := 1, Symbol("tutorial") := 1, Symbol("fleet") := 1, Symbol("bounty") := 1];
    }

    /** Reserve `n` consecutive slots; the caller has checked that the counters have room. */
    method ReserveSlots(now: nat, n: nat) returns (firstIndex: nat, firstSeq: nat)
      modifies this`index, this`lastTs, this`seqNo
      ensures Model() == Reserve(old(Model()), now, n)
      ensures firstIndex == old(index) + 1 && firstSeq == SeqBefore(old(Model()), now) + 1
    {
      if lastTs != now {
        lastTs := now;
        seqNo := 0;
      }
      firstIndex, firstSeq := index + 1, seqNo + 1;
      index, seqNo := index + n, seqNo + n;
    }

    method StoreEvent(caller: Address, eventType: Symbol, payload: Payload, version: nat, slot: nat, seqInTs: nat,
                      now: nat)
      returns (id: nat)
      modifies this`records
      ensures id == IdOf(now, seqInTs)
      ensures records == old(records)[slot := EventRecord(id, eventType, payload, version, caller, now)]
    {
      id := Min(now * IDS_PER_TIMESTAMP, U64_MAX);
      id := Min(id + seqInTs, U64_MAX);
      records := records[slot := EventRecord(id, eventType, payload, version, caller, now)];
    }

    method EmitStandardEvent(caller: Address, eventType: Symbol, payload: Payload, now: nat)
      returns (r: Result<nat, EventError>)
      modifies this
      ensures match Emit(old(Model()), caller, eventType, payload, now)
              case Ok(e) => Model() == e && index in records && r == Ok(records[index].id)
              case Err(error) => r == Err(error) && Model() == old(Model())
    {
      hide IdOf;
      if eventType !in schemas {
        return Err(InvalidEventType);
      }
      if index + 1 > U64_MAX || (if lastTs != now then 0 else seqNo) + 1 > U64_MAX {
        return Err(HostPanic);
      }
      var slot, seqInTs := ReserveSlots(now, 1);
      var id := StoreEvent(caller, eventType, payload, schemas[eventType], slot, seqInTs, now);
      r := Ok(id);
    }

    method EmitStandardEventBurst(caller: Address, eventType: Symbol, payloads: seq<Payload>, now: nat)
      returns (r: Result<nat, EventError>)
      modifies this
      ensures match EmitBurst(old(Model()), caller, eventType, payloads, now)
              case Ok(e) => Model() == e && r == Ok(|payloads|)
              case Err(error) => r == Err(error) && Model() == old(Model())
    {
      hide IdOf;
      if |payloads| > MAX_BURST_EVENTS {
        return Err(LimitTooLarge);
      }
      if |payloads| == 0 {
        return Ok(0);
      }
      if eventType !in schemas {
        return Err(InvalidEventType);
      }
      if index + |payloads| > U64_MAX || (if lastTs != now then 0 else seqNo) + |payloads| > U64_MAX {
        return Err(HostPanic);
      }
      ghost var was := records;
      var version := schemas[eventType];
      var firstIndex, firstSeq := ReserveSlots(now, |payloads|);
      for i := 0 to |payloads|
        invariant records == StoreAll(was, caller, eventType, version, payloads[..i], firstIndex, firstSeq, now)
        invariant Model() == Reserve(old(Model()), now, |payloads|).(records := records)
      {
        assert payloads[..i + 1][..i] == payloads[..i];
        var _ := StoreEvent(caller, eventType, payloads[i], version, firstIndex + i, firstSeq + i, now);
      }
      assert payloads[..|payloads|] == payloads;
      r := Ok(|payloads|);
    }

    /** The newest matching records, at most the smaller of `limit` and 100. */
    method QueryRecentEvents(filter: Symbol, limit: nat) returns (out: seq<EventRecord>)
      ensures out == Take(NewestFirst(Model(), filter, 0, index), Min(limit, MAX_QUERY))
    {
      out := [];
      if limit == 0 {
        return;
      }
      hide NewestFirst;
      var max := if limit > MAX_QUERY then MAX_QUERY else limit;
      var scanned := 0;
      NothingScanned(Model(), filter);
      while scanned < index && |out| < max
        invariant scanned <= index && |out| <= max && out == NewestFirst(Model(), filter, index - scanned, index)
      {
        var current := index - scanned;
        NewestFirstExtends(Model(), filter, current, index);
        OneScanned(Model(), filter, current);
        if current in records {
          if filter == ALL || records[current].eventType == filter {
            out := out + [records[current]];
          }
        }
        scanned := scanned + 1;
      }
      NewestFirstPrefix(Model(), filter, index - scanned, index);
    }
  }

  lemma NothingScanned(e: Events, filter: Symbol)
    ensures NewestFirst(e, filter, e.index, e.index) == []
  {}

  lemma OneScanned(e: Events, filter: Symbol, i: nat)
    requires i > 0
    ensures NewestFirst(e, filter, i - 1, i) ==
            if i in e.records && Wanted(e.records[i], filter) then [e.records[i]] else []
  {
    assert NewestFirst(e, filter, i - 1, i - 1) == [];
  }
}
