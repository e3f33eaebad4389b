/**
 The event record framework as a value: one counter entry, indexed records and registered schemas.
 */
module EventModel {
  import opened Host

  const MAX_BURST_EVENTS: nat := 15
  const MAX_QUERY: nat := 100
  const IDS_PER_TIMESTAMP: nat := 1_000_000
  const ALL := Symbol("all")

  datatype EventError = InvalidEventType | LimitTooLarge | HostPanic

  type Payload = seq<int>

  datatype EventRecord = EventRecord(id: nat, eventType: Symbol, payload: Payload, version: nat, caller: Address,
                                     timestamp: nat)

  /** `seqNo` counts the records at `lastTs`. */
  datatype Events = Events(
    records: map<nat, EventRecord>,
    index: nat,
    lastTs: nat,
    seqNo: nat,
    schemas: map<Symbol, nat>)

  /** The framework as `init_event_framework` leaves it. */
  function Seeded(now: nat): Events {
    Events(map[], 0, now, 0,
           map[Symbol("system") := 1, Symbol("tutorial") := 1, Symbol("fleet") := 1, Symbol("bounty") := 1])
  }

  function IdOf(timestamp: nat, seqNo: nat): nat {
    Min(Min(timestamp * IDS_PER_TIMESTAMP, U64_MAX) + seqNo, U64_MAX)
  }

  /** The sequence number before the next record at `now`. */
  function SeqBefore(e: Events, now: nat): nat {
    if e.lastTs != now then 0 else e.seqNo
  }

  predicate Fits(e: Events, now: nat, n: nat) {
    e.index + n <= U64_MAX && SeqBefore(e, now) + n <= U64_MAX
  }

  function Reserve(e: Events, now: nat, n: nat): Events {
    e.(index := e.index + n, lastTs := now, seqNo := SeqBefore(e, now) + n)
  }

  /** Write `payloads` at consecutive indices and sequence numbers from the given ones on. */
  function StoreAll(records: map<nat, EventRecord>, caller: Address, eventType: Symbol, version: nat,
                    payloads: seq<Payload>, firstIndex: nat, firstSeq: nat, now: nat): map<nat, EventRecord>
  {
    if payloads == [] then records
    else
      var n := |payloads| - 1;
      StoreAll(records, caller, eventType, version, payloads[..n], firstIndex, firstSeq, now)
        [firstIndex + n := EventRecord(IdOf(now, firstSeq + n), eventType, payloads[n], version, caller, now)]
  }

  function Emit(e: Events, caller: Address, eventType: Symbol, payload: Payload, now: nat): Result<Events, EventError> {
    if eventType !in e.schemas then Err(InvalidEventType)
    else if !Fits(e, now, 1) then Err(HostPanic)
    else
      var id := IdOf(now, SeqBefore(e, now) + 1);
      var record := EventRecord(id, eventType, payload, e.schemas[eventType], caller, now);
      Ok(Reserve(e, now, 1).(records := e.records[e.index + 1 := record]))
  }

  function EmitBurst(e: Events, caller: Address, eventType: Symbol, payloads: seq<Payload>, now: nat)
    : Result<Events, EventError>
  {
    if |payloads| > MAX_BURST_EVENTS then Err(LimitTooLarge)
    else if payloads == [] then Ok(e)
    else if eventType !in e.schemas then Err(InvalidEventType)
    else if !Fits(e, now, |payloads|) then Err(HostPanic)
    else Ok(Reserve(e, now, |payloads|).(records :=
      StoreAll(e.records, caller, eventType, e.schemas[eventType], payloads, e.index + 1, SeqBefore(e, now) + 1, now)))
  }

  /** The same payloads emitted one by one; the first failure stops. */
  function EmitEach(e: Events, caller: Address, eventType: Symbol, payloads: seq<Payload>, now: nat)
    : Result<Events, EventError>
  {
    if payloads == [] then Ok(e)
    else match EmitEach(e, caller, eventType, payloads[..|payloads| - 1], now)
      case Err(error) => Err(error)
      case Ok(mid) => Emit(mid, caller, eventType, payloads[|payloads| - 1], now)
  }

  function Register(e: Events, eventType: Symbol, version: nat): Events {
    e.(schemas := e.schemas[eventType := version])
  }

  predicate Wanted(r: EventRecord, filter: Symbol) {
    filter == ALL || r.eventType == filter
  }

  /** The matching records with lo < index <= hi, newest first. */
  function NewestFirst(e: Events, filter: Symbol, lo: nat, hi: nat): seq<EventRecord> {
    if hi <= lo then []
    else
      var newest := if hi in e.records && Wanted(e.records[hi], filter) then [e.records[hi]] else [];
      newest + NewestFirst(e, filter, lo, hi - 1)
  }

  function Take(records: seq<EventRecord>, n: nat): seq<EventRecord> {
    if |records| <= n then records else records[..n]
  }
}
