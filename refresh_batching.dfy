/**
 The batching of last-refresh timestamps, stated on values.

 A store accumulates `sessionId -> SessionData` entries and, when a check finds
 that the accumulator has reached `maxCount` entries or that
 `lastRun + maxIntervalBetweenMessagesSeconds <= currentTime`, detaches the whole
 accumulator as one batch, installs an empty one and sets `lastRun` to the
 current time. The class in module RefreshStore is proved against these
 functions; the lemmas in module RefreshBatchingProperties are about them.
 */
module RefreshBatching {

  import opened Wrappers

  const INT32_MIN: int := -0x8000_0000
  const INT32_MAX: int := 0x7fff_ffff
  const TWO_POW_32: int := 0x1_0000_0000

  /** Java's `int`. */
  type int32 = x: int | INT32_MIN <= x <= INT32_MAX

  /** Java's `a + b` on `int`: the exact sum, wrapped around into 32 bits. */
  function AddInt32(a: int32, b: int32): (r: int32)
    ensures INT32_MIN <= a + b <= INT32_MAX ==> r == a + b
    ensures a + b > INT32_MAX ==> r == a + b - TWO_POW_32
    ensures a + b < INT32_MIN ==> r == a + b + TWO_POW_32
  {
    (a + b - INT32_MIN) % TWO_POW_32 + INT32_MIN
  }

  /** The value stored per session: the realm and the refresh time. */
  datatype SessionData = SessionData(realmId: string, lastSessionRefresh: int32)

  type Refreshes = map<string, SessionData>

  /** The three parameters fixed when a store is constructed. */
  datatype StoreConfig = StoreConfig(maxIntervalBetweenMessagesSeconds: int32, maxCount: int32, eventKey: string)

  /** One message handed to the cluster: the event key and the detached map. */
  datatype Batch = Batch(eventKey: string, refreshes: Refreshes)

  /** The mutable part of a store: the live map and the time of the last flush. */
  datatype StoreState = StoreState(lastSessionRefreshes: Refreshes, lastRun: int32)

  /** The state after an operation and the batches it sent, in order. */
  datatype Transition = Transition(next: StoreState, sent: seq<Batch>)

  /**
   The primitive steps a store takes: an upsert into the live map, and a flush
   check at a given time. One `putLastSessionRefresh` is an upsert followed by a
   check at the recorded refresh time.
   */
  datatype Event = Upserted(sessionId: string, data: SessionData) | Checked(currentTime: int32)

  /** `map.put(sessionId, data)`: insert or overwrite, last write wins. */
  function Upsert(m: Refreshes, sessionId: string, data: SessionData): (r: Refreshes)
    ensures sessionId in r && r[sessionId] == data
    ensures forall k :: k != sessionId ==> (k in r <==> k in m)
    ensures forall k :: k in m && k != sessionId ==> r[k] == m[k]
    ensures |r| == if sessionId in m then |m| else |m| + 1
  {
    m[sessionId := data]
  }

  /** The flush condition, evaluated with Java's `int` addition. */
  predicate ShouldSend(cfg: StoreConfig, st: StoreState, currentTime: int32)
  {
    || |st.lastSessionRefreshes| >= cfg.maxCount
    || AddInt32(st.lastRun, cfg.maxIntervalBetweenMessagesSeconds) <= currentTime
  }

  /**
   The guarded swap of `prepareSendingMessage`: when the condition holds, the
   live map is detached and returned (an empty map is returned, not null),
   an empty map takes its place and `lastRun` becomes `currentTime`; otherwise
   nothing changes and null is returned.
   */
  function PrepareSending(cfg: StoreConfig, st: StoreState, currentTime: int32): (r: (StoreState, Option<Refreshes>))
    ensures r.1.Some? <==> ShouldSend(cfg, st, currentTime)
    ensures r.1.Some? ==> r.1.value == st.lastSessionRefreshes
    ensures r.1.Some? ==> |r.0.lastSessionRefreshes| == 0 && r.0.lastRun == currentTime
    ensures r.1.None? ==> r.0 == st
  {
    if ShouldSend(cfg, st, currentTime) then
      (StoreState(map[], currentTime), Some(st.lastSessionRefreshes))
    else
      (st, None)
  }

  /**
   `checkSendingMessage`: the unguarded check, then the guarded swap, then the
   send of whatever the swap returned. Run sequentially, exactly one batch is
   sent exactly when the condition holds, and it is the whole previous map.
   */
  function CheckSending(cfg: StoreConfig, st: StoreState, currentTime: int32): (r: Transition)
    ensures r.sent != [] <==> ShouldSend(cfg, st, currentTime)
    ensures r.sent != [] ==> r.sent == [Batch(cfg.eventKey, st.lastSessionRefreshes)]
    ensures r.sent != [] ==> r.next == StoreState(map[], currentTime)
    ensures r.sent == [] ==> r.next == st
  {
    if ShouldSend(cfg, st, currentTime) then
      var (next, refreshesToSend) := PrepareSending(cfg, st, currentTime);
      Transition(next, if refreshesToSend.Some? then [Batch(cfg.eventKey, refreshesToSend.value)] else [])
    else
      Transition(st, [])
  }

  /**
   `putLastSessionRefresh`: upsert, then check with the recorded refresh time
   standing for the current time.
   */
  function PutRefresh(cfg: StoreConfig, st: StoreState, sessionId: string, realmId: string, lastSessionRefresh: int32): (r: Transition)
    ensures var m := Upsert(st.lastSessionRefreshes, sessionId, SessionData(realmId, lastSessionRefresh));
      && (r.sent != [] <==>
            (|m| >= cfg.maxCount || AddInt32(st.lastRun, cfg.maxIntervalBetweenMessagesSeconds) <= lastSessionRefresh))
      && (r.sent != [] ==> r.sent == [Batch(cfg.eventKey, m)] && r.next == StoreState(map[], lastSessionRefresh))
      && (r.sent == [] ==> r.next == StoreState(m, st.lastRun))
  {
    var upserted := st.(lastSessionRefreshes := Upsert(st.lastSessionRefreshes, sessionId, SessionData(realmId, lastSessionRefresh)));
    CheckSending(cfg, upserted, lastSessionRefresh)
  }

  /** The events one `putLastSessionRefresh` consists of. */
  function PutEvents(sessionId: string, realmId: string, lastSessionRefresh: int32): seq<Event>
  {
    [Upserted(sessionId, SessionData(realmId, lastSessionRefresh)), Checked(lastSessionRefresh)]
  }

  /** One primitive step. */
  function Step(cfg: StoreConfig, st: StoreState, e: Event): Transition
  {
    match e
    case Upserted(sessionId, data) =>
      Transition(st.(lastSessionRefreshes := Upsert(st.lastSessionRefreshes, sessionId, data)), [])
    case Checked(currentTime) =>
      CheckSending(cfg, st, currentTime)
  }

  /** Number of checks among the events: an upper bound on the batches sent. */
  function CheckCount(events: seq<Event>): nat
  {
    if events == [] then 0
    else CheckCount(events[..|events| - 1]) + if events[|events| - 1].Checked? then 1 else 0
  }

  /**
   Replays the events from `st`, left to right, collecting every batch sent.
   Every batch carries the store's event key, and there are never more batches
   than checks.
   */
  function Run(cfg: StoreConfig, st: StoreState, events: seq<Event>): (r: Transition)
    ensures forall i :: 0 <= i < |r.sent| ==> r.sent[i].eventKey == cfg.eventKey
    ensures |r.sent| <= CheckCount(events)
    decreases |events|
  {
    if events == [] then Transition(st, [])
    else
      var prev := Run(cfg, st, events[..|events| - 1]);
      var last := Step(cfg, prev.next, events[|events| - 1]);
      Transition(last.next, prev.sent + last.sent)
  }

  /** Replaying one more event is one more step. */
  lemma RunSnoc(cfg: StoreConfig, st: StoreState, events: seq<Event>, e: Event)
    ensures var prev := Run(cfg, st, events);
      var last := Step(cfg, prev.next, e);
      Run(cfg, st, events + [e]) == Transition(last.next, prev.sent + last.sent)
  {
    assert (events + [e])[..|events|] == events;
  }

  /** The map the upserts among `events` build on top of `base`, last write wins. */
  function Coalesce(base: Refreshes, events: seq<Event>): Refreshes
    decreases |events|
  {
    if events == [] then base
    else
      var m := Coalesce(base, events[..|events| - 1]);
      match events[|events| - 1]
      case Upserted(sessionId, data) => Upsert(m, sessionId, data)
      case Checked(_) => m
  }

  /** The session ids the upserts among `events` write. */
  function IdsWritten(events: seq<Event>): set<string>
    decreases |events|
  {
    if events == [] then {}
    else
      IdsWritten(events[..|events| - 1]) +
      match events[|events| - 1]
      case Upserted(sessionId, _) => {sessionId}
      case Checked(_) => {}
  }

  /**
   The batches merged in send order, later entries overriding earlier ones.
   */
  function MergeBatches(batches: seq<Batch>): Refreshes
    decreases |batches|
  {
    if batches == [] then map[]
    else MergeBatches(batches[..|batches| - 1]) + batches[|batches| - 1].refreshes
  }

  /** Concatenation of a sequence of windows. */
  function Flatten(windows: seq<seq<Event>>): seq<Event>
    decreases |windows|
  {
    if windows == [] then []
    else Flatten(windows[..|windows| - 1]) + windows[|windows| - 1]
  }

  /** No session id is upserted twice. */
  predicate DistinctWrites(events: seq<Event>)
  {
    forall j, j' :: 0 <= j < j' < |events| && events[j].Upserted? && events[j'].Upserted? ==>
      events[j].sessionId != events[j'].sessionId
  }

  /** The upsert at index `j` is the last one among `events` for its session id. */
  predicate LastWriteAt(events: seq<Event>, j: int)
  {
    && 0 <= j < |events|
    && events[j].Upserted?
    && forall j' :: j < j' < |events| && events[j'].Upserted? ==> events[j'].sessionId != events[j].sessionId
  }

}
