/**
 The store itself, in the imperative form of the source: a live map and
 `lastRun` that the methods reassign, three parameters fixed at construction,
 and a ghost log of the batches handed to the cluster. Every method is proved
 against the value-level functions of module RefreshBatching, and `Valid()`
 says that the state and the log are always the replay of the ghost event
 history since construction, so the lemmas of RefreshBatchingProperties apply
 to every reachable store.
 */
module RefreshStore {

  import opened Wrappers
  import opened RefreshBatching
  import opened RefreshBatchingProperties

  class LastSessionRefreshStore {
    const maxIntervalBetweenMessagesSeconds: int32
    const maxCount: int32
    const eventKey: string

    var lastSessionRefreshes: Refreshes
    var lastRun: int32

    /** Every batch sent so far, in order: the effect of `sendMessage`. */
    ghost var sent: seq<Batch>
    /** The clock reading `lastRun` started from. */
    ghost const createdAt: int32
    /** Every upsert and check since construction. */
    ghost var events: seq<Event>

    function Config(): StoreConfig
    {
      StoreConfig(maxIntervalBetweenMessagesSeconds, maxCount, eventKey)
    }

    function State(): StoreState
      reads this
    {
      StoreState(lastSessionRefreshes, lastRun)
    }

    ghost predicate Valid()
      reads this
    {
      var r := Run(Config(), StoreState(map[], createdAt), events);
      r.next == State() && r.sent == sent
    }

    /** No session refresh recorded since construction is lost by a valid store. */
    lemma RecordedIdIsInStoreOrSent(j: int)
      requires Valid()
      requires 0 <= j < |events| && events[j].Upserted?
      ensures || events[j].sessionId in lastSessionRefreshes
              || exists i :: 0 <= i < |sent| && events[j].sessionId in sent[i].refreshes
    {
      RecordedIdIsNeverLost(Config(), StoreState(map[], createdAt), events, j);
    }

    /** The clock reading of the field initialiser of `lastRun` is the parameter `now`. */
    constructor (maxIntervalBetweenMessagesSeconds: int32, maxCount: int32, eventKey: string, now: int32)
      ensures Valid()
      ensures this.maxIntervalBetweenMessagesSeconds == maxIntervalBetweenMessagesSeconds
      ensures this.maxCount == maxCount && this.eventKey == eventKey
      ensures lastSessionRefreshes == map[] && lastRun == now
      ensures sent == [] && events == [] && createdAt == now
    {
      this.maxIntervalBetweenMessagesSeconds := maxIntervalBetweenMessagesSeconds;
      this.maxCount := maxCount;
      this.eventKey := eventKey;
      lastSessionRefreshes := map[];
      lastRun := now;
      sent := [];
      createdAt := now;
      events := [];
    }

    /** Records a refresh, then runs the flush check with the refresh time as the current time. */
    method PutLastSessionRefresh(sessionId: string, realmId: string, lastSessionRefresh: int32)
      requires Valid()
      modifies this
      ensures Valid()
      ensures events == old(events) + PutEvents(sessionId, realmId, lastSessionRefresh)
      ensures var r := PutRefresh(Config(), old(State()), sessionId, realmId, lastSessionRefresh);
        State() == r.next && sent == old(sent) + r.sent
    {
      var data := SessionData(realmId, lastSessionRefresh);
      lastSessionRefreshes := lastSessionRefreshes[sessionId := data];
      ghost var upserted := State();
      assert upserted == old(State()).(lastSessionRefreshes := Upsert(old(lastSessionRefreshes), sessionId, data));
      assert PutRefresh(Config(), old(State()), sessionId, realmId, lastSessionRefresh)
          == CheckSending(Config(), upserted, lastSessionRefresh);
      RunSnoc(Config(), StoreState(map[], createdAt), events, Upserted(sessionId, data));
      events := events + [Upserted(sessionId, data)];
      CheckSendingMessage(lastSessionRefresh);
      assert events == old(events) + PutEvents(sessionId, realmId, lastSessionRefresh);
    }

    /** The unguarded check; on success the guarded swap and, outside it, the send. */
    method CheckSendingMessage(currentTime: int32)
      requires Valid()
      modifies this
      ensures Valid()
      ensures events == old(events) + [Checked(currentTime)]
      ensures var r := CheckSending(Config(), old(State()), currentTime);
        State() == r.next && sent == old(sent) + r.sent
    {
      ghost var expected := CheckSending(Config(), State(), currentTime);
      RunSnoc(Config(), StoreState(map[], createdAt), events, Checked(currentTime));
      if |lastSessionRefreshes| >= maxCount || AddInt32(lastRun, maxIntervalBetweenMessagesSeconds) <= currentTime {
        var refreshesToSend := PrepareSendingMessage(currentTime);
        if refreshesToSend.Some? {
          SendMessage(refreshesToSend.value);
        }
      }
      assert State() == expected.next && sent == old(sent) + expected.sent;
      events := events + [Checked(currentTime)];
    }

    /**
     The guarded swap: re-checks the condition, and when it holds returns the
     live map (never null, possibly empty), installs an empty one and sets
     `lastRun`; otherwise returns null and changes nothing.
     */
    method PrepareSendingMessage(currentTime: int32) returns (refreshesToSend: Option<Refreshes>)
      modifies this`lastSessionRefreshes, this`lastRun
      ensures (State(), refreshesToSend) == PrepareSending(Config(), old(State()), currentTime)
      ensures refreshesToSend.Some? <==> ShouldSend(Config(), old(State()), currentTime)
      ensures refreshesToSend.Some? ==>
        refreshesToSend.value == old(lastSessionRefreshes) && lastSessionRefreshes == map[] && lastRun == currentTime
      ensures refreshesToSend.None? ==> lastSessionRefreshes == old(lastSessionRefreshes) && lastRun == old(lastRun)
    {
      if |lastSessionRefreshes| >= maxCount || AddInt32(lastRun, maxIntervalBetweenMessagesSeconds) <= currentTime {
        var copiedRefreshesToSend := lastSessionRefreshes;
        lastSessionRefreshes := map[];
        lastRun := currentTime;
        refreshesToSend := Some(copiedRefreshesToSend);
      } else {
        refreshesToSend := None;
      }
    }

    /** Hands one batch, tagged with the event key, to the cluster: appended to the log. */
    method SendMessage(refreshesToSend: Refreshes)
      modifies this`sent
      ensures sent == old(sent) + [Batch(eventKey, refreshesToSend)]
    {
      sent := sent + [Batch(eventKey, refreshesToSend)];
    }
  }

}
