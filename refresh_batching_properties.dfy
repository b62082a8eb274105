/**
 Properties of the batching store over any sequence of upserts and checks:
 nothing recorded is lost, batches are exactly the last-write-wins view of
 their windows, and concrete flush scenarios.
 */
module RefreshBatchingProperties {

  import opened RefreshBatching

  /** The ids in a coalesced map are those of the base and of the upserts. */
  lemma {:induction false} CoalesceKeys(base: Refreshes, events: seq<Event>)
    ensures Coalesce(base, events).Keys == base.Keys + IdsWritten(events)
    decreases |events|
  {
    if events != [] {
      CoalesceKeys(base, events[..|events| - 1]);
    }
  }

  /** An id written by some upsert has an upsert for it at some index. */
  lemma {:induction false} IdsWrittenWitness(events: seq<Event>, k: string) returns (j: int)
    requires k in IdsWritten(events)
    ensures 0 <= j < |events| && events[j].Upserted? && events[j].sessionId == k
    decreases |events|
  {
    var prefix := events[..|events| - 1];
    if k in IdsWritten(prefix) {
      j := IdsWrittenWitness(prefix, k);
    } else {
      j := |events| - 1;
    }
  }

  /** Last write wins: the last upsert for an id is the value the coalesced map holds. */
  lemma {:induction false} CoalesceLastWrite(base: Refreshes, events: seq<Event>, j: int)
    requires LastWriteAt(events, j)
    ensures events[j].sessionId in Coalesce(base, events)
    ensures Coalesce(base, events)[events[j].sessionId] == events[j].data
    decreases |events|
  {
    if j < |events| - 1 {
      var prefix := events[..|events| - 1];
      assert LastWriteAt(prefix, j) by {
        forall j' | j < j' < |prefix| && prefix[j'].Upserted?
          ensures prefix[j'].sessionId != prefix[j].sessionId
        {
          assert prefix[j'] == events[j'];
        }
      }
      CoalesceLastWrite(base, prefix, j);
    }
  }

  /** An id in the merged view comes from some batch. */
  lemma {:induction false} MergeBatchesKeys(batches: seq<Batch>, k: string) returns (i: int)
    requires k in MergeBatches(batches)
    ensures 0 <= i < |batches| && k in batches[i].refreshes
    decreases |batches|
  {
    var prefix := batches[..|batches| - 1];
    if k in batches[|batches| - 1].refreshes {
      i := |batches| - 1;
    } else {
      i := MergeBatchesKeys(prefix, k);
    }
  }

  lemma MergeBatchesSnoc(batches: seq<Batch>, more: seq<Batch>)
    requires |more| <= 1
    ensures MergeBatches(batches + more) == if more == [] then MergeBatches(batches) else MergeBatches(batches) + more[0].refreshes
  {
    if more != [] {
      assert (batches + more)[..|batches + more| - 1] == batches;
    } else {
      assert batches + more == batches;
    }
  }

  /**
   No loss, end to end: applying the sent batches in order and then the live
   map gives exactly the last-write-wins view of everything recorded.
   */
  lemma {:induction false} RunMergesToCoalesce(cfg: StoreConfig, st: StoreState, events: seq<Event>)
    ensures var r := Run(cfg, st, events);
      MergeBatches(r.sent) + r.next.lastSessionRefreshes == Coalesce(st.lastSessionRefreshes, events)
    decreases |events|
  {
    if events == [] {
      assert MergeBatches([]) + st.lastSessionRefreshes == st.lastSessionRefreshes;
    } else {
      var prefix := events[..|events| - 1];
      var e := events[|events| - 1];
      RunMergesToCoalesce(cfg, st, prefix);
      var prev := Run(cfg, st, prefix);
      StepMerges(cfg, prev.sent, prev.next, e);
      if e.Upserted? {
        assert Coalesce(st.lastSessionRefreshes, events)
            == Upsert(Coalesce(st.lastSessionRefreshes, prefix), e.sessionId, e.data);
      } else {
        assert Coalesce(st.lastSessionRefreshes, events) == Coalesce(st.lastSessionRefreshes, prefix);
      }
    }
  }

  /** One step keeps "merged batches, then live map" equal to the upserts applied so far. */
  lemma StepMerges(cfg: StoreConfig, sent: seq<Batch>, st: StoreState, e: Event)
    ensures var last := Step(cfg, st, e);
      var before := MergeBatches(sent) + st.lastSessionRefreshes;
      MergeBatches(sent + last.sent) + last.next.lastSessionRefreshes ==
        if e.Upserted? then Upsert(before, e.sessionId, e.data) else before
  {
    match e
    case Upserted(sessionId, data) =>
      assert sent + [] == sent;
      UnionUpdate(MergeBatches(sent), st.lastSessionRefreshes, sessionId, data);
    case Checked(t) =>
      CheckMerges(cfg, sent, st, t);
  }

  lemma CheckMerges(cfg: StoreConfig, sent: seq<Batch>, st: StoreState, t: int32)
    ensures var last := CheckSending(cfg, st, t);
      MergeBatches(sent + last.sent) + last.next.lastSessionRefreshes == MergeBatches(sent) + st.lastSessionRefreshes
  {
    var last := CheckSending(cfg, st, t);
    if last.sent != [] {
      MergeBatchesSnoc(sent, [Batch(cfg.eventKey, st.lastSessionRefreshes)]);
      UnionEmpty(MergeBatches(sent) + st.lastSessionRefreshes);
    } else {
      assert sent + [] == sent;
    }
  }

  lemma UnionUpdate<K, V>(a: map<K, V>, b: map<K, V>, k: K, d: V)
    ensures a + b[k := d] == (a + b)[k := d]
  {
  }

  lemma UnionEmpty<K, V>(a: map<K, V>)
    ensures a + map[] == a
  {
  }

  /** Every recorded session id is in the live map or in some sent batch. */
  lemma RecordedIdIsNeverLost(cfg: StoreConfig, st: StoreState, events: seq<Event>, j: int)
    requires 0 <= j < |events| && events[j].Upserted?
    ensures var r := Run(cfg, st, events);
      || events[j].sessionId in r.next.lastSessionRefreshes
      || exists i :: 0 <= i < |r.sent| && events[j].sessionId in r.sent[i].refreshes
  {
    var r := Run(cfg, st, events);
    var k := events[j].sessionId;
    RunMergesToCoalesce(cfg, st, events);
    CoalesceKeys(st.lastSessionRefreshes, events);
    assert k in IdsWritten(events) by {
      IdsWrittenContains(events, j);
    }
    if k !in r.next.lastSessionRefreshes {
      var i := MergeBatchesKeys(r.sent, k);
    }
  }

  lemma {:induction false} IdsWrittenContains(events: seq<Event>, j: int)
    requires 0 <= j < |events| && events[j].Upserted?
    ensures events[j].sessionId in IdsWritten(events)
    decreases |events|
  {
    if j < |events| - 1 {
      var prefix := events[..|events| - 1];
      assert prefix[j] == events[j];
      IdsWrittenContains(prefix, j);
    }
  }

  /**
   The latest refresh of a session is its value in the batches merged in send
   order, later entries overriding earlier ones, followed by the still unsent
   live map.
   */
  lemma LatestRefreshWins(cfg: StoreConfig, st: StoreState, events: seq<Event>, j: int)
    requires LastWriteAt(events, j)
    ensures var r := Run(cfg, st, events);
      var view := MergeBatches(r.sent) + r.next.lastSessionRefreshes;
      events[j].sessionId in view && view[events[j].sessionId] == events[j].data
  {
    RunMergesToCoalesce(cfg, st, events);
    CoalesceLastWrite(st.lastSessionRefreshes, events, j);
  }

  lemma FlattenSnoc(windows: seq<seq<Event>>, w: seq<Event>)
    ensures Flatten(windows + [w]) == Flatten(windows) + w
  {
    assert (windows + [w])[..|windows + [w]| - 1] == windows;
  }

  lemma CoalesceSnocCheck(base: Refreshes, events: seq<Event>, t: int32)
    ensures Coalesce(base, events + [Checked(t)]) == Coalesce(base, events)
  {
    assert (events + [Checked(t)])[..|events|] == events;
  }

  lemma CoalesceSnocUpsert(base: Refreshes, events: seq<Event>, sessionId: string, data: SessionData)
    ensures Coalesce(base, events + [Upserted(sessionId, data)]) == Upsert(Coalesce(base, events), sessionId, data)
  {
    assert (events + [Upserted(sessionId, data)])[..|events|] == events;
  }

  /**
   `windows` and `rest` split `events` for the replay result `r`: one window
   per batch, each batch the last-write-wins view of its window, each window
   closed by a check, and the live map the view of the open remainder.
   */
  ghost predicate SplitIntoWindows(r: Transition, events: seq<Event>, windows: seq<seq<Event>>, rest: seq<Event>)
  {
    && |windows| == |r.sent|
    && Flatten(windows) + rest == events
    && (forall i :: 0 <= i < |windows| ==> r.sent[i].refreshes == Coalesce(map[], windows[i]))
    && (forall i :: 0 <= i < |windows| ==> windows[i] != [] && windows[i][|windows[i]| - 1].Checked?)
    && r.next.lastSessionRefreshes == Coalesce(map[], rest)
  }

  /** The number of batches sent by replaying events from `st`. */
  ghost function SentCount(cfg: StoreConfig, st: StoreState): (count: seq<Event> -> nat)
  {
    (events: seq<Event>) => |Run(cfg, st, events).sent|
  }

  /** The events of the first `i` windows, in order. */
  ghost function FirstWindows(windows: seq<seq<Event>>, i: int): seq<Event>
    requires 0 <= i <= |windows|
  {
    Flatten(windows[..i])
  }

  /**
   The windows close exactly where `count` steps up: through window `i` short
   of its last event `count` is `i`, through the whole of window `i` it is
   `i + 1`, and through all of `rest` it is the number of windows.
   */
  ghost predicate ClosesWhereCountSteps(count: seq<Event> -> nat, windows: seq<seq<Event>>, rest: seq<Event>)
  {
    && (forall i :: 0 <= i < |windows| ==> WindowClosesAt(count, windows, i))
    && count(Flatten(windows) + rest) == |windows|
  }

  /**
   The windows close exactly at the flushes: replaying through window `i`
   short of its last event has sent `i` batches, replaying through the whole
   of window `i` has sent `i + 1`, and replaying everything has sent one per
   window. As the count rises by at most one per event (`SentCountStepsByOne`),
   this fixes the split: each window ends at the event that sent its batch.
   */
  ghost predicate WindowsCloseAtFlushes(cfg: StoreConfig, st: StoreState, windows: seq<seq<Event>>, rest: seq<Event>)
  {
    ClosesWhereCountSteps(SentCount(cfg, st), windows, rest)
  }

  /** Replaying one more event sends the same number of batches or one more. */
  lemma SentCountStepsByOne(cfg: StoreConfig, st: StoreState, events: seq<Event>, e: Event)
    ensures var n := SentCount(cfg, st)(events);
      SentCount(cfg, st)(events + [e]) in {n, n + 1}
  {
    RunSnoc(cfg, st, events, e);
  }

  /**
   The events of a store started empty split into consecutive windows, one per
   batch, each closed by the check that sent its batch, and a still open
   remainder in which no check sends anything.
   */
  lemma {:induction false} RunWindows(cfg: StoreConfig, st: StoreState, events: seq<Event>)
    returns (windows: seq<seq<Event>>, rest: seq<Event>)
    requires st.lastSessionRefreshes == map[]
    ensures SplitIntoWindows(Run(cfg, st, events), events, windows, rest)
    ensures WindowsCloseAtFlushes(cfg, st, windows, rest)
    decreases |events|
  {
    if events == [] {
      windows, rest := [], [];
      assert Flatten([]) + [] == [];
      assert Flatten(windows) + rest[..0] == [];
    } else {
      var prefix := events[..|events| - 1];
      var e := events[|events| - 1];
      assert events == prefix + [e];
      var w, rs := RunWindows(cfg, st, prefix);
      RunSnoc(cfg, st, prefix, e);
      var prev := Run(cfg, st, prefix);
      windows, rest := WindowsStep(cfg, prev, prefix, w, rs, e);
      var last := Step(cfg, prev.next, e);
      assert SentCount(cfg, st)(prefix + [e]) == |prev.sent| + |last.sent|;
      if last.sent == [] {
        ClosesAfterQuietStep(SentCount(cfg, st), prefix, w, rs, e);
      } else {
        ClosesAfterFlush(SentCount(cfg, st), prefix, w, rs, e);
      }
    }
  }

  lemma WindowsStep(cfg: StoreConfig, prev: Transition, prefix: seq<Event>, w: seq<seq<Event>>, rs: seq<Event>, e: Event)
    returns (windows: seq<seq<Event>>, rest: seq<Event>)
    requires SplitIntoWindows(prev, prefix, w, rs)
    ensures var last := Step(cfg, prev.next, e);
      SplitIntoWindows(Transition(last.next, prev.sent + last.sent), prefix + [e], windows, rest)
    ensures var last := Step(cfg, prev.next, e);
      if last.sent == [] then windows == w && rest == rs + [e] else windows == w + [rs + [e]] && rest == []
  {
    var last := Step(cfg, prev.next, e);
    var sent := prev.sent + last.sent;
    match e
    case Upserted(sessionId, data) =>
      windows, rest := w, rs + [e];
      assert sent == prev.sent;
      CoalesceSnocUpsert(map[], rs, sessionId, data);
    case Checked(t) =>
      CoalesceSnocCheck(map[], rs, t);
      if last.sent != [] {
        windows, rest := w + [rs + [e]], [];
        FlattenSnoc(w, rs + [e]);
        assert Flatten(windows) + rest == prefix + [e];
        assert sent == prev.sent + [Batch(cfg.eventKey, prev.next.lastSessionRefreshes)];
        forall i | 0 <= i < |windows|
          ensures sent[i].refreshes == Coalesce(map[], windows[i])
          ensures windows[i] != [] && windows[i][|windows[i]| - 1].Checked?
        {
          if i < |w| {
            assert sent[i] == prev.sent[i] && windows[i] == w[i];
          }
        }
        assert last.next.lastSessionRefreshes == map[] == Coalesce(map[], []);
      } else {
        windows, rest := w, rs + [e];
        assert sent == prev.sent;
      }
  }

  /** An event that sends nothing extends the open remainder. */
  lemma ClosesAfterQuietStep(count: seq<Event> -> nat, prefix: seq<Event>, w: seq<seq<Event>>, rs: seq<Event>, e: Event)
    requires Flatten(w) + rs == prefix
    requires ClosesWhereCountSteps(count, w, rs)
    requires count(prefix + [e]) == |w|
    ensures ClosesWhereCountSteps(count, w, rs + [e])
  {
    assert Flatten(w) + (rs + [e]) == prefix + [e];
  }

  /** An event that sends a batch closes the open remainder as a new window. */
  lemma ClosesAfterFlush(count: seq<Event> -> nat, prefix: seq<Event>, w: seq<seq<Event>>, rs: seq<Event>, e: Event)
    requires Flatten(w) + rs == prefix
    requires ClosesWhereCountSteps(count, w, rs)
    requires count(prefix + [e]) == |w| + 1
    ensures ClosesWhereCountSteps(count, w + [rs + [e]], [])
  {
    var windows := w + [rs + [e]];
    ConcatAssoc(Flatten(w), rs, [e]);
    forall i | 0 <= i < |windows|
      ensures WindowClosesAt(count, windows, i)
    {
      if i < |w| {
        assert WindowClosesAt(count, w, i);
        SnocKeepsWindow(count, w, rs + [e], i);
      } else {
        SnocAddsWindow(count, w, rs, e);
      }
    }
    FlattenSnoc(w, rs + [e]);
    ConcatEmpty(Flatten(windows));
  }

  /** Window `i` closes where `count` steps from `i` to `i + 1`. */
  ghost predicate WindowClosesAt(count: seq<Event> -> nat, windows: seq<seq<Event>>, i: int)
    requires 0 <= i < |windows|
  {
    && (windows[i] != [] ==> count(FirstWindows(windows, i) + windows[i][..|windows[i]| - 1]) == i)
    && count(FirstWindows(windows, i) + windows[i]) == i + 1
  }

  lemma SnocKeepsWindow(count: seq<Event> -> nat, w: seq<seq<Event>>, x: seq<Event>, i: int)
    requires 0 <= i < |w| && WindowClosesAt(count, w, i)
    ensures WindowClosesAt(count, w + [x], i)
  {
    assert (w + [x])[..i] == w[..i];
  }

  lemma SnocAddsWindow(count: seq<Event> -> nat, w: seq<seq<Event>>, rs: seq<Event>, e: Event)
    requires count(Flatten(w) + rs) == |w| && count(Flatten(w) + (rs + [e])) == |w| + 1
    ensures WindowClosesAt(count, w + [rs + [e]], |w|)
  {
    assert (w + [rs + [e]])[..|w|] == w;
    assert (rs + [e])[..|rs|] == rs;
  }

  lemma ConcatAssoc<T>(a: seq<T>, b: seq<T>, c: seq<T>)
    ensures a + (b + c) == a + b + c
  {
  }

  lemma ConcatEmpty<T>(a: seq<T>)
    ensures a + [] == a
  {
  }

  /**
   Every batch of a store started empty, and its live map, hold only recorded
   ids; when ids are recorded once, no two of them share an id.
   */
  ghost predicate DisjointBatches(r: Transition, events: seq<Event>)
  {
    && (forall i, i' :: 0 <= i < i' < |r.sent| ==> r.sent[i].refreshes.Keys !! r.sent[i'].refreshes.Keys)
    && (forall i :: 0 <= i < |r.sent| ==> r.sent[i].refreshes.Keys !! r.next.lastSessionRefreshes.Keys)
    && (forall i :: 0 <= i < |r.sent| ==> r.sent[i].refreshes.Keys <= IdsWritten(events))
    && r.next.lastSessionRefreshes.Keys <= IdsWritten(events)
  }

  /**
   A store started empty whose session ids are each recorded once sends
   batches with pairwise disjoint key sets, also disjoint from the live map.
   */
  lemma {:induction false} DistinctWritesGiveDisjointBatches(cfg: StoreConfig, st: StoreState, events: seq<Event>)
    requires st.lastSessionRefreshes == map[]
    requires DistinctWrites(events)
    ensures DisjointBatches(Run(cfg, st, events), events)
    decreases |events|
  {
    if events != [] {
      var prefix := events[..|events| - 1];
      var e := events[|events| - 1];
      assert events == prefix + [e];
      assert DistinctWrites(prefix) by {
        forall j, j' | 0 <= j < j' < |prefix| && prefix[j].Upserted? && prefix[j'].Upserted?
          ensures prefix[j].sessionId != prefix[j'].sessionId
        {
          assert prefix[j] == events[j] && prefix[j'] == events[j'];
        }
      }
      DistinctWritesGiveDisjointBatches(cfg, st, prefix);
      if e.Upserted? && e.sessionId in IdsWritten(prefix) {
        var j := IdsWrittenWitness(prefix, e.sessionId);
        assert false;
      }
      RunSnoc(cfg, st, prefix, e);
      DisjointStep(cfg, Run(cfg, st, prefix), prefix, e);
    }
  }

  lemma DisjointStep(cfg: StoreConfig, prev: Transition, prefix: seq<Event>, e: Event)
    requires DisjointBatches(prev, prefix)
    requires e.Upserted? ==> e.sessionId !in IdsWritten(prefix)
    ensures var last := Step(cfg, prev.next, e);
      DisjointBatches(Transition(last.next, prev.sent + last.sent), prefix + [e])
  {
    var last := Step(cfg, prev.next, e);
    var sent := prev.sent + last.sent;
    assert (prefix + [e])[..|prefix|] == prefix;
    assert IdsWritten(prefix) <= IdsWritten(prefix + [e]);
    if last.sent == [] {
      assert sent == prev.sent;
    } else {
      assert sent == prev.sent + [Batch(cfg.eventKey, prev.next.lastSessionRefreshes)];
      forall i | 0 <= i < |prev.sent|
        ensures sent[i].refreshes.Keys !! sent[|prev.sent|].refreshes.Keys
      {
        assert sent[i] == prev.sent[i];
      }
    }
  }

  /**
   Distinct ids are needed for disjointness: a session refreshed in two
   windows appears in both batches, each time with the value of its window.
   */
  lemma SameSessionInTwoBatches()
    ensures var cfg := StoreConfig(60, 1, "lastSessionRefreshes");
      var events := PutEvents("s1", "r1", 10) + PutEvents("s1", "r1", 20);
      Run(cfg, StoreState(map[], 0), events).sent ==
        [ Batch("lastSessionRefreshes", map["s1" := SessionData("r1", 10)]),
          Batch("lastSessionRefreshes", map["s1" := SessionData("r1", 20)]) ]
  {
    var cfg := StoreConfig(60, 1, "lastSessionRefreshes");
    var events := PutEvents("s1", "r1", 10) + PutEvents("s1", "r1", 20);
    var st := StoreState(map[], 0);
    assert events[..3][..2] == PutEvents("s1", "r1", 10);
    assert events[..3] == PutEvents("s1", "r1", 10) + [Upserted("s1", SessionData("r1", 20))];
    RunPut(cfg, st, [], "s1", "r1", 10);
    RunPut(cfg, st, PutEvents("s1", "r1", 10), "s1", "r1", 20);
  }

  /** Replaying the two events of a put is one `PutRefresh` on the replayed state. */
  lemma RunPut(cfg: StoreConfig, st: StoreState, events: seq<Event>, sessionId: string, realmId: string, lastSessionRefresh: int32)
    ensures var prev := Run(cfg, st, events);
      var put := PutRefresh(cfg, prev.next, sessionId, realmId, lastSessionRefresh);
      Run(cfg, st, events + PutEvents(sessionId, realmId, lastSessionRefresh)) == Transition(put.next, prev.sent + put.sent)
  {
    var upsert := Upserted(sessionId, SessionData(realmId, lastSessionRefresh));
    var check := Checked(lastSessionRefresh);
    assert events + PutEvents(sessionId, realmId, lastSessionRefresh) == events + [upsert] + [check];
    RunSnoc(cfg, st, events, upsert);
    RunSnoc(cfg, st, events + [upsert], check);
    var prev := Run(cfg, st, events);
    assert prev.sent + [] == prev.sent;
  }

  /**
   With maxCount 3 and an interval of 60 seconds, two refreshes at t0+1 and
   t0+2 send nothing; the third, at t0+3, sends all three and empties the store.
   */
  lemma BatchBySizeScenario(eventKey: string, t0: int32, s1: string, s2: string, s3: string, r1: string)
    requires t0 + 60 <= INT32_MAX
    requires s1 != s2 && s1 != s3 && s2 != s3
    ensures var cfg := StoreConfig(60, 3, eventKey);
      var st := StoreState(map[], t0);
      var two := PutEvents(s1, r1, t0 + 1) + PutEvents(s2, r1, t0 + 2);
      var three := two + PutEvents(s3, r1, t0 + 3);
      && Run(cfg, st, two).sent == []
      && Run(cfg, st, two).next == StoreState(map[s1 := SessionData(r1, t0 + 1), s2 := SessionData(r1, t0 + 2)], t0)
      && Run(cfg, st, three).sent ==
           [Batch(eventKey, map[s1 := SessionData(r1, t0 + 1), s2 := SessionData(r1, t0 + 2), s3 := SessionData(r1, t0 + 3)])]
      && Run(cfg, st, three).next == StoreState(map[], t0 + 3)
  {
    var cfg := StoreConfig(60, 3, eventKey);
    var st := StoreState(map[], t0);
    var one := PutEvents(s1, r1, t0 + 1);
    var two := one + PutEvents(s2, r1, t0 + 2);
    var m1 := map[s1 := SessionData(r1, t0 + 1)];
    var m2 := m1[s2 := SessionData(r1, t0 + 2)];
    var m3 := m2[s3 := SessionData(r1, t0 + 3)];
    assert AddInt32(t0, 60) == t0 + 60;
    assert |m1| == 1 && |m2| == 2 && |m3| == 3;

    assert [] + one == one;
    RunPut(cfg, st, [], s1, r1, t0 + 1);
    assert Run(cfg, st, one) == Transition(StoreState(m1, t0), []);
    RunPut(cfg, st, one, s2, r1, t0 + 2);
    assert Run(cfg, st, two) == Transition(StoreState(m2, t0), []);
    RunPut(cfg, st, two, s3, r1, t0 + 3);
  }

  /**
   With maxCount 100 and an interval of 10 seconds, one refresh at t0+1 is
   sent by the check at t0+11, on time alone.
   */
  lemma BatchByTimeScenario(eventKey: string, t0: int32, s1: string, r1: string)
    requires t0 + 11 <= INT32_MAX
    ensures var cfg := StoreConfig(10, 100, eventKey);
      var r := Run(cfg, StoreState(map[], t0), PutEvents(s1, r1, t0 + 1) + [Checked(t0 + 11)]);
      r.sent == [Batch(eventKey, map[s1 := SessionData(r1, t0 + 1)])] && r.next == StoreState(map[], t0 + 11)
  {
    var cfg := StoreConfig(10, 100, eventKey);
    var st := StoreState(map[], t0);
    var events := PutEvents(s1, r1, t0 + 1) + [Checked(t0 + 11)];
    assert [] + PutEvents(s1, r1, t0 + 1) == PutEvents(s1, r1, t0 + 1);
    RunPut(cfg, st, [], s1, r1, t0 + 1);
    assert events[..|events| - 1] == PutEvents(s1, r1, t0 + 1);
  }

  /**
   Emptiness is not checked: a check on an empty map whose time threshold is
   reached sends an empty batch and resets `lastRun`.
   */
  lemma EmptyBatchIsSent(cfg: StoreConfig, lastRun: int32, currentTime: int32)
    requires AddInt32(lastRun, cfg.maxIntervalBetweenMessagesSeconds) <= currentTime
    ensures CheckSending(cfg, StoreState(map[], lastRun), currentTime)
      == Transition(StoreState(map[], currentTime), [Batch(cfg.eventKey, map[])])
  {
  }

  /**
   Below both thresholds nothing is sent: as long as fewer than maxCount
   distinct sessions are held and every check comes before lastRun plus the
   interval, the live map is the view of all upserts and lastRun is kept.
   */
  lemma {:induction false} QuietRunSendsNothing(cfg: StoreConfig, st: StoreState, events: seq<Event>)
    requires |st.lastSessionRefreshes.Keys + IdsWritten(events)| < cfg.maxCount
    requires forall j :: 0 <= j < |events| && events[j].Checked? ==>
      events[j].currentTime < AddInt32(st.lastRun, cfg.maxIntervalBetweenMessagesSeconds)
    ensures Run(cfg, st, events) == Transition(StoreState(Coalesce(st.lastSessionRefreshes, events), st.lastRun), [])
    decreases |events|
  {
    if events != [] {
      var prefix := events[..|events| - 1];
      var base := st.lastSessionRefreshes.Keys;
      assert base + IdsWritten(prefix) <= base + IdsWritten(events);
      SubsetCardinality(base + IdsWritten(prefix), base + IdsWritten(events));
      forall j | 0 <= j < |prefix| && prefix[j].Checked?
        ensures prefix[j].currentTime < AddInt32(st.lastRun, cfg.maxIntervalBetweenMessagesSeconds)
      {
        assert prefix[j] == events[j];
      }
      QuietRunSendsNothing(cfg, st, prefix);
      CoalesceKeys(st.lastSessionRefreshes, prefix);
      assert |Coalesce(st.lastSessionRefreshes, prefix)| == |Coalesce(st.lastSessionRefreshes, prefix).Keys|;
    }
  }

  lemma {:induction false} SubsetCardinality(a: set<string>, b: set<string>)
    requires a <= b
    ensures |a| <= |b|
    decreases |b|
  {
    if a != {} {
      var x :| x in a;
      SubsetCardinality(a - {x}, b - {x});
    }
  }

  /**
   Java's `int` addition wraps: with the interval at `Integer.MAX_VALUE`,
   `lastRun + interval` is negative for any positive `lastRun`, so every check
   at a time not before `lastRun` flushes.
   */
  lemma MaxIntervalWrapsAround(cfg: StoreConfig, st: StoreState, currentTime: int32)
    requires cfg.maxIntervalBetweenMessagesSeconds == INT32_MAX
    requires 0 < st.lastRun <= currentTime
    ensures AddInt32(st.lastRun, cfg.maxIntervalBetweenMessagesSeconds) < 0
    ensures ShouldSend(cfg, st, currentTime)
  {
  }

}
