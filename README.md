# Cross-datacenter last-session-refresh batching, modelled in Dafny

This project models two pieces of Keycloak's cross-datacenter session support.

- **`LastSessionRefreshStore`** collects the "last refreshed" timestamps of user sessions on one node. It sends them to the other datacenters in batches. Each `putLastSessionRefresh` overwrites the session's entry in a live map and then runs a flush check, using the recorded refresh time as the current time. The check fires when the map holds at least `maxCount` entries, or when `lastRun + maxIntervalBetweenMessagesSeconds <= currentTime` in Java `int` arithmetic. A flush detaches the whole live map and installs an empty one. It sets `lastRun` and hands the detached map, tagged with the store's event key, to the cluster.
- **`UserSessionCrossDCManager`** looks up a user session through the session provider's predicate-aware lookup. It has two predicates: "has a client session for `clientUUID`" and "has a client session for `clientUUID` whose action is `CODE_TO_TOKEN`".

Files:

- `wrappers.dfy`: `Option`, used for Java's nullable values.
- `refresh_batching.dfy` (module `RefreshBatching`): the store as values.
  - Java `int` as `int32`, with wrap-around addition (`AddInt32`).
  - The session data, the batch and the store state.
  - The guarded swap (`PrepareSending`), the check (`CheckSending`) and the put (`PutRefresh`).
  - `Run`: a replay of any sequence of upserts and checks, collecting the batches sent.
- `refresh_batching_properties.dfy` (module `RefreshBatchingProperties`): lemmas about `Run`.
  - No loss, and last write wins end to end.
  - The split of the history into one window per batch.
  - Disjoint batches when each id is recorded once, and a counterexample when an id is recorded twice.
  - The size-triggered and time-triggered scenarios, empty batches, and quiet periods.
- `last_session_refresh_store.dfy` (module `RefreshStore`): class `LastSessionRefreshStore`.
  - The fields `lastSessionRefreshes` and `lastRun` are mutable. The three parameters are `const`.
  - `sent` is a ghost log of the batches sent.
  - `events` is a ghost history of the upserts and checks.
  - `Valid()` says the live state and the log always equal the `Run` of that history since construction, so every lemma about `Run` applies to every reachable store.
  - Each method is proved against the matching function of `RefreshBatching`.
- `user_session_cross_dc.dfy` (module `UserSessionCrossDC`): the two predicates, the queries built from them, and the pass-through of the provider's answer.

Inputs that come from outside the program are parameters:

- The clock reading that initialises `lastRun` is the constructor parameter `now`.
- The session provider's lookup is a function parameter `lookup: SessionQuery -> Option<UserSession>`. A null result is `None`.

Three facts about the code that are easy to miss:

- Nothing checks the detached map for emptiness, so a check whose time threshold is reached sends an empty batch (`EmptyBatchIsSent`).
- The time test is `lastRun + maxIntervalBetweenMessagesSeconds <= currentTime` in 32-bit `int` arithmetic. It differs from `currentTime - lastRun >= maxIntervalBetweenMessagesSeconds` only when the sum overflows (`MaxIntervalWrapsAround`).
- Batches sent one after another do not, in general, have disjoint key sets. A session refreshed in two windows appears in both batches, each time with its value from that window (`SameSessionInTwoBatches`). What holds in general is that each recorded write belongs to exactly one window (`RunWindows`). Key sets are disjoint when every session id is recorded at most once (`DistinctWritesGiveDisjointBatches`).

## Model

| member | source | states |
|---|---|---|
| `RefreshBatching.AddInt32` | model/infinispan/src/main/java/org/keycloak/models/sessions/infinispan/changes/sessions/LastSessionRefreshStore.java:63 | Java `int` addition. The exact sum when it fits in 32 bits, otherwise the sum shifted by 2^32 back into range. |
| `RefreshBatching.Upsert` | model/infinispan/src/main/java/org/keycloak/models/sessions/infinispan/changes/sessions/LastSessionRefreshStore.java:55 | After the put, the map holds exactly one entry for `sessionId`, the new value. Every other key is present or absent as before, with the same value. The size grows by one only for a new id. |
| `RefreshBatching.PrepareSending` | model/infinispan/src/main/java/org/keycloak/models/sessions/infinispan/changes/sessions/LastSessionRefreshStore.java:75-86 | The swap returns a map if and only if the flush condition holds. It then returns exactly the old live map, which is non-null even when empty, leaves an empty live map and sets `lastRun` to `currentTime`. Otherwise it returns null and the state is unchanged. |
| `RefreshBatching.CheckSending` | model/infinispan/src/main/java/org/keycloak/models/sessions/infinispan/changes/sessions/LastSessionRefreshStore.java:62-71 | Run sequentially, a check sends a batch if and only if the flush condition holds. It then sends exactly one batch: the old live map, tagged with the event key. The store is left empty with `lastRun == currentTime`. Otherwise nothing is sent and the state is unchanged. |
| `RefreshBatching.PutRefresh` | model/infinispan/src/main/java/org/keycloak/models/sessions/infinispan/changes/sessions/LastSessionRefreshStore.java:54-59 | A put flushes if and only if the map after the upsert has at least `maxCount` entries, or `lastRun + interval <= lastSessionRefresh`. The recorded refresh time stands for the current time. A flush sends the upserted map and leaves the store empty with `lastRun` set to that time. Without a flush, the store holds the upserted map and keeps its `lastRun`. |
| `RefreshBatching.Run` | model/infinispan/src/main/java/org/keycloak/models/sessions/infinispan/changes/sessions/LastSessionRefreshStore.java:62-71 | Over any history of upserts and checks, every batch sent carries the store's event key, and there are never more batches than checks. |
| `RefreshBatchingProperties.RunMergesToCoalesce` | model/infinispan/src/main/java/org/keycloak/models/sessions/infinispan/changes/sessions/LastSessionRefreshStore.java:54-86 | No loss: applying the sent batches in order and then the live map gives exactly the last-write-wins view of every upsert recorded. |
| `RefreshBatchingProperties.RecordedIdIsNeverLost` | model/infinispan/src/main/java/org/keycloak/models/sessions/infinispan/changes/sessions/LastSessionRefreshStore.java:54-86 | Every recorded session id is in the live map or in some sent batch. |
| `RefreshBatchingProperties.LatestRefreshWins` | model/infinispan/src/main/java/org/keycloak/models/sessions/infinispan/changes/sessions/LastSessionRefreshStore.java:55 | The last value recorded for a session is its value in the batches merged in send order, later entries overriding earlier ones, followed by the unsent live map. |
| `RefreshBatchingProperties.CoalesceLastWrite` | model/infinispan/src/main/java/org/keycloak/models/sessions/infinispan/changes/sessions/LastSessionRefreshStore.java:55 | Last write wins: the coalesced map holds the value of the last upsert for each id. |
| `RefreshBatchingProperties.RunWindows` | model/infinispan/src/main/java/org/keycloak/models/sessions/infinispan/changes/sessions/LastSessionRefreshStore.java:76-82 | The history of a store that starts empty splits into consecutive windows, one per batch, plus an open remainder. Each batch equals the last-write-wins view of its window. Each window ends with the check that flushed it, and nowhere else: replaying through window `i` short of its last event has sent `i` batches, replaying through all of it has sent `i + 1`, and replaying the whole history has sent one batch per window. Since one more event sends at most one more batch (`SentCountStepsByOne`), this fixes the split. The live map is the view of the remainder. |
| `RefreshBatchingProperties.DistinctWritesGiveDisjointBatches` | model/infinispan/src/main/java/org/keycloak/models/sessions/infinispan/changes/sessions/LastSessionRefreshStore.java:76-82 | Suppose every session id is recorded at most once. Then the batches have pairwise disjoint key sets, disjoint from the live map, and hold only recorded ids. |
| `RefreshBatchingProperties.SameSessionInTwoBatches` | model/infinispan/src/main/java/org/keycloak/models/sessions/infinispan/changes/sessions/LastSessionRefreshStore.java:54-80 | With `maxCount = 1`, a session refreshed twice appears in two batches, with its first value and then its second. So key sets are disjoint only for ids recorded once. |
| `RefreshBatchingProperties.BatchBySizeScenario` | model/infinispan/src/main/java/org/keycloak/models/sessions/infinispan/changes/sessions/LastSessionRefreshStore.java:54-80 | Setup: `maxCount = 3`, interval 60, `lastRun = t0`. Puts of s1 at t0+1 and s2 at t0+2 send nothing and hold both. A put of s3 at t0+3 sends exactly {s1, s2, s3}, leaves the map empty and sets `lastRun` to t0+3. |
| `RefreshBatchingProperties.BatchByTimeScenario` | model/infinispan/src/main/java/org/keycloak/models/sessions/infinispan/changes/sessions/LastSessionRefreshStore.java:62-82 | Setup: `maxCount = 100`, interval 10. One put at t0+1 is sent by a check at t0+11, on time alone. |
| `RefreshBatchingProperties.EmptyBatchIsSent` | model/infinispan/src/main/java/org/keycloak/models/sessions/infinispan/changes/sessions/LastSessionRefreshStore.java:62-82 | Emptiness is not checked. A check on an empty map whose time threshold is reached sends an empty batch and sets `lastRun`. |
| `RefreshBatchingProperties.QuietRunSendsNothing` | model/infinispan/src/main/java/org/keycloak/models/sessions/infinispan/changes/sessions/LastSessionRefreshStore.java:62-71 | Suppose fewer than `maxCount` distinct ids are held and every check comes before `lastRun + interval`. Then nothing is sent, the live map is the last-write-wins view of all upserts, and `lastRun` is kept. |
| `RefreshBatchingProperties.MaxIntervalWrapsAround` | model/infinispan/src/main/java/org/keycloak/models/sessions/infinispan/changes/sessions/LastSessionRefreshStore.java:63 | With the interval at `Integer.MAX_VALUE` and a positive `lastRun`, the sum wraps negative. Every check at a time not before `lastRun` then flushes. |
| `RefreshStore.LastSessionRefreshStore.constructor` | model/infinispan/src/main/java/org/keycloak/models/sessions/infinispan/changes/sessions/LastSessionRefreshStore.java:38-51 | The three parameters are set once; they are `const` and never change. The live map starts empty, `lastRun` starts at the clock reading, and the sent log starts empty. |
| `RefreshStore.LastSessionRefreshStore.PutLastSessionRefresh` | model/infinispan/src/main/java/org/keycloak/models/sessions/infinispan/changes/sessions/LastSessionRefreshStore.java:54-59 | The new state and the batches appended to the log are those of `PutRefresh`. The history grows by the upsert and a check at the refresh time. `Valid()` is preserved. |
| `RefreshStore.LastSessionRefreshStore.CheckSendingMessage` | model/infinispan/src/main/java/org/keycloak/models/sessions/infinispan/changes/sessions/LastSessionRefreshStore.java:62-71 | The new state and the batches appended to the log are those of `CheckSending`, and `Valid()` is preserved. |
| `RefreshStore.LastSessionRefreshStore.PrepareSendingMessage` | model/infinispan/src/main/java/org/keycloak/models/sessions/infinispan/changes/sessions/LastSessionRefreshStore.java:75-86 | The guarded swap on the fields. It returns exactly the old map and empties the live map, setting `lastRun`, if and only if the condition holds. Otherwise it returns null and the fields are unchanged. |
| `RefreshStore.LastSessionRefreshStore.SendMessage` | model/infinispan/src/main/java/org/keycloak/models/sessions/infinispan/changes/sessions/LastSessionRefreshStore.java:89-99 | Exactly one batch, the given map tagged with `eventKey`, is appended to the sent log. Nothing else changes. |
| `RefreshStore.LastSessionRefreshStore.RecordedIdIsInStoreOrSent` | model/infinispan/src/main/java/org/keycloak/models/sessions/infinispan/changes/sessions/LastSessionRefreshStore.java:54-99 | In every valid store, each session id recorded since construction is in the live map or in some batch of the sent log. |
| `UserSessionCrossDC.HasClientSession` | services/src/main/java/org/keycloak/services/managers/UserSessionCrossDCManager.java:45 | The predicate is true if and only if the authenticated-client-session map contains `clientUUID`. |
| `UserSessionCrossDC.HasCodeToTokenClientSession` | services/src/main/java/org/keycloak/services/managers/UserSessionCrossDCManager.java:53-62 | False whenever `clientUUID` is absent. True if and only if `clientUUID` is present and its action is `"CODE_TO_TOKEN"`, so a null action gives false. It implies `HasClientSession` for the same client. |
| `UserSessionCrossDC.WithClientQuery` | services/src/main/java/org/keycloak/services/managers/UserSessionCrossDCManager.java:44-45 | The lookup receives the caller's realm, id and `offline` flag unchanged, with the client predicate. |
| `UserSessionCrossDC.WithClientAndCodeToTokenActionQuery` | services/src/main/java/org/keycloak/services/managers/UserSessionCrossDCManager.java:51-53 | The lookup receives the caller's realm and id, `offline = false` always, and the code-to-token predicate. |
| `UserSessionCrossDC.GetUserSessionWithClient` | services/src/main/java/org/keycloak/services/managers/UserSessionCrossDCManager.java:44-46 | Returns exactly the provider's answer to that query, with no translation or filtering. |
| `UserSessionCrossDC.GetUserSessionWithClientAndCodeToTokenAction` | services/src/main/java/org/keycloak/services/managers/UserSessionCrossDCManager.java:51-64 | Returns exactly the provider's answer to that query, with no translation or filtering. |

## Left out

- Concurrency: `volatile` fields, `ConcurrentHashMap`, `synchronized` and the reason for the double check. The model is the sequential semantics: each check is one atomic guarded transition. Interleavings of concurrent writers with the swap are not modelled.
- `ConcurrentHashMap.size()` saturates at `Integer.MAX_VALUE`, and the model compares the exact map size with `maxCount`. This changes no outcome: `maxCount` is an `int`, so `min(size, Integer.MAX_VALUE) >= maxCount` holds exactly when `size >= maxCount`.
- The `KeycloakSession` parameters of `putLastSessionRefresh`, `checkSendingMessage` and `sendMessage`. They serve only to reach the cluster provider.
- `ClusterProvider.notify` with its `true` and `ALL_BUT_LOCAL_DC` arguments, the construction of `LastSessionRefreshEvent`, and the debug logging. These are calls into code outside this model; a send is recorded only as "batch appended to the log with `eventKey`".
- `Time.currentTime()`, which initialises `lastRun`, becomes the constructor parameter `now`.
- The session provider's `getUserSessionWithPredicate`, with its local-first lookup and remote-cache fallback. Its code is not part of this model, so it is a function parameter. Which sessions it returns, and how often it reaches the remote cache, are not modelled.
- The `UserSessionCrossDCManager` constructor. It only stores the `KeycloakSession` that provides the lookup.
- `AbstractUserSessionClusterListener`. It runs a job in a transaction, looks up the provider, casts the event, logs it and delegates to an abstract method. It holds no logic of its own.
- Null values: the model assumes the authenticated-client-session map holds no null client sessions. The Java code would throw a `NullPointerException` for one.
- Null session ids: `putLastSessionRefresh` with a null `sessionId` throws a `NullPointerException` from `ConcurrentHashMap.put` (LastSessionRefreshStore.java:55, on the map created at :42). Session ids are `string` values in the model, which cannot be null, so that failure is not modelled.
