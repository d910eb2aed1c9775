# timecapsule: a time-gated key/value store, modelled in Dafny

The library stores values under string keys together with an unlock time.
A value cannot be read back (Open) until the unlock time has passed.
Peek reports a capsule's unlock and creation times and whether it is locked, never its value.
Delay moves the unlock time to "now plus a duration".
Delete removes a capsule and Exists reports presence.
WaitForUnlock makes one wait: it returns at once when the capsule is already unlocked, and otherwise waits until the unlock time or until the caller's context ends. After the timer fires it makes a single Open, which can still return ErrCapsuleLocked (the capsule was delayed meanwhile) or ErrCapsuleNotFound (it was deleted).

Two stores implement this interface:

- `MemoryTimeCapsule` (timecapsule.go) keeps a map from keys to capsules and updates it in place.
- `PersistentTimeCapsule` (storage.go) keeps no state. It composes a storage backend over bytes with a codec between values and bytes.

The model makes time and cancellation explicit inputs:

- `now` is the clock reading at the moment an operation runs.
- A context is `Live` or `Done(reason)`, where the reason is `Canceled` or `DeadlineExceeded`.
- The race in WaitForUnlock between the timer and the context is an input, `WakeEvent`. Either the context ends first (`CtxDone`), or the timer fires at `wakeNow` while the context is in state `wakeCtx` (`TimerFired`).

Files:

- `capsules.dfy`, module `Capsules`: the capsule, metadata and error datatypes. Each operation is a pure function of a snapshot of the map. Their contracts state the entry-check order, every error case and every change to the map.
- `time_capsule.dfy`, module `TimeCapsule`: the class `MemoryTimeCapsule`, with a `capsules` map field. Its methods follow the Go code step by step and are proved to compute the functions of `Capsules`.
- `capsule_lemmas.dfy`, module `CapsuleLemmas`: properties that relate several calls. They cover the Store/Open round trip, overwrite, Delay resetting from now, and Delete then Exists. They also cover arbitrary sequences of completed mutations (`Run`) and WaitForUnlock when other callers change the map during the wait.
- `persistent.dfy`, module `Persistent`: the codec, given as a pair of total functions with an assumed round-trip predicate `RoundTrips`, and the operations of storage.go as functions of the backend state. The backend is the in-memory store over byte sequences. Delay is modelled as three backend calls that may each meet a different backend state (`DelayAcross`).
- `persistent_time_capsule.dfy`, module `PersistentCapsule`: the class `PersistentTimeCapsule`, holding a `MemoryTimeCapsule<Bytes>` backend and a codec.
- `persistent_lemmas.dfy`, module `PersistentLemmas`: the round trip through the codec, and a relation `Represents` between a typed map and a backend map. Under that relation Peek, Exists and Delete agree with the in-memory store; Open and WaitForUnlock agree when the codec satisfies `RoundTrips`; Store agrees when Encode accepts the value, and otherwise fails with Encode's error and changes nothing. Delay does not agree.

## Behaviour of the backend-delegating Delay worth knowing

- The rewrite is a backend Store (storage.go:127), and a Store is an upsert. A Delete that completes between Delay's Open and that Store does not surface as an error: the capsule is created again (`PersistentLemmas.DelayRacingDeleteRecreates`).
- Because Delay re-stores the bytes, the in-memory backend stamps the capsule's creation time with the time of the Delay.
- Delay fails with ErrCapsuleLocked on a capsule that is still locked, because the backend's Open releases only unlocked capsules (storage.go:13, 121-124). The in-memory Delay moves a locked capsule (`PersistentLemmas.DelayDiverges`).

## Model

| member | source | states |
|---|---|---|
| `Capsules.Guard` | timecapsule.go:57-63 | the entry check passes iff the context is live and the key non-empty; a done context gives its own error before the empty key gives ErrInvalidKey |
| `Capsules.Store` | timecapsule.go:56-76 | succeeds iff the context is live and the key non-empty; then the key maps to exactly {value, unlockTime, createdAt = now}, replacing any earlier record, and every other key keeps its record; on failure the map is unchanged |
| `Capsules.Open` | timecapsule.go:79-105 | done context, empty key, absent key give their errors in that order; ErrCapsuleLocked iff the key is present and now < unlockTime; the stored value iff present and unlockTime <= now |
| `Capsules.Peek` | timecapsule.go:108-131 | succeeds iff the context is live, the key non-empty and present; returns the record's unlockTime and createdAt with isLocked iff now < unlockTime; never fails with ErrCapsuleLocked |
| `Capsules.Delay` | timecapsule.go:134-154 | succeeds iff live, non-empty and present; the record's unlockTime becomes now + delay, its value and createdAt stay, other keys stay; errors leave the map unchanged |
| `Capsules.Delete` | timecapsule.go:157-175 | succeeds iff live, non-empty and present; removes exactly that key; errors leave the map unchanged |
| `Capsules.Exists` | timecapsule.go:178-192 | true iff the context is live, the key non-empty and present, regardless of lock state |
| `Capsules.WaitForUnlock` | timecapsule.go:195-224 | errors of the snapshot Peek are returned; an unlocked capsule's value is returned at once; otherwise the reason of the context ending first, or Open at wake time against the map at wake time; ErrCapsuleLocked only if the capsule at wake time is still locked |
| `TimeCapsule.MemoryTimeCapsule.constructor` | timecapsule.go:49-53 | a new store holds no capsule, so the empty string is not a key |
| `TimeCapsule.MemoryTimeCapsule.Store` | timecapsule.go:56-76 | the new map and the result are those of Capsules.Store on the old map; a map without the empty key stays without it |
| `TimeCapsule.MemoryTimeCapsule.Open` | timecapsule.go:79-105 | the result is Capsules.Open of the current map; the map is not changed |
| `TimeCapsule.MemoryTimeCapsule.Peek` | timecapsule.go:108-131 | the result is Capsules.Peek of the current map; the map is not changed |
| `TimeCapsule.MemoryTimeCapsule.Delay` | timecapsule.go:134-154 | the new map and the result are those of Capsules.Delay on the old map; a map without the empty key stays without it |
| `TimeCapsule.MemoryTimeCapsule.Delete` | timecapsule.go:157-175 | the new map and the result are those of Capsules.Delete on the old map; a map without the empty key stays without it |
| `TimeCapsule.MemoryTimeCapsule.Exists` | timecapsule.go:178-192 | the result is Capsules.Exists of the current map |
| `TimeCapsule.MemoryTimeCapsule.WaitForUnlock` | timecapsule.go:195-224 | the result is Capsules.WaitForUnlock with the map unchanged between snapshot and wake-up |
| `CapsuleLemmas.StoreThenOpen` | timecapsule_test.go:21-59 | after a Store, Open is ErrCapsuleLocked before the unlock time and returns the stored value at or after it |
| `CapsuleLemmas.StoreOverwrites` | timecapsule.go:68-74 | a second Store to a key leaves only its own record, createdAt included, as if the first had not happened |
| `CapsuleLemmas.DelayResetsFromNow` | timecapsule.go:146-153 | after Delay(delay) at time now, Peek at any later time reports unlockTime now + delay, the old createdAt, and isLocked recomputed for that time |
| `CapsuleLemmas.DeleteThenExists` | timecapsule_test.go:106-127 | after a successful Delete the key does not exist and every other key's presence is unchanged |
| `CapsuleLemmas.ExistsRegardlessOfLock` | timecapsule.go:187-191 | Exists holds exactly when Peek succeeds, at any time |
| `CapsuleLemmas.WaitOnUnlockedIsOpen` | timecapsule.go:208-211 | when the snapshot is not locked, WaitForUnlock equals Open, whatever the wake event |
| `CapsuleLemmas.WaitPropagatesPeekError` | timecapsule.go:196-206 | when the snapshot Peek fails, WaitForUnlock returns that error |
| `CapsuleLemmas.RunAppend` | timecapsule.go:56-175 | running two sequences of mutations one after the other is running their concatenation |
| `CapsuleLemmas.RunKeepsKeysNonEmpty` | timecapsule.go:61-63 | no sequence of Store, Delay and Delete calls makes the empty string a key |
| `CapsuleLemmas.RunUntouched` | timecapsule.go:74 | mutations of other keys leave a key's presence and record unchanged |
| `CapsuleLemmas.RecordStable` | timecapsule.go:146-152 | without a Store of a key, a record present at the end was present at the start with the same value and createdAt, and with no Delay either it is identical |
| `CapsuleLemmas.LastStoreWins` | timecapsule.go:74 | whatever mutations came before, the last Store of a key decides its record |
| `CapsuleLemmas.DistinctStoresAllVisible` | timecapsule_test.go:205-231 | Stores of distinct non-empty keys with a live context all remain visible, each with its own record |
| `CapsuleLemmas.NoMissedWakeup` | timecapsule.go:213-223 | when the timer fires at or after the snapshot's unlock time and nobody touched the key, WaitForUnlock returns the value |
| `CapsuleLemmas.WaitSeesDelete` | timecapsule.go:221-222 | a Delete during the wait that no later Store undoes makes WaitForUnlock return ErrCapsuleNotFound |
| `CapsuleLemmas.WaitSeesDelay` | timecapsule.go:221-222 | a Delay during the wait past the wake-up time makes WaitForUnlock return ErrCapsuleLocked: one wait attempt only |
| `Persistent.Store` | storage.go:50-65 | a done context or the empty key fail before Encode with the backend unchanged; an Encode error is returned with the backend unchanged; otherwise the backend stores exactly the encoded bytes and unlockTime and its result is returned |
| `Persistent.Open` | storage.go:68-86 | entry errors first; a backend Open error is returned unchanged; otherwise the result is Decode of the backend's bytes, which the backend releases only at or after the unlock time |
| `Persistent.Peek` | storage.go:89-99 | entry errors first, then exactly the backend's Peek |
| `Persistent.DelayAcross` | storage.go:102-128 | each of the three backend calls meets its own backend state: a failing Peek or Open ends the call with that error and no write; otherwise the bytes read are re-stored with unlock time now + delay over the state the Store meets |
| `Persistent.Delay` | storage.go:102-128 | with no interleaving: succeeds iff the capsule is present and already unlocked; ErrCapsuleLocked on a locked capsule; on success the same bytes get unlock time now + delay and createdAt now; errors change nothing |
| `Persistent.Delete` | storage.go:131-141 | entry errors first, then exactly the backend's Delete |
| `Persistent.Exists` | storage.go:144-154 | false on a done context or the empty key, otherwise exactly the backend's Exists |
| `Persistent.WaitForUnlock` | storage.go:157-186 | the single-attempt protocol: snapshot errors returned, an unlocked capsule decoded at once, otherwise the reason of the context ending first or this store's Open at wake time |
| `PersistentCapsule.PersistentTimeCapsule.constructor` | storage.go:42-47 | the store holds the given backend and codec |
| `PersistentCapsule.PersistentTimeCapsule.Store` | storage.go:50-65 | the backend's new state and the result are those of Persistent.Store |
| `PersistentCapsule.PersistentTimeCapsule.Open` | storage.go:68-86 | the result is Persistent.Open of the backend's state |
| `PersistentCapsule.PersistentTimeCapsule.Peek` | storage.go:89-99 | the result is Persistent.Peek of the backend's state |
| `PersistentCapsule.PersistentTimeCapsule.Delay` | storage.go:102-128 | the backend's new state and the result are those of Persistent.Delay |
| `PersistentCapsule.PersistentTimeCapsule.Delete` | storage.go:131-141 | the backend's new state and the result are those of Persistent.Delete |
| `PersistentCapsule.PersistentTimeCapsule.Exists` | storage.go:144-154 | the result is Persistent.Exists of the backend's state |
| `PersistentCapsule.PersistentTimeCapsule.WaitForUnlock` | storage.go:157-186 | the result is Persistent.WaitForUnlock with the backend unchanged during the wait |
| `PersistentLemmas.StoreThenOpen` | storage.go:59-85 | with a round-tripping codec that accepts the value, Open after Store is ErrCapsuleLocked before the unlock time and the stored value at or after it |
| `PersistentLemmas.OpenAgrees` | storage.go:79-85 | with a round-tripping codec, Open on a backend that represents a typed map equals the in-memory Open on that map |
| `PersistentLemmas.PeekAndExistsAgree` | storage.go:98-153 | Peek and Exists on a representing backend equal the in-memory Peek and Exists |
| `PersistentLemmas.StoreAgrees` | storage.go:59-64 | Store keeps backend and typed map in step and returns the same result, except that an Encode error fails the persistent Store and changes nothing |
| `PersistentLemmas.DeleteAgrees` | storage.go:140 | Delete keeps backend and typed map in step and returns the same result |
| `PersistentLemmas.DelayDiverges` | storage.go:111-127 | on a capsule the in-memory Delay would move while it is locked, the persistent Delay fails with ErrCapsuleLocked and changes nothing; otherwise the results agree, and on success the backend differs only in the key's createdAt, which becomes now |
| `PersistentLemmas.WaitAgrees` | storage.go:157-186 | with a round-tripping codec, WaitForUnlock equals the in-memory one when both the snapshot and the wake-time states correspond |
| `PersistentLemmas.DelayRacingDeleteRecreates` | storage.go:121-127 | a Delete between Delay's Open and its re-Store does not make Delay fail: the capsule is stored again with the new unlock time and createdAt now |

## Left out

- Locking with `sync.RWMutex`: each operation is one atomic step. Concurrency appears only as explicit inputs: the map at wake-up in WaitForUnlock, the three backend states of `DelayAcross`, and sequences of completed mutations in `CapsuleLemmas.Run`.
- Capsules.WaitForUnlock: when the snapshot is unlocked, the code's Open that follows is a second, separate read of the map (timecapsule.go:210), but the model runs it against the snapshot map. A Delete completing between the Peek and that Open, which would give ErrCapsuleNotFound, is not captured.
- Persistent.WaitForUnlock: the same for the unlocked path's Open of the backend (storage.go:172).
- The wall clock: each call receives one clock reading `now`. The backend-delegating Delay uses that one reading for its own clock read (storage.go:118) and for the backend's three calls.
- The timer and the `select` in WaitForUnlock: replaced by the `WakeEvent` input. Releasing the timer on every path (`defer timer.Stop()`) is resource handling with no effect on results.
- TimeCapsule.MemoryTimeCapsule.WaitForUnlock: the method has no other caller acting during its wait, so its wake-time map is its snapshot map. `Capsules.WaitForUnlock` and the lemmas about it cover a changed map.
- PersistentCapsule.PersistentTimeCapsule.WaitForUnlock: the same, for the backend; `Persistent.WaitForUnlock` covers a changed backend.
- PersistentCapsule.PersistentTimeCapsule.Delay: the method runs its three backend calls with no interleaving; `Persistent.DelayAcross` covers interleaving.
- A context that ends between the entry check and a later backend call of the same operation: a context is one value per call. The exception is the wake-up of WaitForUnlock, which has its own `wakeCtx`.
- Go's `time.Time` details (monotonic readings, int64 overflow of `Add`): times and durations are unbounded integers of nanoseconds.
- The zero value returned beside an error: results are `Ok(value)` or `Err(error)`.
- `Storage.Close` (storage.go:26): resource lifecycle with no behaviour in the core.
- Other storage backends: the backend modelled is the in-memory store over bytes, so backend I/O errors do not arise. A codec may return any error kind; `External` is offered for codec failures, and the store passes a codec's error on unchanged.
- codec.go: the JSON codec is a wrapper over `encoding/json`, which is not part of this model. The codec is any pair of total functions, with `RoundTrips` assumed where a lemma needs it.
- The JSON tags of `Capsule` and `Metadata`: an encoding detail.
- cmd/demo/main.go and example_test.go: printing and wall-clock output only.
