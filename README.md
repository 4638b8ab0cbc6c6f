# In-memory transactional record store

This project models `MemoryRecordStore`, the in-process record store that
caches the result of a transaction under its key. The store keeps two tables:

- a **record table** from key to record `{key, result}`;
- a **lock table** from key to lock entry `{holder, deadline}`.

Writes to a key are refused while another holder has a live lock on it. A lock is
re-entrant for its holder, and only the holder may release it. A hold timeout makes
the lock expire, and expired entries count as absent for every query. Callers may
give up waiting for a contended lock after an acquire timeout. `wait_for_lock` waits
for a key to become free without taking it. The scoped `lock` acquires a key, runs a
block, and then releases the key.

The store's implementation, `src/prefect/records/memory.py`, is not part of this
model. Its behaviour is fixed by its test suite, `tests/records/test_memory.py`, and
that suite is what the model follows.

Files:

- `wrappers.dfy`: `Option`.
- `store_spec.dfy` (module `StoreSpec`): the store's state as a value, `Store<T>`.
  Each operation is a function from one state to the next. Contracts state what
  each operation does: the read-back after a write, when a write or release is
  refused, and when an acquire or a wait succeeds.
- `traces.dfy` (module `Traces`): sequences of state-changing calls, which stop
  at the first call that fails, and the scoped lock whose block is such a
  sequence. Inductive lemmas cover every
  sequence: records keep their keys, keys are independent, and a lock with no
  deadline stays with its holder until that holder releases it.
- `memory_store.dfy` (module `MemoryStore`): the class `MemoryRecordStore<T>`.
  Its `records` and `locks` maps and its clock `now` are updated in place by the
  methods. Each method is proved to change the state exactly as the matching
  `StoreSpec` function does.
- `properties.dfy` (module `Properties`): each test case's property, stated for
  every store state and a fresh key. The tests share one store and draw a new
  random key per case.
- `test_memory.dfy` (module `TestMemory`): each test case as a client method on
  the store object. The method's postconditions are the values that case asserts.
  They do not use the lemmas of `Properties`: the two layers state the same cases
  independently, one on state values and one on the object. All but one are
  proved from the object's method contracts alone. The exception is
  `TestLock`, which calls the lemma `Traces.ScopedLockHoldsThenReleases` and
  reads the state inside the scope from the function `Traces.Lock`.

Time is a logical clock `now: nat`. A hold timeout `t` taken at time `a` gives the
deadline `a + t`. An entry has expired once `now > deadline`. Blocking is
deterministic, which keeps the model sequential:

- A contended acquire succeeds when the holder's deadline `d` comes before the
  caller gives up. The clock then moves to `d + 1`.
- Otherwise the acquire returns false, and the clock moves to the end of the
  acquire timeout.
- `wait_for_lock` works the same way, but does not take the lock.

An omitted holder stands for one fixed identity, `DefaultHolder`. The test that
acquires twice without a holder relies on this.

## Model

| member | source | states |
|---|---|---|
| StoreSpec.Read | tests/records/test_memory.py:17-28 | in a valid store a record that is read carries the key it was read under |
| StoreSpec.Exists | tests/records/test_memory.py:57-66 | a key exists exactly when a read of it finds a record |
| StoreSpec.IsLocked | tests/records/test_memory.py:72-74 | a key is locked exactly when some holder holds it; an entry without deadline always counts and an entry past its deadline never does (lazy expiry) |
| StoreSpec.IsLockHolder | tests/records/test_memory.py:130-136 | a holder holds a key only if the key's entry names that holder (the default one when omitted) and has not expired |
| StoreSpec.Write | tests/records/test_memory.py:30-55 | a write succeeds iff the key is unlocked or the caller holds it; on success the key reads back as `Record(key, value)` and no other key's record or any lock changes; on failure the error is `HolderConflict(key)` and nothing changes |
| StoreSpec.AcquireLock | tests/records/test_memory.py:68-111 | the result is true iff the caller holds a live lock afterwards; a free key is taken at once with deadline now + hold timeout; a re-acquire by the holder changes nothing; a key held by another is taken iff that lock has a deadline that comes before the acquire timeout ends (or there is no acquire timeout), and only after that deadline has passed; the call never waits past its acquire timeout; a failed acquire leaves the locks alone and ends at the acquire timeout; records and other keys' entries are untouched |
| StoreSpec.ReleaseLock | tests/records/test_memory.py:113-121 | a release succeeds iff the caller holds a live lock, and then the key is unlocked and only its entry is removed; otherwise the error is `NotHolder(key, holder)` and nothing changes |
| StoreSpec.WaitForLock | tests/records/test_memory.py:138-160 | the result is true iff the key is free when the wait ends; a free key returns true at once with no change; on a locked key the result is true iff the lock has a deadline that comes before the timeout ends (or there is no timeout); the wait never outlasts its timeout; a successful wait on a locked key ends at the first instant the lock is free (its deadline + 1); a timed-out wait leaves the lock in force; waiting never changes records or locks |
| StoreSpec.Tick | tests/records/test_memory.py:90 | time passing changes only the clock, and a key locked afterwards was locked before |
| StoreSpec.TickOnlyExpires | tests/records/test_memory.py:85-91 | time passing never creates or changes a live lock, leaves a lock without deadline in force, and ends a lock whose deadline it passes |
| Traces.RunPreservesValid | tests/records/test_memory.py:26-27 | after any sequence of calls, every stored record still carries the key it is stored under |
| Traces.UntouchedKeyUnchanged | tests/records/test_memory.py:18-19 | calls on other keys and time passing leave a key's record and lock entry unchanged (the tests share one store and rely on fresh keys being independent) |
| Traces.HeldUntilReleased | tests/records/test_memory.py:93-100 | a lock with no hold timeout stays with its holder through any sequence of calls that has no release of that key by that holder |
| Traces.OnlyHolderWrites | tests/records/test_memory.py:43-55 | while a key is held with no deadline, no sequence of calls without the holder's own write or release changes its record |
| Traces.RunStopsAtFailure | tests/records/test_memory.py:51-55 | once a call of a sequence fails (the source raises), no later call of the sequence is performed |
| Traces.Lock | tests/records/test_memory.py:123-128 | the scope's body runs iff the blocking acquire succeeds; without it the state is the one that acquire left; with it the body starts from exactly the state after that acquire, in which the caller holds the key; if the caller still holds the key when the body ends, leaving the scope removes only that key's lock entry (records and clock stay as the body left them), the key is free, and the error that leaves the scope is the body's own; otherwise the release fails with `NotHolder` and that is the error |
| Traces.ScopedLockHoldsThenReleases | tests/records/test_memory.py:123-128 | on a free key and with no hold timeout, the scoped lock is obtained; the caller holds the key at every point of a block that does not release it itself; leaving the scope frees the key, and the only error that leaves it is the body's own |
| MemoryStore.MemoryRecordStore.constructor | tests/records/test_memory.py:19 | a new store is empty and valid |
| MemoryStore.MemoryRecordStore.Read | tests/records/test_memory.py:20-28 | returns the stored record, whose key is the key read |
| MemoryStore.MemoryRecordStore.Exists | tests/records/test_memory.py:57-66 | true exactly when a record is stored under the key |
| MemoryStore.MemoryRecordStore.IsLocked | tests/records/test_memory.py:72-74 | true exactly when the key has a live lock entry |
| MemoryStore.MemoryRecordStore.IsLockHolder | tests/records/test_memory.py:130-136 | true exactly when the key has a live lock held by the given holder, and only if the key is locked |
| MemoryStore.MemoryRecordStore.Write | tests/records/test_memory.py:25 | updates the record table as `StoreSpec.Write` does and returns its outcome |
| MemoryStore.MemoryRecordStore.AcquireLock | tests/records/test_memory.py:71 | updates the lock table and clock as `StoreSpec.AcquireLock` does and returns its result |
| MemoryStore.MemoryRecordStore.ReleaseLock | tests/records/test_memory.py:73 | updates the lock table as `StoreSpec.ReleaseLock` does and returns its outcome |
| MemoryStore.MemoryRecordStore.WaitForLock | tests/records/test_memory.py:143 | advances the clock as `StoreSpec.WaitForLock` does and returns its result |
| MemoryStore.MemoryRecordStore.Tick | tests/records/test_memory.py:90 | advances the clock by the delay, changing nothing else |
| MemoryStore.MemoryRecordStore.Apply | tests/records/test_memory.py:126 | performs one call of a scoped block and reports its outcome, as `Traces.Step` says |
| MemoryStore.MemoryRecordStore.Lock | tests/records/test_memory.py:126-128 | acquires, performs the block's calls in order until one fails, and releases; the final state and exit outcome are those of `Traces.Lock` |
| Properties.ReadWriteRoundTrip | tests/records/test_memory.py:17-28 | a fresh key has no record and does not exist; a write to it succeeds for any holder, reads back as `Record(key, value)` and then exists |
| Properties.HolderMayWrite | tests/records/test_memory.py:30-41 | after acquiring a fresh key, its holder's write succeeds and reads back |
| Properties.OtherHolderCannotWrite | tests/records/test_memory.py:43-55 | after holder1 acquires a fresh key, holder2's write fails with `HolderConflict` and changes nothing |
| Properties.AcquireThenRelease | tests/records/test_memory.py:68-74 | acquiring a fresh key succeeds and locks it; the holder's release succeeds and unlocks it |
| Properties.AcquireIsIdempotent | tests/records/test_memory.py:76-83 | two acquires by the default holder both succeed, the second changes nothing, and one release unlocks the key |
| Properties.HoldTimeoutExpires | tests/records/test_memory.py:85-91 | a lock taken with hold timeout t is in force at once and not after more than t units of time |
| Properties.AcquireTimeoutGivesUp | tests/records/test_memory.py:93-100 | holder2's acquire with an acquire timeout fails against holder1's non-expiring lock; holder1 still holds the key and its release unlocks it |
| Properties.AcquireAfterHolderTimedOut | tests/records/test_memory.py:102-111 | holder2's blocking acquire against holder1's expiring lock succeeds and makes holder2 the holder; holder2's release unlocks the key |
| Properties.WrongHolderCannotRelease | tests/records/test_memory.py:113-121 | holder2's release of holder1's lock fails with `NotHolder(key, holder2)`, changes nothing, and holder1 still holds the key |
| Properties.LockHolderIsTheAcquirer | tests/records/test_memory.py:130-136 | nobody holds a fresh key; after holder1 acquires it, holder1 holds it and holder2 does not |
| Properties.WaitOutlastsHoldTimeout | tests/records/test_memory.py:138-144 | waiting without a timeout on an expiring lock returns true and the key is then free |
| Properties.WaitTimesOut | tests/records/test_memory.py:146-154 | waiting with a timeout on a non-expiring lock returns false; the holder keeps the key and its release unlocks it |
| Properties.WaitOnFreeKey | tests/records/test_memory.py:156-160 | a fresh key is not locked, and waiting on it returns true at once without changing the store |
| TestMemory.TestReadWrite | tests/records/test_memory.py:17-28 | on the store object: read of a fresh key gives none; after a write the read gives a record with that key and result |
| TestMemory.TestWriteToKeyWithSameLockHolder | tests/records/test_memory.py:30-41 | on the store object: acquire succeeds, the same (default) holder's write passes, and the record reads back |
| TestMemory.TestWriteToKeyWithDifferentLockHolder | tests/records/test_memory.py:43-55 | on the store object: holder1 acquires; holder2's write fails with `HolderConflict(key)` |
| TestMemory.TestExists | tests/records/test_memory.py:57-66 | on the store object: a fresh key does not exist, and exists after a write |
| TestMemory.TestAcquireLock | tests/records/test_memory.py:68-74 | on the store object: acquire succeeds, the key is locked, and after the release it is not |
| TestMemory.TestAcquireLockIdempotent | tests/records/test_memory.py:76-83 | on the store object: two acquires succeed, the key is locked, and one release unlocks it |
| TestMemory.TestAcquireLockWithHoldTimeout | tests/records/test_memory.py:85-91 | on the store object: acquire with a hold timeout succeeds and locks; after a longer delay the key is unlocked |
| TestMemory.TestAcquireLockWithAcquireTimeout | tests/records/test_memory.py:93-100 | on the store object: holder2's timed acquire fails; holder1's release passes and unlocks |
| TestMemory.TestAcquireLockWhenPreviousHolderTimedOut | tests/records/test_memory.py:102-111 | on the store object: holder2's blocking acquire succeeds after holder1's lock expires; holder2's release passes and unlocks |
| TestMemory.TestRaisesIfReleasingWithWrongHolder | tests/records/test_memory.py:113-121 | on the store object: holder2's release fails with `NotHolder(key, "holder2")` |
| TestMemory.TestLock | tests/records/test_memory.py:123-128 | on the store object: the key is locked inside the scope, leaving releases successfully, and the key is unlocked afterwards |
| TestMemory.TestIsLockHolder | tests/records/test_memory.py:130-136 | on the store object: nobody holds a fresh key; after holder1 acquires, holder1 holds it and holder2 does not |
| TestMemory.TestWaitForLock | tests/records/test_memory.py:138-144 | on the store object: waiting on an expiring lock returns true and the key is then unlocked |
| TestMemory.TestWaitForLockWithTimeout | tests/records/test_memory.py:146-154 | on the store object: the key is locked, a timed wait on it returns false and the key stays locked; holder1's release unlocks it |
| TestMemory.TestWaitForLockNeverBeenLocked | tests/records/test_memory.py:156-160 | on the store object: a fresh key is not locked and waiting on it returns true |

## Left out

- The singleton construction (tests/records/test_memory.py:12-15) is process-global state. The model has one explicitly constructed store object, passed to every client method.
- The cross-thread test (tests/records/test_memory.py:162-179) is about concurrency, which the sequential model does not have. Its last line, 179, does not call `is_locked`, so it asserts nothing.
- Wall-clock float timeouts and `sleep` are modelled as whole units of a logical clock that advances only through `Tick` and through blocking waits.
- StoreSpec.AcquireLock: a blocking acquire with no acquire timeout, against another holder's lock that never expires, returns false and leaves the clock alone. In the source it blocks until another thread releases the lock, which cannot happen in a sequential run.
- StoreSpec.WaitForLock: a wait with no timeout on a lock that never expires returns false, for the same reason.
- Real blocking, wake-up of waiters and the internal mutexes are not modelled. A blocked call's outcome is decided at once, from the deadline and the timeout.
- `ResultFactory` result creation is not modelled. The stored result is an opaque type parameter `T`.
- The exact error messages are not modelled. The two failures are the distinct outcomes `Fail(HolderConflict(key))` and `Fail(NotHolder(key, holder))`.
- `src/prefect/records/memory.py` is not part of this model. The default holder is therefore the fixed constant `DefaultHolder`, not whatever identity that file derives. Its re-acquire keeps the original deadline rather than refreshing it.
- Expired lock entries are not removed eagerly. They stay in the lock table until a new acquire overwrites them, and every query treats them as absent. An expired entry cannot be released: releasing it fails with `NotHolder`.
- Inside a scoped lock, the block is a sequence of state-changing calls. A call that fails ends the block, as the exception it raises would; the release still runs, and the failure is the scope's `exit`. Other ways of leaving a block early (`return`, exceptions of the caller's own code) are not modelled. Queries inside the block change nothing, so they are not part of it; `TestMemory.TestLock` reads the in-scope state from the scope's state just after its acquire.
- `read` never blocks and takes no holder.
- src/prefect/orion/models/flows.py, src/prefect/orion/api/dependencies.py and tests/events/server/test_events_schema.py are database, web-framework and serialisation glue. They are not part of this model.
