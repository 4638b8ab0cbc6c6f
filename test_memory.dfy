/**
  The record store's test cases, run against the store object: each method drives
  the shared store through the calls of one case and promises, as postconditions,
  the values that case asserts.
*/
module TestMemory {
  import opened Wrappers
  import opened StoreSpec
  import opened MemoryStore
  import Properties
  import Traces

  method TestReadWrite<T>(store: MemoryRecordStore<T>, key: Key, result: T)
    returns (before: Option<Record<T>>, after: Option<Record<T>>)
    requires store.Valid() && Properties.FreshKey(store.State(), key)
    modifies store
    ensures store.Valid()
    ensures before == None
    ensures after.Some? && after.value.key == key && after.value.result == result
  {
    before := store.Read(key);
    var _ := store.Write(key, result, None);
    after := store.Read(key);
  }

  method TestWriteToKeyWithSameLockHolder<T>(store: MemoryRecordStore<T>, key: Key, result: T)
    returns (acquired: bool, written: Outcome, record: Option<Record<T>>)
    requires store.Valid() && Properties.FreshKey(store.State(), key)
    modifies store
    ensures store.Valid()
    ensures acquired && written == Pass
    ensures record.Some? && record.value.result == result
  {
    acquired := store.AcquireLock(key, None, None, None);
    written := store.Write(key, result, None);
    record := store.Read(key);
  }

  method TestWriteToKeyWithDifferentLockHolder<T>(store: MemoryRecordStore<T>, key: Key, result: T)
    returns (acquired: bool, written: Outcome)
    requires store.Valid() && Properties.FreshKey(store.State(), key)
    modifies store
    ensures store.Valid()
    ensures acquired
    ensures written == Fail(HolderConflict(key))
  {
    acquired := store.AcquireLock(key, Some("holder1"), None, None);
    written := store.Write(key, result, Some("holder2"));
  }

  method TestExists<T>(store: MemoryRecordStore<T>, key: Key, result: T)
    returns (before: bool, after: bool)
    requires store.Valid() && Properties.FreshKey(store.State(), key)
    modifies store
    ensures store.Valid()
    ensures !before && after
  {
    before := store.Exists(key);
    var _ := store.Write(key, result, None);
    after := store.Exists(key);
  }

  method TestAcquireLock<T>(store: MemoryRecordStore<T>, key: Key)
    returns (acquired: bool, lockedInside: bool, lockedAfter: bool)
    requires store.Valid() && Properties.FreshKey(store.State(), key)
    modifies store
    ensures store.Valid()
    ensures acquired && lockedInside && !lockedAfter
  {
    acquired := store.AcquireLock(key, None, None, None);
    lockedInside := store.IsLocked(key);
    var _ := store.ReleaseLock(key, None);
    lockedAfter := store.IsLocked(key);
  }

  method TestAcquireLockIdempotent<T>(store: MemoryRecordStore<T>, key: Key)
    returns (first: bool, second: bool, lockedInside: bool, lockedAfter: bool)
    requires store.Valid() && Properties.FreshKey(store.State(), key)
    modifies store
    ensures store.Valid()
    ensures first && second && lockedInside && !lockedAfter
  {
    first := store.AcquireLock(key, None, None, None);
    second := store.AcquireLock(key, None, None, None);
    lockedInside := store.IsLocked(key);
    var _ := store.ReleaseLock(key, None);
    lockedAfter := store.IsLocked(key);
  }

  /** `delay` stands for the sleep, longer than the hold timeout `holdTimeout`. */
  method TestAcquireLockWithHoldTimeout<T>(store: MemoryRecordStore<T>, key: Key, holdTimeout: nat, delay: nat)
    returns (acquired: bool, lockedBefore: bool, lockedAfter: bool)
    requires store.Valid() && Properties.FreshKey(store.State(), key)
    requires delay > holdTimeout
    modifies store
    ensures store.Valid()
    ensures acquired && lockedBefore && !lockedAfter
  {
    acquired := store.AcquireLock(key, None, Some(holdTimeout), None);
    lockedBefore := store.IsLocked(key);
    store.Tick(delay);
    lockedAfter := store.IsLocked(key);
  }

  method TestAcquireLockWithAcquireTimeout<T>(store: MemoryRecordStore<T>, key: Key, acquireTimeout: nat)
    returns (first: bool, locked: bool, contended: bool, released: Outcome, lockedAfter: bool)
    requires store.Valid() && Properties.FreshKey(store.State(), key)
    modifies store
    ensures store.Valid()
    ensures first && locked && !contended && released == Pass && !lockedAfter
  {
    first := store.AcquireLock(key, Some("holder1"), None, None);
    locked := store.IsLocked(key);
    contended := store.AcquireLock(key, Some("holder2"), None, Some(acquireTimeout));
    released := store.ReleaseLock(key, Some("holder1"));
    lockedAfter := store.IsLocked(key);
  }

  method TestAcquireLockWhenPreviousHolderTimedOut<T>(store: MemoryRecordStore<T>, key: Key, holdTimeout: nat)
    returns (first: bool, locked: bool, second: bool, lockedBySecond: bool, released: Outcome, lockedAfter: bool)
    requires store.Valid() && Properties.FreshKey(store.State(), key)
    modifies store
    ensures store.Valid()
    ensures first && locked && second && lockedBySecond && released == Pass && !lockedAfter
  {
    first := store.AcquireLock(key, Some("holder1"), Some(holdTimeout), None);
    locked := store.IsLocked(key);
    second := store.AcquireLock(key, Some("holder2"), None, None);
    lockedBySecond := store.IsLocked(key);
    released := store.ReleaseLock(key, Some("holder2"));
    lockedAfter := store.IsLocked(key);
  }

  method TestRaisesIfReleasingWithWrongHolder<T>(store: MemoryRecordStore<T>, key: Key)
    returns (acquired: bool, locked: bool, released: Outcome)
    requires store.Valid() && Properties.FreshKey(store.State(), key)
    modifies store
    ensures store.Valid()
    ensures acquired && locked
    ensures released == Fail(NotHolder(key, "holder2"))
  {
    acquired := store.AcquireLock(key, Some("holder1"), None, None);
    locked := store.IsLocked(key);
    released := store.ReleaseLock(key, Some("holder2"));
  }

  /** The block of the `with` statement only asks whether the key is locked, which
      changes nothing; so the scope's body performs no call. */
  method TestLock<T>(store: MemoryRecordStore<T>, key: Key)
    returns (lockedInside: bool, exit: Option<Outcome>, lockedAfter: bool)
    requires store.Valid() && Properties.FreshKey(store.State(), key)
    modifies store
    ensures store.Valid()
    ensures lockedInside && exit == Some(Pass) && !lockedAfter
  {
    var s := store.State();
    Traces.ScopedLockHoldsThenReleases(s, key, None, []);
    // The state the block observes: the scope right after its acquire.
    lockedInside := IsLocked(Traces.Lock(s, key, None, None, []).inside, key);
    exit := store.Lock(key, None, None, []);
    lockedAfter := store.IsLocked(key);
  }

  method TestIsLockHolder<T>(store: MemoryRecordStore<T>, key: Key)
    returns (before: bool, acquired: bool, holder1: bool, holder2: bool)
    requires store.Valid() && Properties.FreshKey(store.State(), key)
    modifies store
    ensures store.Valid()
    ensures !before && acquired && holder1 && !holder2
  {
    before := store.IsLockHolder(key, Some("holder1"));
    acquired := store.AcquireLock(key, Some("holder1"), None, None);
    holder1 := store.IsLockHolder(key, Some("holder1"));
    holder2 := store.IsLockHolder(key, Some("holder2"));
  }

  method TestWaitForLock<T>(store: MemoryRecordStore<T>, key: Key, holdTimeout: nat)
    returns (acquired: bool, locked: bool, waited: bool, lockedAfter: bool)
    requires store.Valid() && Properties.FreshKey(store.State(), key)
    modifies store
    ensures store.Valid()
    ensures acquired && locked && waited && !lockedAfter
  {
    acquired := store.AcquireLock(key, Some("holder1"), Some(holdTimeout), None);
    locked := store.IsLocked(key);
    waited := store.WaitForLock(key, None);
    lockedAfter := store.IsLocked(key);
  }

  method TestWaitForLockWithTimeout<T>(store: MemoryRecordStore<T>, key: Key, timeout: nat)
    returns (acquired: bool, lockedBefore: bool, waited: bool, lockedAfterWait: bool, released: Outcome,
             lockedAfter: bool)
    requires store.Valid() && Properties.FreshKey(store.State(), key)
    modifies store
    ensures store.Valid()
    ensures acquired && lockedBefore && !waited && lockedAfterWait && released == Pass && !lockedAfter
  {
    acquired := store.AcquireLock(key, Some("holder1"), None, None);
    lockedBefore := store.IsLocked(key);
    waited := store.WaitForLock(key, Some(timeout));
    lockedAfterWait := store.IsLocked(key);
    released := store.ReleaseLock(key, Some("holder1"));
    lockedAfter := store.IsLocked(key);
  }

  method TestWaitForLockNeverBeenLocked<T>(store: MemoryRecordStore<T>, key: Key)
    returns (locked: bool, waited: bool)
    requires store.Valid() && Properties.FreshKey(store.State(), key)
    modifies store
    ensures store.Valid()
    ensures !locked && waited
  {
    locked := store.IsLocked(key);
    waited := store.WaitForLock(key, None);
  }
}
