/**
  The behaviour the record store's tests pin down, stated for every store state
  and a key that neither table has seen (the tests share one store and draw a
  fresh random key per case).
*/
module Properties {
  import opened Wrappers
  import opened StoreSpec

  /** A key with no record and no lock entry, as a freshly generated key is. */
  predicate FreshKey<T>(s: Store<T>, key: Key) {
    key !in s.records && key !in s.locks
  }

  /** Nothing is stored under a new key; a write stores a record under that key
      holding the value, whoever writes. */
  lemma ReadWriteRoundTrip<T>(s: Store<T>, key: Key, value: T, holder: Option<Holder>)
    requires FreshKey(s, key)
    ensures Read(s, key) == None && !Exists(s, key)
    ensures Write(s, key, value, holder).1 == Pass
    ensures Read(Write(s, key, value, holder).0, key) == Some(Record(key, value))
    ensures Exists(Write(s, key, value, holder).0, key)
  {
  }

  /** The holder of a key may write to it and read the value back. */
  lemma HolderMayWrite<T>(s: Store<T>, key: Key, value: T, holder: Option<Holder>)
    requires FreshKey(s, key)
    ensures AcquireLock(s, key, holder, None, None).1
    ensures Write(AcquireLock(s, key, holder, None, None).0, key, value, holder).1 == Pass
    ensures Read(Write(AcquireLock(s, key, holder, None, None).0, key, value, holder).0, key)
            == Some(Record(key, value))
  {
  }

  /** Anyone else's write to a held key fails with a holder conflict and stores nothing. */
  lemma OtherHolderCannotWrite<T>(s: Store<T>, key: Key, value: T, h1: Option<Holder>, h2: Option<Holder>)
    requires FreshKey(s, key)
    requires ResolveHolder(h1) != ResolveHolder(h2)
    ensures AcquireLock(s, key, h1, None, None).1
    ensures Write(AcquireLock(s, key, h1, None, None).0, key, value, h2)
            == (AcquireLock(s, key, h1, None, None).0, Fail(HolderConflict(key)))
  {
  }

  /** Acquiring a free key locks it; its holder's release unlocks it. */
  lemma AcquireThenRelease<T>(s: Store<T>, key: Key, holder: Option<Holder>)
    requires FreshKey(s, key)
    ensures AcquireLock(s, key, holder, None, None).1
    ensures IsLocked(AcquireLock(s, key, holder, None, None).0, key)
    ensures ReleaseLock(AcquireLock(s, key, holder, None, None).0, key, holder).1 == Pass
    ensures !IsLocked(ReleaseLock(AcquireLock(s, key, holder, None, None).0, key, holder).0, key)
  {
  }

  /** Acquisition by the default holder is re-entrant and does not stack: the second
      acquire succeeds and changes nothing, and one release frees the key. */
  lemma AcquireIsIdempotent<T>(s: Store<T>, key: Key)
    requires FreshKey(s, key)
    ensures AcquireLock(s, key, None, None, None).1
    ensures AcquireLock(AcquireLock(s, key, None, None, None).0, key, None, None, None)
            == (AcquireLock(s, key, None, None, None).0, true)
    ensures IsLocked(AcquireLock(s, key, None, None, None).0, key)
    ensures ReleaseLock(AcquireLock(s, key, None, None, None).0, key, None).1 == Pass
    ensures !IsLocked(ReleaseLock(AcquireLock(s, key, None, None, None).0, key, None).0, key)
  {
  }

  /** A lock taken with a hold timeout is no longer in force once more time than the
      timeout has passed. */
  lemma HoldTimeoutExpires<T>(s: Store<T>, key: Key, holder: Option<Holder>, t: nat, d: nat)
    requires FreshKey(s, key)
    requires d > t
    ensures AcquireLock(s, key, holder, Some(t), None).1
    ensures IsLocked(AcquireLock(s, key, holder, Some(t), None).0, key)
    ensures !IsLocked(Tick(AcquireLock(s, key, holder, Some(t), None).0, d), key)
  {
  }

  /** A contender with an acquire timeout gives up on a lock that never expires; the
      first holder keeps it and can still release it. */
  lemma AcquireTimeoutGivesUp<T>(s: Store<T>, key: Key, h1: Option<Holder>, h2: Option<Holder>, t: nat)
    requires FreshKey(s, key)
    requires ResolveHolder(h1) != ResolveHolder(h2)
    ensures AcquireLock(s, key, h1, None, None).1
    ensures !AcquireLock(AcquireLock(s, key, h1, None, None).0, key, h2, None, Some(t)).1
    ensures IsLockHolder(AcquireLock(AcquireLock(s, key, h1, None, None).0, key, h2, None, Some(t)).0, key, h1)
    ensures ReleaseLock(AcquireLock(AcquireLock(s, key, h1, None, None).0, key, h2, None, Some(t)).0, key, h1).1
            == Pass
    ensures !IsLocked(ReleaseLock(AcquireLock(AcquireLock(s, key, h1, None, None).0, key, h2, None, Some(t)).0,
                                  key, h1).0, key)
  {
  }

  /** A blocking acquire against a lock with a hold timeout obtains the key once that
      lock expires; the new holder then holds it and can release it. */
  lemma AcquireAfterHolderTimedOut<T>(s: Store<T>, key: Key, h1: Option<Holder>, h2: Option<Holder>, t: nat)
    requires FreshKey(s, key)
    requires ResolveHolder(h1) != ResolveHolder(h2)
    ensures AcquireLock(s, key, h1, Some(t), None).1
    ensures IsLocked(AcquireLock(s, key, h1, Some(t), None).0, key)
    ensures AcquireLock(AcquireLock(s, key, h1, Some(t), None).0, key, h2, None, None).1
    ensures IsLockHolder(AcquireLock(AcquireLock(s, key, h1, Some(t), None).0, key, h2, None, None).0, key, h2)
    ensures ReleaseLock(AcquireLock(AcquireLock(s, key, h1, Some(t), None).0, key, h2, None, None).0, key, h2).1
            == Pass
    ensures !IsLocked(ReleaseLock(AcquireLock(AcquireLock(s, key, h1, Some(t), None).0, key, h2, None, None).0,
                                  key, h2).0, key)
  {
  }

  /** Only the holder may release: anyone else's release fails and leaves the lock
      with its holder. */
  lemma WrongHolderCannotRelease<T>(s: Store<T>, key: Key, h1: Option<Holder>, h2: Option<Holder>)
    requires FreshKey(s, key)
    requires ResolveHolder(h1) != ResolveHolder(h2)
    ensures AcquireLock(s, key, h1, None, None).1
    ensures ReleaseLock(AcquireLock(s, key, h1, None, None).0, key, h2)
            == (AcquireLock(s, key, h1, None, None).0, Fail(NotHolder(key, ResolveHolder(h2))))
    ensures IsLockHolder(AcquireLock(s, key, h1, None, None).0, key, h1)
  {
  }

  /** Nobody holds a free key; after an acquire exactly the acquirer does. */
  lemma LockHolderIsTheAcquirer<T>(s: Store<T>, key: Key, h1: Option<Holder>, h2: Option<Holder>)
    requires FreshKey(s, key)
    requires ResolveHolder(h1) != ResolveHolder(h2)
    ensures !IsLockHolder(s, key, h1)
    ensures AcquireLock(s, key, h1, None, None).1
    ensures IsLockHolder(AcquireLock(s, key, h1, None, None).0, key, h1)
    ensures !IsLockHolder(AcquireLock(s, key, h1, None, None).0, key, h2)
  {
  }

  /** Waiting without a timeout on a lock with a hold timeout returns true once the
      lock has expired, and the key is then free. */
  lemma WaitOutlastsHoldTimeout<T>(s: Store<T>, key: Key, holder: Option<Holder>, t: nat)
    requires FreshKey(s, key)
    ensures AcquireLock(s, key, holder, Some(t), None).1
    ensures IsLocked(AcquireLock(s, key, holder, Some(t), None).0, key)
    ensures WaitForLock(AcquireLock(s, key, holder, Some(t), None).0, key, None).1
    ensures !IsLocked(WaitForLock(AcquireLock(s, key, holder, Some(t), None).0, key, None).0, key)
  {
  }

  /** Waiting with a timeout on a lock that never expires returns false and leaves the
      lock with its holder, who can still release it. */
  lemma WaitTimesOut<T>(s: Store<T>, key: Key, holder: Option<Holder>, t: nat)
    requires FreshKey(s, key)
    ensures AcquireLock(s, key, holder, None, None).1
    ensures !WaitForLock(AcquireLock(s, key, holder, None, None).0, key, Some(t)).1
    ensures IsLockHolder(WaitForLock(AcquireLock(s, key, holder, None, None).0, key, Some(t)).0, key, holder)
    ensures ReleaseLock(WaitForLock(AcquireLock(s, key, holder, None, None).0, key, Some(t)).0, key, holder).1
            == Pass
    ensures !IsLocked(ReleaseLock(WaitForLock(AcquireLock(s, key, holder, None, None).0, key, Some(t)).0,
                                  key, holder).0, key)
  {
  }

  /** Waiting on a key that was never locked returns true at once and changes nothing. */
  lemma WaitOnFreeKey<T>(s: Store<T>, key: Key, timeout: Option<nat>)
    requires FreshKey(s, key)
    ensures !IsLocked(s, key)
    ensures WaitForLock(s, key, timeout) == (s, true)
  {
  }
}
