/**
  The in-memory record store as an object: a record table and a lock table that
  its methods update in place, and the logical clock they read. Every method is
  proved to change the state exactly as the matching function of StoreSpec says,
  so the properties proved there hold of the object.
*/
module MemoryStore {
  import opened Wrappers
  import opened StoreSpec
  import Traces

  class MemoryRecordStore<T> {
    var records: map<Key, Record<T>>
    var locks: map<Key, LockEntry>
    var now: nat

    /** The store's state as a value. */
    function State(): Store<T>
      reads this
    {
      Store(records, locks, now)
    }

    predicate Valid()
      reads this
    {
      StoreSpec.Valid(State())
    }

    constructor ()
      ensures Valid() && State() == Empty()
    {
      records, locks, now := map[], map[], 0;
    }

    method Read(key: Key) returns (r: Option<Record<T>>)
      requires Valid()
      ensures r == StoreSpec.Read(State(), key)
      ensures r.Some? ==> r.value.key == key
    {
      if key in records {
        r := Some(records[key]);
      } else {
        r := None;
      }
    }

    method Exists(key: Key) returns (b: bool)
      ensures b == StoreSpec.Exists(State(), key)
      ensures b <==> StoreSpec.Read(State(), key).Some?
    {
      b := key in records;
    }

    method IsLocked(key: Key) returns (b: bool)
      ensures b == StoreSpec.IsLocked(State(), key)
    {
      b := key in locks && !Expired(locks[key], now);
    }

    method IsLockHolder(key: Key, holder: Option<Holder>) returns (b: bool)
      ensures b == StoreSpec.IsLockHolder(State(), key, holder)
      ensures b ==> StoreSpec.IsLocked(State(), key)
    {
      var locked := IsLocked(key);
      b := locked && locks[key].holder == ResolveHolder(holder);
    }

    method Write(key: Key, value: T, holder: Option<Holder>) returns (outcome: Outcome)
      requires Valid()
      modifies this
      ensures Valid()
      ensures (State(), outcome) == StoreSpec.Write(old(State()), key, value, holder)
    {
      var locked := IsLocked(key);
      var mine := IsLockHolder(key, holder);
      if locked && !mine {
        outcome := Fail(HolderConflict(key));
        return;
      }
      records := records[key := Record(key, value)];
      outcome := Pass;
    }

    method AcquireLock(key: Key, holder: Option<Holder>, holdTimeout: Option<nat>, acquireTimeout: Option<nat>)
      returns (acquired: bool)
      requires Valid()
      modifies this
      ensures Valid()
      ensures (State(), acquired) == StoreSpec.AcquireLock(old(State()), key, holder, holdTimeout, acquireTimeout)
    {
      var h := ResolveHolder(holder);
      var locked := IsLocked(key);
      if !locked {
        locks := locks[key := LockEntry(h, Deadline(now, holdTimeout))];
        return true;
      }
      var current := locks[key];
      if current.holder == h {
        return true;
      }
      // Another holder has the key: wait for its deadline or give up at the timeout.
      if ExpiresWithin(current, now, acquireTimeout) {
        now := current.deadline.value + 1;
        locks := locks[key := LockEntry(h, Deadline(now, holdTimeout))];
        acquired := true;
      } else {
        now := WaitEnd(now, acquireTimeout);
        acquired := false;
      }
    }

    method ReleaseLock(key: Key, holder: Option<Holder>) returns (outcome: Outcome)
      requires Valid()
      modifies this
      ensures Valid()
      ensures (State(), outcome) == StoreSpec.ReleaseLock(old(State()), key, holder)
    {
      var mine := IsLockHolder(key, holder);
      if !mine {
        return Fail(NotHolder(key, ResolveHolder(holder)));
      }
      locks := locks - {key};
      outcome := Pass;
    }

    method WaitForLock(key: Key, timeout: Option<nat>) returns (free: bool)
      requires Valid()
      modifies this
      ensures Valid()
      ensures (State(), free) == StoreSpec.WaitForLock(old(State()), key, timeout)
    {
      var locked := IsLocked(key);
      if !locked {
        return true;
      }
      var current := locks[key];
      if ExpiresWithin(current, now, timeout) {
        now := current.deadline.value + 1;
        free := true;
      } else {
        now := WaitEnd(now, timeout);
        free := false;
      }
    }

    /** Lets `d` units of time pass. */
    method Tick(d: nat)
      requires Valid()
      modifies this
      ensures Valid()
      ensures State() == StoreSpec.Tick(old(State()), d)
    {
      now := now + d;
    }

    /** Performs one state-changing call and reports its outcome. */
    method Apply(op: Traces.Op<T>) returns (outcome: Outcome)
      requires Valid()
      modifies this
      ensures Valid()
      ensures (State(), outcome) == Traces.Step(old(State()), op)
    {
      match op
      case WriteOp(k, v, h) =>
        outcome := Write(k, v, h);
      case AcquireOp(k, h, hold, wait) =>
        var _ := AcquireLock(k, h, hold, wait);
        outcome := Pass;
      case ReleaseOp(k, h) =>
        outcome := ReleaseLock(k, h);
      case WaitOp(k, t) =>
        var _ := WaitForLock(k, t);
        outcome := Pass;
      case TickOp(d) =>
        Tick(d);
        outcome := Pass;
    }

    /** The scoped lock: acquires `key` (blocking, no acquire timeout), performs the
        calls of `body` until one fails, and releases `key` on leaving; `exit` is the
        error that leaves the scope (the release's, else the body's), absent when
        the lock was not obtained and the body did not run. */
    method Lock(key: Key, holder: Option<Holder>, holdTimeout: Option<nat>, body: seq<Traces.Op<T>>)
      returns (exit: Option<Outcome>)
      requires Valid()
      modifies this
      ensures Valid()
      ensures match Traces.Lock(old(State()), key, holder, holdTimeout, body)
              case NotAcquired(st) => exit == None && State() == st
              case Ran(_, st, e) => exit == Some(e) && State() == st
    {
      var acquired := AcquireLock(key, holder, holdTimeout, None);
      if !acquired {
        return None;
      }
      ghost var inside := State();
      var i := 0;
      var failure := Pass;
      while i < |body| && failure.Pass?
        invariant 0 <= i <= |body|
        invariant Valid()
        invariant (State(), failure) == Traces.Run(inside, body[..i])
      {
        Traces.RunSnoc(inside, body[..i], body[i]);
        assert body[..i + 1] == body[..i] + [body[i]];
        failure := Apply(body[i]);
        i := i + 1;
      }
      if failure.Fail? {
        Traces.RunStopsAtFailure(inside, body[..i], body[i..]);
        assert body[..i] + body[i..] == body;
      } else {
        assert body[..i] == body;
      }
      var released := ReleaseLock(key, holder);
      exit := Some(if released.Fail? then released else failure);
    }
  }
}
