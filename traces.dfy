/**
  Sequences of state-changing store calls, the scoped lock that runs such a
  sequence between an acquire and a release, and what holds of every sequence:
  stored records keep their keys, calls on other keys leave a key alone, and a
  lock without a deadline stays with its holder until that holder releases it.
*/
module Traces {
  import opened Wrappers
  import opened StoreSpec

  /** A call that may change the store (the queries read, exists, is_locked and
      is_lock_holder change nothing and need no case here). */
  datatype Op<T> =
    | WriteOp(key: Key, value: T, holder: Option<Holder>)
    | AcquireOp(key: Key, holder: Option<Holder>, holdTimeout: Option<nat>, acquireTimeout: Option<nat>)
    | ReleaseOp(key: Key, holder: Option<Holder>)
    | WaitOp(key: Key, timeout: Option<nat>)
    | TickOp(delay: nat)

  /** One call: the new state and the call's outcome. A refused write or release
      fails (in the source it raises); an acquire or wait that returns false does not. */
  function Step<T>(s: Store<T>, op: Op<T>): (Store<T>, Outcome) {
    match op
    case WriteOp(k, v, h) => Write(s, k, v, h)
    case AcquireOp(k, h, hold, wait) => (AcquireLock(s, k, h, hold, wait).0, Pass)
    case ReleaseOp(k, h) => ReleaseLock(s, k, h)
    case WaitOp(k, t) => (WaitForLock(s, k, t).0, Pass)
    case TickOp(d) => (Tick(s, d), Pass)
  }

  /** Performs the calls in order and stops at the first one that fails, whose error
      is the outcome of the whole run. */
  function Run<T>(s: Store<T>, ops: seq<Op<T>>): (Store<T>, Outcome)
    decreases |ops|
  {
    if ops == [] then
      (s, Pass)
    else
      var first := Step(s, ops[0]);
      if first.1.Fail? then first else Run(first.0, ops[1..])
  }

  predicate Touches<T>(op: Op<T>, key: Key) {
    !op.TickOp? && op.key == key
  }

  predicate ReleasesAs<T>(op: Op<T>, key: Key, h: Holder) {
    op.ReleaseOp? && op.key == key && ResolveHolder(op.holder) == h
  }

  predicate WritesAs<T>(op: Op<T>, key: Key, h: Holder) {
    op.WriteOp? && op.key == key && ResolveHolder(op.holder) == h
  }

  /** Running a sequence one call further is one more step, unless the run has
      already failed. */
  lemma {:induction false} RunSnoc<T>(s: Store<T>, ops: seq<Op<T>>, op: Op<T>)
    ensures Run(s, ops + [op]) == if Run(s, ops).1.Fail? then Run(s, ops) else Step(Run(s, ops).0, op)
    decreases |ops|
  {
    if ops != [] {
      assert (ops + [op])[1..] == ops[1..] + [op];
      RunSnoc(Step(s, ops[0]).0, ops[1..], op);
    }
  }

  /** Once a call has failed, the calls after it are not performed. */
  lemma {:induction false} RunStopsAtFailure<T>(s: Store<T>, ops: seq<Op<T>>, rest: seq<Op<T>>)
    requires Run(s, ops).1.Fail?
    ensures Run(s, ops + rest) == Run(s, ops)
    decreases |ops|
  {
    assert ops != [];
    assert (ops + rest)[0] == ops[0];
    if Step(s, ops[0]).1.Pass? {
      assert (ops + rest)[1..] == ops[1..] + rest;
      RunStopsAtFailure(Step(s, ops[0]).0, ops[1..], rest);
    }
  }

  lemma StepPreservesValid<T>(s: Store<T>, op: Op<T>)
    requires Valid(s)
    ensures Valid(Step(s, op).0)
  {
  }

  /** No sequence of calls can store a record under a key other than its own. */
  lemma {:induction false} RunPreservesValid<T>(s: Store<T>, ops: seq<Op<T>>)
    requires Valid(s)
    ensures Valid(Run(s, ops).0)
    decreases |ops|
  {
    if ops != [] {
      StepPreservesValid(s, ops[0]);
      RunPreservesValid(Step(s, ops[0]).0, ops[1..]);
    }
  }

  lemma StepUntouched<T>(s: Store<T>, op: Op<T>, key: Key)
    requires !Touches(op, key)
    ensures Read(Step(s, op).0, key) == Read(s, key)
    ensures key in Step(s, op).0.locks <==> key in s.locks
    ensures key in s.locks ==> Step(s, op).0.locks[key] == s.locks[key]
  {
  }

  /** Keys are independent: calls on other keys (and time passing) leave a key's
      record and its lock entry exactly as they were. */
  lemma {:induction false} UntouchedKeyUnchanged<T>(s: Store<T>, ops: seq<Op<T>>, key: Key)
    requires forall i :: 0 <= i < |ops| ==> !Touches(ops[i], key)
    ensures Read(Run(s, ops).0, key) == Read(s, key)
    ensures key in Run(s, ops).0.locks <==> key in s.locks
    ensures key in s.locks ==> Run(s, ops).0.locks[key] == s.locks[key]
    decreases |ops|
  {
    if ops != [] {
      StepUntouched(s, ops[0], key);
      UntouchedKeyUnchanged(Step(s, ops[0]).0, ops[1..], key);
    }
  }

  /** One call against a key that `a` holds with no deadline: unless it is `a`'s own
      release, the lock stays; unless it is `a`'s own write, the record stays. */
  lemma StepKeepsHeldKey<T>(s: Store<T>, op: Op<T>, key: Key, a: Holder)
    requires LiveLock(s, key) == Some(LockEntry(a, None))
    requires !ReleasesAs(op, key, a)
    ensures LiveLock(Step(s, op).0, key) == Some(LockEntry(a, None))
    ensures !WritesAs(op, key, a) ==> Read(Step(s, op).0, key) == Read(s, key)
  {
    match op
    case WriteOp(k, v, h) =>
    case AcquireOp(k, h, hold, wait) =>
      if k != key {
        assert key in Step(s, op).0.locks;
      }
    case ReleaseOp(k, h) =>
    case WaitOp(k, t) =>
    case TickOp(d) =>
  }

  /** A lock with no hold timeout stays with its holder, whatever anyone else does
      and however much time passes, until the holder itself releases it. */
  lemma {:induction false} HeldUntilReleased<T>(s: Store<T>, ops: seq<Op<T>>, key: Key, a: Holder)
    requires LiveLock(s, key) == Some(LockEntry(a, None))
    requires forall i :: 0 <= i < |ops| ==> !ReleasesAs(ops[i], key, a)
    ensures LiveLock(Run(s, ops).0, key) == Some(LockEntry(a, None))
    decreases |ops|
  {
    if ops != [] {
      StepKeepsHeldKey(s, ops[0], key, a);
      HeldUntilReleased(Step(s, ops[0]).0, ops[1..], key, a);
    }
  }

  /** While `a` holds a key with no deadline, only `a` can change its record: every
      other holder's write to it fails. */
  lemma {:induction false} OnlyHolderWrites<T>(s: Store<T>, ops: seq<Op<T>>, key: Key, a: Holder)
    requires LiveLock(s, key) == Some(LockEntry(a, None))
    requires forall i :: 0 <= i < |ops| ==> !ReleasesAs(ops[i], key, a) && !WritesAs(ops[i], key, a)
    ensures Read(Run(s, ops).0, key) == Read(s, key)
    decreases |ops|
  {
    if ops != [] {
      StepKeepsHeldKey(s, ops[0], key, a);
      OnlyHolderWrites(Step(s, ops[0]).0, ops[1..], key, a);
    }
  }

  /** The outcome of a scoped lock: either the lock was never obtained and the body
      did not run, or the body ran from `inside` (just after the acquire) and the key
      was released, leaving `state`; `exit` is the error that leaves the scope, if any. */
  datatype Scope<T> =
    | NotAcquired(state: Store<T>)
    | Ran(inside: Store<T>, state: Store<T>, exit: Outcome)

  /** The scoped lock: acquire `key` (blocking, with no acquire timeout), run `body`
      until it ends or a call in it fails, then release `key` as the same holder
      whatever happened. An error from the release replaces the body's error, as an
      exception raised in a `finally` clause does. */
  function Lock<T>(s: Store<T>, key: Key, holder: Option<Holder>, holdTimeout: Option<nat>,
                   body: seq<Op<T>>): (r: Scope<T>)
    ensures r.NotAcquired? <==> !AcquireLock(s, key, holder, holdTimeout, None).1
    ensures r.NotAcquired? ==> r.state == AcquireLock(s, key, holder, holdTimeout, None).0
    ensures r.Ran? ==> r.inside == AcquireLock(s, key, holder, holdTimeout, None).0
    ensures r.Ran? ==> IsLockHolder(r.inside, key, holder)
    ensures r.Ran? && IsLockHolder(Run(r.inside, body).0, key, holder) ==>
              !IsLocked(r.state, key) && r.exit == Run(r.inside, body).1
    ensures r.Ran? && IsLockHolder(Run(r.inside, body).0, key, holder) ==>
              r.state.records == Run(r.inside, body).0.records && r.state.now == Run(r.inside, body).0.now &&
              r.state.locks == Run(r.inside, body).0.locks - {key}
    ensures r.Ran? && !IsLockHolder(Run(r.inside, body).0, key, holder) ==>
              r.state == Run(r.inside, body).0 && r.exit == Fail(NotHolder(key, ResolveHolder(holder)))
  {
    var acquired := AcquireLock(s, key, holder, holdTimeout, None);
    if !acquired.1 then
      NotAcquired(acquired.0)
    else
      var done := Run(acquired.0, body);
      var released := ReleaseLock(done.0, key, holder);
      Ran(acquired.0, released.0, if released.1.Fail? then released.1 else done.1)
  }

  /** On a free key and with no hold timeout, the scoped lock holds the key for the
      caller at every point of a body that does not release it itself; leaving the
      scope frees the key, and the only error that leaves it is the body's own. */
  lemma ScopedLockHoldsThenReleases<T>(s: Store<T>, key: Key, holder: Option<Holder>, body: seq<Op<T>>)
    requires !IsLocked(s, key)
    requires forall i :: 0 <= i < |body| ==> !ReleasesAs(body[i], key, ResolveHolder(holder))
    ensures Lock(s, key, holder, None, body).Ran?
    ensures Lock(s, key, holder, None, body).exit == Run(Lock(s, key, holder, None, body).inside, body).1
    ensures IsLockHolder(Lock(s, key, holder, None, body).inside, key, holder)
    ensures forall n :: 0 <= n <= |body| ==>
              IsLockHolder(Run(Lock(s, key, holder, None, body).inside, body[..n]).0, key, holder)
    ensures !IsLocked(Lock(s, key, holder, None, body).state, key)
  {
    var inside := AcquireLock(s, key, holder, None, None).0;
    var h := ResolveHolder(holder);
    assert LiveLock(inside, key) == Some(LockEntry(h, None));
    forall n | 0 <= n <= |body|
      ensures IsLockHolder(Run(inside, body[..n]).0, key, holder)
    {
      HeldUntilReleased(inside, body[..n], key, h);
    }
    HeldUntilReleased(inside, body, key, h);
  }
}
