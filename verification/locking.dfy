/** The named locks of `seaplayer/others/locker.py`: a set of names, where
    acquiring a held name and releasing a free one are both harmless. */
module Locking {

  datatype Locker = Locker(locks: set<string>)

  /** `Locker.__init__` (its arguments are ignored). */
  function NewLocker(): (l: Locker)
    ensures forall n :: n !in l.locks
  {
    Locker({})
  }

  /** `Locker.locked`: whether the name is currently held. */
  function Locked(l: Locker, name: string): (b: bool)
    ensures b <==> name in l.locks
  {
    name in l.locks
  }

  /** `Locker.acquire`. */
  function Acquire(l: Locker, name: string): (r: Locker)
    ensures Locked(r, name)
    ensures forall m :: m != name ==> (Locked(r, m) <==> Locked(l, m))
    ensures Locked(l, name) ==> r == l
  {
    Locker(l.locks + {name})
  }

  /** `Locker.release`: the `KeyError` of removing a free name is swallowed. */
  function Release(l: Locker, name: string): (r: Locker)
    ensures !Locked(r, name)
    ensures forall m :: m != name ==> (Locked(r, m) <==> Locked(l, m))
    ensures !Locked(l, name) ==> r == l
  {
    if name in l.locks then Locker(l.locks - {name}) else l
  }

  /** A fresh locker holds nothing. */
  lemma {:induction false} NothingLockedInitially(name: string)
    ensures !Locked(NewLocker(), name)
  {
  }

  /** Acquiring twice is acquiring once; releasing twice is releasing once. */
  lemma {:induction false} Idempotent(l: Locker, name: string)
    ensures Acquire(Acquire(l, name), name) == Acquire(l, name)
    ensures Release(Release(l, name), name) == Release(l, name)
  {
  }

  /** Acquiring a free name and releasing it again restores the locker;
      releasing a held name and acquiring it again does too. */
  lemma {:induction false} RoundTrips(l: Locker, name: string)
    ensures !Locked(l, name) ==> Release(Acquire(l, name), name) == l
    ensures Locked(l, name) ==> Acquire(Release(l, name), name) == l
  {
    if !Locked(l, name) {
      assert Release(Acquire(l, name), name).locks == l.locks;
    } else {
      assert Acquire(Release(l, name), name).locks == l.locks;
    }
  }

  /** Operations on different names commute, in every pairing. */
  lemma {:induction false} DistinctNamesCommute(l: Locker, a: string, b: string)
    requires a != b
    ensures Acquire(Release(l, a), b) == Release(Acquire(l, b), a)
    ensures Acquire(Acquire(l, a), b) == Acquire(Acquire(l, b), a)
    ensures Release(Release(l, a), b) == Release(Release(l, b), a)
  {
    assert Acquire(Release(l, a), b).locks == Release(Acquire(l, b), a).locks;
    assert Acquire(Acquire(l, a), b).locks == Acquire(Acquire(l, b), a).locks;
    assert Release(Release(l, a), b).locks == Release(Release(l, b), a).locks;
  }
}
