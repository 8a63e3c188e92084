/** Common datatypes, and the readers/writers lock as its users see it. */
module Wrappers {
  datatype Option<+T> = None | Some(value: T)

  type byte = x: nat | x < 256

  function Min(a: nat, b: nat): nat {
    if a < b then a else b
  }

  function Pow2(n: nat): nat {
    if n == 0 then 1 else 2 * Pow2(n - 1)
  }
}

/**
 What a caller of the lock relies on: a set of tasks inside shared sections and
 at most one task inside an exclusive section.  Module RwLock proves that the
 semaphore protocol refines this; the cache and the user-app loader build on it.
 */
module LockSpec {
  import opened Wrappers

  datatype Lock = Lock(shared: set<nat>, exclusive: Option<nat>)

  const UNLOCKED := Lock({}, None)

  predicate MayShare(l: Lock) {
    l.exclusive.None?
  }

  predicate MayExclude(l: Lock) {
    l.exclusive.None? && l.shared == {}
  }

  /** A writer excludes every reader (and, by the type, every other writer). */
  predicate Exclusion(l: Lock) {
    l.exclusive.Some? ==> l.shared == {}
  }

  ghost predicate Acquire(l: Lock, l': Lock, t: nat) {
    || (MayShare(l) && t !in l.shared && l' == l.(shared := l.shared + {t}))
    || (MayExclude(l) && l' == l.(exclusive := Some(t)))
  }

  ghost predicate Release(l: Lock, l': Lock, t: nat) {
    || (t in l.shared && l' == l.(shared := l.shared - {t}))
    || (l.exclusive == Some(t) && l' == l.(exclusive := None))
  }

  /** One visible step of the lock, or a stutter. */
  ghost predicate Next(l: Lock, l': Lock, t: nat) {
    l' == l || Acquire(l, l', t) || Release(l, l', t)
  }
}
