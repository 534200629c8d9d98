/**
Entity locks: leases in one dictionary, expired lazily by the next caller who looks at the key.
Times are microseconds on the server clock.
*/
module Locks {

  datatype Key = Key(tenant: string, etype: string, eid: string)

  datatype Lease = Lease(user: string, expires: int)

  type Store = map<Key, Lease>

  datatype Request =
    | Acquire(key: Key, user: string, ttl: int, at: int)
    | Release(key: Key, user: string, at: int)

  datatype Answer =
    | Lock(acquired: bool, lockedBy: string, expiresAt: int)
    | Unlock(released: bool)

  const DEFAULT_TTL := 30
  const SECOND := 1_000_000

  function Expiry(ttl: int, now: int): int {
    now + (if ttl > 0 then ttl else DEFAULT_TTL) * SECOND
  }

  // ----- the servers' store: a stale lease stays until somebody looks at its key -----

  function Next(store: Store, r: Request): Store {
    match r
    case Acquire(key, user, ttl, now) =>
      if key in store && store[key].expires > now && store[key].user != user then store
      else store[key := Lease(user, Expiry(ttl, now))]
    case Release(key, user, _) =>
      if key in store && store[key].user == user then store - {key} else store
  }

  function Reply(store: Store, r: Request): Answer {
    match r
    case Acquire(key, user, ttl, now) =>
      if key in store && store[key].expires > now && store[key].user != user
      then Lock(false, store[key].user, store[key].expires)
      else Lock(true, user, Expiry(ttl, now))
    case Release(key, user, _) => Unlock(key in store && store[key].user == user)
  }

  function After(store: Store, run: seq<Request>): Store {
    if run == [] then store else Next(After(store, run[..|run| - 1]), run[|run| - 1])
  }

  /** The answer to request i of a run. */
  function AnswerAt(store: Store, run: seq<Request>, i: nat): Answer
    requires i < |run|
  {
    Reply(After(store, run[..i]), run[i])
  }

  ghost predicate ClockRuns(run: seq<Request>) {
    forall i, j :: 0 <= i <= j < |run| ==> run[i].at <= run[j].at
  }

  // ----- the reference: every lease is gone the moment it expires -----

  function LiveAt(store: Store, now: int): Store {
    map k | k in store && store[k].expires > now :: store[k]
  }

  function EagerNext(store: Store, r: Request): Store {
    var live := LiveAt(store, r.at);
    match r
    case Acquire(key, user, ttl, now) =>
      if key in live && live[key].user != user then live else live[key := Lease(user, Expiry(ttl, now))]
    case Release(key, user, _) =>
      if key in live && live[key].user == user then live - {key} else live
  }

  function EagerReply(store: Store, r: Request): Answer {
    var live := LiveAt(store, r.at);
    match r
    case Acquire(key, user, ttl, now) =>
      if key in live && live[key].user != user
      then Lock(false, live[key].user, live[key].expires)
      else Lock(true, user, Expiry(ttl, now))
    case Release(key, user, _) => Unlock(key in live && live[key].user == user)
  }

  function EagerAfter(store: Store, run: seq<Request>): Store {
    if run == [] then store else EagerNext(EagerAfter(store, run[..|run| - 1]), run[|run| - 1])
  }

  function EagerAnswerAt(store: Store, run: seq<Request>, i: nat): Answer
    requires i < |run|
  {
    EagerReply(EagerAfter(store, run[..i]), run[i])
  }

  /** The caller gives back a lease of its own that has already expired but was never cleared. */
  predicate StaleRelease(store: Store, r: Request) {
    r.Release? && r.key in store && store[r.key].user == r.user && store[r.key].expires <= r.at
  }

  lemma LiveLater(store: Store, t: int, now: int)
    requires t <= now
    ensures LiveAt(LiveAt(store, t), now) == LiveAt(store, now)
  {
  }

  /** One request, asked of two stores with the same live leases. */
  lemma SameLiveLeases(lazy: Store, eager: Store, r: Request)
    requires LiveAt(lazy, r.at) == LiveAt(eager, r.at)
    ensures LiveAt(Next(lazy, r), r.at) == LiveAt(EagerNext(eager, r), r.at)
    ensures Reply(lazy, r) == EagerReply(eager, r) <==> !StaleRelease(lazy, r)
  {
    var live := LiveAt(lazy, r.at);
    assert r.key in live <==> r.key in lazy && lazy[r.key].expires > r.at;
    assert r.key in live ==> live[r.key] == lazy[r.key];
    assert r.key in live ==> live[r.key] == eager[r.key];
  }

  lemma {:induction false} LiveLeasesAgree(run: seq<Request>, now: int)
    requires ClockRuns(run) && (run != [] ==> run[|run| - 1].at <= now)
    ensures LiveAt(After(map[], run), now) == LiveAt(EagerAfter(map[], run), now)
  {
    if run != [] {
      var r := run[|run| - 1];
      LiveLeasesAgree(run[..|run| - 1], r.at);
      var lazy, eager := After(map[], run[..|run| - 1]), EagerAfter(map[], run[..|run| - 1]);
      SameLiveLeases(lazy, eager, r);
      LiveLater(Next(lazy, r), r.at, now);
      LiveLater(EagerNext(eager, r), r.at, now);
    }
  }

  /**
  Over every run whose clock does not go back, lazy expiry answers exactly like eager expiry, except
  that giving back a stale lease of one's own is reported as released.
  */
  lemma AnswersLikeEagerStore(run: seq<Request>, i: nat)
    requires ClockRuns(run) && i < |run|
    ensures AnswerAt(map[], run, i) == EagerAnswerAt(map[], run, i) <==> !StaleRelease(After(map[], run[..i]), run[i])
    ensures run[i].Acquire? ==> AnswerAt(map[], run, i) == EagerAnswerAt(map[], run, i)
  {
    LiveLeasesAgree(run[..i], run[i].at);
    SameLiveLeases(After(map[], run[..i]), EagerAfter(map[], run[..i]), run[i]);
  }

  /** A user whose lease has run out gives it back and is told that it was released; an eager store knows of none. */
  lemma StaleReleaseShows(key: Key, user: string, ttl: int, granted: int, now: int)
    requires now >= Expiry(ttl, granted)
    ensures var run := [Acquire(key, user, ttl, granted), Release(key, user, now)];
            && StaleRelease(After(map[], run[..1]), run[1])
            && AnswerAt(map[], run, 1) == Unlock(true) && EagerAnswerAt(map[], run, 1) == Unlock(false)
  {
    var run := [Acquire(key, user, ttl, granted), Release(key, user, now)];
    assert run[..1] == [run[0]] && run[..1][..0] == [];
    assert After(map[], run[..1]) == map[key := Lease(user, Expiry(ttl, granted))];
    AnswersLikeEagerStore(run, 1);
  }

  // ----- lease safety -----

  /** The holder itself touches the key: it gives the lease back or renews it. */
  predicate ByHolder(r: Request, key: Key, user: string) {
    r.key == key && r.user == user
  }

  lemma {:induction false} LeaseHeld(store: Store, run: seq<Request>, i: nat, j: nat)
    requires ClockRuns(run) && i < j < |run|
    requires run[i].Acquire? && AnswerAt(store, run, i).acquired
    requires run[j].at < AnswerAt(store, run, i).expiresAt
    requires forall m :: i < m < j ==> !ByHolder(run[m], run[i].key, run[i].user)
    ensures run[i].key in After(store, run[..j])
    ensures After(store, run[..j])[run[i].key] == Lease(run[i].user, AnswerAt(store, run, i).expiresAt)
  {
    assert run[..j][..j - 1] == run[..j - 1];
    if j > i + 1 {
      LeaseHeld(store, run, i, j - 1);
    }
  }

  /**
  After a grant to u that lasts until e, whoever else asks for the key before e is refused and told
  about u and e, unless u gave the lease back or renewed it in between.
  */
  lemma LeaseSafety(store: Store, run: seq<Request>, i: nat, j: nat)
    requires ClockRuns(run) && i < j < |run|
    requires run[i].Acquire? && AnswerAt(store, run, i).acquired
    requires run[j].Acquire? && run[j].key == run[i].key && run[j].user != run[i].user
    requires run[j].at < AnswerAt(store, run, i).expiresAt
    requires forall m :: i < m < j ==> !ByHolder(run[m], run[i].key, run[i].user)
    ensures AnswerAt(store, run, j) == Lock(false, run[i].user, AnswerAt(store, run, i).expiresAt)
  {
    LeaseHeld(store, run, i, j);
  }

  /** How long a grant lasts: the seconds asked for, or thirty when none or a negative number was. */
  lemma GrantLasts(store: Store, key: Key, user: string, ttl: int, now: int)
    requires Reply(store, Acquire(key, user, ttl, now)).acquired
    ensures var until := now + (if ttl > 0 then ttl else 30) * 1_000_000;
            && Reply(store, Acquire(key, user, ttl, now)) == Lock(true, user, until)
            && Next(store, Acquire(key, user, ttl, now)) == store[key := Lease(user, until)]
  {
  }

  /** Who is granted a key: everybody, unless another user's lease on it still runs; a refusal changes nothing. */
  lemma GrantedExactly(store: Store, key: Key, user: string, ttl: int, now: int)
    ensures Reply(store, Acquire(key, user, ttl, now)).acquired
            <==> !(key in store && store[key].user != user && now < store[key].expires)
    ensures !Reply(store, Acquire(key, user, ttl, now)).acquired ==>
      && Next(store, Acquire(key, user, ttl, now)) == store
      && Reply(store, Acquire(key, user, ttl, now)) == Lock(false, store[key].user, store[key].expires)
  {
  }

  /** Who can give a key back: the user of the stored lease, and then it is gone; nobody else changes anything. */
  lemma ReleasedExactly(store: Store, key: Key, user: string, now: int)
    ensures Reply(store, Release(key, user, now)) == Unlock(key in store && store[key].user == user)
    ensures Next(store, Release(key, user, now))
            == map k | k in store && !(k == key && store[k].user == user) :: store[k]
  {
  }

  /** Lease safety in seconds: until the granted time has passed, everybody else is refused, unless the holder acts. */
  lemma LeaseSafetyInSeconds(store: Store, run: seq<Request>, i: nat, j: nat)
    requires ClockRuns(run) && i < j < |run|
    requires run[i].Acquire? && AnswerAt(store, run, i).acquired
    requires run[j].Acquire? && run[j].key == run[i].key && run[j].user != run[i].user
    requires run[j].at < run[i].at + (if run[i].ttl > 0 then run[i].ttl else 30) * 1_000_000
    requires forall m :: i < m < j ==> !ByHolder(run[m], run[i].key, run[i].user)
    ensures AnswerAt(store, run, j)
            == Lock(false, run[i].user, run[i].at + (if run[i].ttl > 0 then run[i].ttl else 30) * 1_000_000)
  {
    GrantLasts(After(store, run[..i]), run[i].key, run[i].user, run[i].ttl, run[i].at);
    LeaseSafety(store, run, i, j);
  }

  /** And from then on it is free: whoever asks next is granted it, if nobody has taken it in between. */
  lemma LeaseEnds(store: Store, run: seq<Request>, i: nat, j: nat)
    requires ClockRuns(run) && i < j < |run|
    requires run[i].Acquire? && AnswerAt(store, run, i).acquired
    requires run[j].Acquire? && run[j].key == run[i].key
    requires run[j].at >= run[i].at + (if run[i].ttl > 0 then run[i].ttl else 30) * 1_000_000
    requires forall m :: i < m < j ==> run[m].key != run[i].key
    ensures AnswerAt(store, run, j).acquired && AnswerAt(store, run, j).lockedBy == run[j].user
  {
    GrantLasts(After(store, run[..i]), run[i].key, run[i].user, run[i].ttl, run[i].at);
    KeyUntouched(store, run, i, j);
  }

  lemma {:induction false} KeyUntouched(store: Store, run: seq<Request>, i: nat, j: nat)
    requires i < j <= |run| && run[i].Acquire? && AnswerAt(store, run, i).acquired
    requires forall m :: i < m < j ==> run[m].key != run[i].key
    ensures run[i].key in After(store, run[..j])
    ensures After(store, run[..j])[run[i].key] == Lease(run[i].user, AnswerAt(store, run, i).expiresAt)
  {
    assert run[..j][..j - 1] == run[..j - 1];
    if j > i + 1 {
      KeyUntouched(store, run, i, j - 1);
    }
  }

  /** A refusal names a holder other than the caller whose lease is still running; a grant lasts beyond now. */
  lemma AnswersAreLive(store: Store, r: Request)
    requires r.Acquire?
    ensures var a := Reply(store, r);
            && a.expiresAt > r.at
            && (a.acquired <==> a.lockedBy == r.user)
            && r.key in Next(store, r) && Next(store, r)[r.key] == Lease(a.lockedBy, a.expiresAt)
  {
  }

  /** Releasing right after a grant gives the lock back: the next caller gets it at once. */
  lemma ReleaseFrees(store: Store, r: Request, other: string, ttl: int)
    requires r.Acquire? && Reply(store, r).acquired
    ensures var freed := Next(Next(store, r), Release(r.key, r.user, r.at));
            && freed == store - {r.key}
            && Reply(freed, Acquire(r.key, other, ttl, r.at)).acquired
  {
  }

  // ----- the two transports over one store -----

  class LockService {
    var locks: Store

    constructor ()
      ensures locks == map[]
    {
      locks := map[];
    }

    /** The gRPC handler. */
    method AcquireLock(key: Key, user: string, ttlSeconds: int, now: int) returns (response: Answer)
      modifies this
      ensures locks == Next(old(locks), Acquire(key, user, ttlSeconds, now))
      ensures response == Reply(old(locks), Acquire(key, user, ttlSeconds, now))
    {
      var ttl := if ttlSeconds > 0 then ttlSeconds else DEFAULT_TTL;
      var expiresAt := now + ttl * SECOND;
      if key in locks {
        var existing := locks[key];
        if existing.expires <= now {
          locks := locks - {key};
        } else if existing.user != user {
          return Lock(false, existing.user, existing.expires);
        }
      }
      locks := locks[key := Lease(user, expiresAt)];
      assert locks == old(locks)[key := Lease(user, expiresAt)];
      response := Lock(true, user, expiresAt);
    }

    method ReleaseLock(key: Key, user: string, ghost now: int) returns (response: Answer)
      modifies this
      ensures locks == Next(old(locks), Release(key, user, now))
      ensures response == Reply(old(locks), Release(key, user, now))
    {
      if key in locks && locks[key].user == user {
        locks := locks - {key};
        return Unlock(true);
      }
      response := Unlock(false);
    }
  }
}
