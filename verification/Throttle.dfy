/**
  The login throttle (`internal/web/throttle.go`).  Instants are counted from
  Go's zero time, which a new entry's lock and last-seen stamps start at.
 */
module Throttle {
  import Text

  datatype Attempt = Attempt(failures: int, lockedUntil: int, lastSeen: int)

  type Attempts = map<string, Attempt>

  /** `throttleKey`. */
  function Key(username: string): string {
    Text.Normalize(username)
  }

  /** Two usernames share an entry exactly when, white space around them aside, they differ in case at most. */
  lemma {:induction false} KeyExactly(u: string, v: string)
    ensures Key(u) == Key(v) <==> Text.SameButCase(Text.TrimSpace(u), Text.TrimSpace(v))
  {
    Text.NormalizeExactly(u, v);
  }

  /** So white space around a bare username and the case of its letters make no difference. */
  lemma {:induction false} KeyOfVariant(before: string, u: string, after: string, v: string)
    requires Text.AllBlank(before) && Text.AllBlank(after) && Text.Trimmed(u) && Text.SameButCase(u, v)
    ensures Key(before + u + after) == Key(v)
  {
    Text.TrimTakesOff(before, u, after);
    Text.TrimTakesOff([], v, []);
    assert [] + v + [] == v;
    Text.NormalizeExactly(before + u + after, v);
  }

  function Max(a: int, b: int): int {
    if a < b then b else a
  }

  // ---- What the operations do to the table ----

  predicate Locked(m: Attempts, k: string, now: int) {
    k in m && now < m[k].lockedUntil
  }

  function EntryOf(m: Attempts, k: string): Attempt {
    if k in m then m[k] else Attempt(0, 0, 0)
  }

  function Counted(a: Attempt, threshold: int, cooldown: int, now: int): Attempt {
    if a.failures + 1 >= threshold then Attempt(0, now + cooldown, now) else Attempt(a.failures + 1, a.lockedUntil, now)
  }

  function Failed(m: Attempts, threshold: int, cooldown: int, k: string, now: int): Attempts {
    m[k := Counted(EntryOf(m, k), threshold, cooldown, now)]
  }

  predicate Stale(a: Attempt, cooldown: int, now: int) {
    now >= a.lockedUntil && now - a.lastSeen >= cooldown
  }

  function Cleaned(m: Attempts, cooldown: int, now: int): Attempts {
    map k | k in m && !Stale(m[k], cooldown, now) :: m[k]
  }

  /** A clean-up keeps an entry while it is locked, and for one cooldown after it was last seen; no other is touched. */
  lemma {:induction false} CleanedExactly(m: Attempts, cooldown: int, now: int, k: string)
    ensures k in Cleaned(m, cooldown, now) <==> k in m && (now < m[k].lockedUntil || now < m[k].lastSeen + cooldown)
    ensures k in Cleaned(m, cooldown, now) ==> Cleaned(m, cooldown, now)[k] == m[k]
  {
  }

  /**
    A failure locks its entry for one cooldown from now exactly when it completes the
    threshold; no other is touched.
   */
  lemma {:induction false} FailedExactly(m: Attempts, threshold: int, cooldown: int, k: string, now: int, other: string)
    ensures var (t, before) := (Failed(m, threshold, cooldown, k, now), if k in m then m[k].failures else 0);
      && k in t && t[k].lastSeen == now
      && (if before + 1 >= threshold then t[k].failures == 0 && t[k].lockedUntil == now + cooldown
          else t[k].failures == before + 1 && (k in m ==> t[k].lockedUntil == m[k].lockedUntil))
      && (other != k ==> (other in t <==> other in m) && (other in m ==> t[other] == m[other]))
  {
  }

  class LoginThrottle {
    var attempts: Attempts
    const threshold: int
    const cooldown: int

    constructor (threshold: int, cooldown: int)
      ensures this.threshold == threshold && this.cooldown == cooldown && attempts == map[]
    {
      this.threshold, this.cooldown := threshold, cooldown;
      attempts := map[];
    }

    /** `allowed`. */
    method Allowed(username: string, now: int) returns (ok: bool, wait: int)
      ensures ok <==> !Locked(attempts, Key(username), now)
      ensures wait >= 0 && (wait == 0 <==> ok)
      ensures forall later :: now <= later ==> (Locked(attempts, Key(username), later) <==> later < now + wait)
    {
      var key := Key(username);
      if key !in attempts {
        return true, 0;
      }
      var st := attempts[key];
      if now < st.lockedUntil {
        return false, st.lockedUntil - now;
      }
      return true, 0;
    }

    /** `recordFailure`. */
    method RecordFailure(username: string, now: int)
      modifies this
      ensures attempts == Failed(old(attempts), threshold, cooldown, Key(username), now)
    {
      var key := Key(username);
      var st := if key in attempts then attempts[key] else Attempt(0, 0, 0);
      st := st.(failures := st.failures + 1);
      st := st.(lastSeen := now);
      if st.failures >= threshold {
        st := st.(lockedUntil := now + cooldown);
        st := st.(failures := 0);
      }
      attempts := attempts[key := st];
    }

    /** `recordSuccess`. */
    method RecordSuccess(username: string)
      modifies this
      ensures attempts == old(attempts) - {Key(username)}
    {
      attempts := attempts - {Key(username)};
    }

    /** `cleanup`: the entries may be visited in any order. */
    method Cleanup(now: int)
      modifies this
      ensures attempts == Cleaned(old(attempts), cooldown, now)
    {
      var before := attempts;
      var left := attempts.Keys;
      while left != {}
        invariant left <= before.Keys
        invariant attempts == map k | k in before && (k in left || !Stale(before[k], cooldown, now)) :: before[k]
        decreases left
      {
        var key :| key in left;
        left := left - {key};
        var st := before[key];
        if now < st.lockedUntil {
          continue;
        }
        if now - st.lastSeen >= cooldown {
          attempts := attempts - {key};
        }
      }
    }
  }

  // ---- Runs ----

  datatype Event = Failure(user: string, at: int) | Success(user: string) | Cleanup(at: int)

  /** The table after one call. */
  function Call(m: Attempts, threshold: int, cooldown: int, e: Event): Attempts {
    match e
    case Failure(u, t) => Failed(m, threshold, cooldown, Key(u), t)
    case Success(u) => m - {Key(u)}
    case Cleanup(t) => Cleaned(m, cooldown, t)
  }

  /** The clock at a call; a success carries no instant. */
  function TimeOf(e: Event, clock: int): int {
    match e
    case Failure(_, t) => t
    case Success(_) => clock
    case Cleanup(t) => t
  }

  /** The table after a sequence of calls. */
  function After(threshold: int, cooldown: int, evs: seq<Event>): Attempts {
    if evs == [] then map[] else Call(After(threshold, cooldown, evs[..|evs| - 1]), threshold, cooldown, evs[|evs| - 1])
  }

  /** The latest instant of a run with a non-decreasing clock, none before start. */
  function Clock(evs: seq<Event>, start: int): int {
    if evs == [] then start else TimeOf(evs[|evs| - 1], Clock(evs[..|evs| - 1], start))
  }

  /** The clock never goes back, and a failure is recorded only when the user was allowed at that instant. */
  predicate Legal(threshold: int, cooldown: int, start: int, evs: seq<Event>) {
    evs == [] ||
      var before := evs[..|evs| - 1];
      && Legal(threshold, cooldown, start, before)
      && match evs[|evs| - 1]
         case Failure(u, t) => t >= Clock(before, start) && !Locked(After(threshold, cooldown, before), Key(u), t)
         case Success(_) => true
         case Cleanup(t) => t >= Clock(before, start)
  }

  /** The instants of the key's failures in a stretch of a run. */
  function FailureTimes(evs: seq<Event>, k: string): seq<int> {
    if evs == [] then []
    else
      var ts := FailureTimes(evs[..|evs| - 1], k);
      match evs[|evs| - 1]
      case Failure(u, t) => if Key(u) == k then ts + [t] else ts
      case Success(_) => ts
      case Cleanup(_) => ts
  }

  predicate SuccessOf(e: Event, k: string) {
    e.Success? && Key(e.user) == k
  }

  /** The instants of the key's failures since its last success. */
  function Since(evs: seq<Event>, k: string): seq<int> {
    if evs == [] then []
    else
      var ts := Since(evs[..|evs| - 1], k);
      var e := evs[|evs| - 1];
      if SuccessOf(e, k) then []
      else if e.Failure? && Key(e.user) == k then ts + [e.at] else ts
  }

  /** How many of the instants lie in [w, w + c). */
  function CountIn(ts: seq<int>, w: int, c: int): nat {
    if ts == [] then 0
    else CountIn(ts[..|ts| - 1], w, c) + (if w <= ts[|ts| - 1] < w + c then 1 else 0)
  }

  /** What the table knows of the failures ts of one key. */
  ghost predicate Tracks(m: Attempts, threshold: int, cooldown: int, clock: int, k: string, ts: seq<int>) {
    var f := EntryOf(m, k).failures;
    && 0 <= f < Max(1, threshold) && f <= |ts|
    && (forall i :: 0 <= i < |ts| ==> ts[i] <= clock && (k in m ==> ts[i] <= m[k].lastSeen))
    && (forall i :: 0 <= i < |ts| - f ==>
          ts[i] + cooldown <= clock || (k in m && ts[i] + cooldown <= m[k].lockedUntil))
  }

  lemma {:induction false} RunTracks(threshold: int, cooldown: int, start: int, evs: seq<Event>, k: string)
    requires Legal(threshold, cooldown, start, evs)
    ensures Tracks(After(threshold, cooldown, evs), threshold, cooldown, Clock(evs, start), k, Since(evs, k))
  {
    if evs != [] {
      RunTracks(threshold, cooldown, start, evs[..|evs| - 1], k);
    }
  }

  lemma {:induction false} CountNone(ts: seq<int>, w: int, c: int, n: nat)
    requires n <= |ts| && forall i :: 0 <= i < |ts| - n ==> ts[i] < w
    ensures CountIn(ts, w, c) <= n
  {
    if ts != [] {
      CountNone(ts[..|ts| - 1], w, c, if n == 0 then 0 else n - 1);
    }
  }

  /** One more failure at an instant when all but the latest f are a cooldown old. */
  lemma {:induction false} CountNew(ts: seq<int>, at: int, f: nat, w: int, c: int, bound: int)
    requires CountIn(ts, w, c) <= bound && f < bound && f <= |ts|
    requires forall i :: 0 <= i < |ts| - f ==> ts[i] + c <= at
    ensures CountIn(ts + [at], w, c) <= bound
  {
    assert (ts + [at])[..|ts|] == ts;
    if w <= at < w + c {
      CountNone(ts, w, c, f);
    }
  }

  lemma {:induction false} SinceBound(threshold: int, cooldown: int, start: int, evs: seq<Event>, k: string, w: int)
    requires Legal(threshold, cooldown, start, evs)
    ensures CountIn(Since(evs, k), w, cooldown) <= Max(1, threshold)
  {
    if evs != [] {
      var before := evs[..|evs| - 1];
      var e := evs[|evs| - 1];
      SinceBound(threshold, cooldown, start, before, k, w);
      if e.Failure? && Key(e.user) == k {
        RunTracks(threshold, cooldown, start, before, k);
        var f := EntryOf(After(threshold, cooldown, before), k).failures;
        CountNew(Since(before, k), e.at, f, w, cooldown, Max(1, threshold));
      }
    }
  }

  lemma {:induction false} CountAppend(a: seq<int>, b: seq<int>, w: int, c: int)
    ensures CountIn(a + b, w, c) == CountIn(a, w, c) + CountIn(b, w, c)
  {
    if b == [] {
      assert a + b == a;
    } else {
      assert (a + b)[..|a + b| - 1] == a + b[..|b| - 1];
      CountAppend(a, b[..|b| - 1], w, c);
    }
  }

  /** Without a success in evs[i..j], its failures are the latest of those since the last success. */
  lemma {:induction false} FailuresAreRecent(evs: seq<Event>, i: nat, j: nat, k: string)
    requires i <= j <= |evs| && forall x :: i <= x < j ==> !SuccessOf(evs[x], k)
    ensures Since(evs[..j], k) == Since(evs[..i], k) + FailureTimes(evs[i..j], k)
  {
    if i < j {
      FailuresAreRecent(evs, i, j - 1, k);
      assert evs[..j][..j - 1] == evs[..j - 1];
      assert evs[i..j][..j - 1 - i] == evs[i..j - 1];
    } else {
      assert evs[i..j] == [];
    }
  }

  lemma {:induction false} LegalPrefix(threshold: int, cooldown: int, start: int, evs: seq<Event>, j: nat)
    requires Legal(threshold, cooldown, start, evs) && j <= |evs|
    ensures Legal(threshold, cooldown, start, evs[..j])
    decreases |evs|
  {
    if j < |evs| {
      LegalPrefix(threshold, cooldown, start, evs[..|evs| - 1], j);
      assert evs[..|evs| - 1][..j] == evs[..j];
    } else {
      assert evs[..j] == evs;
    }
  }

  /**
    The throttle's promise.  In every legal run, over every stretch of it without
    a success for the key, every window of one cooldown holds at most `threshold`
    failures of that key (one, when the threshold is not positive).
   */
  lemma {:induction false} WindowBound(threshold: int, cooldown: int, start: int, evs: seq<Event>, i: nat, j: nat,
                                       k: string, w: int)
    requires Legal(threshold, cooldown, start, evs)
    requires i <= j <= |evs| && forall x :: i <= x < j ==> !SuccessOf(evs[x], k)
    ensures CountIn(FailureTimes(evs[i..j], k), w, cooldown) <= Max(1, threshold)
  {
    LegalPrefix(threshold, cooldown, start, evs, j);
    FailuresAreRecent(evs, i, j, k);
    SinceBound(threshold, cooldown, start, evs[..j], k, w);
    CountAppend(Since(evs[..i], k), FailureTimes(evs[i..j], k), w, cooldown);
  }

  // ---- The bound is reached, and a lock ends ----

  function Burst(user: string, t: int, n: nat): seq<Event> {
    if n == 0 then [] else Burst(user, t, n - 1) + [Failure(user, t)]
  }

  lemma {:induction false} BurstEnd(user: string, t: nat, n: nat)
    requires n > 0
    ensures var evs := Burst(user, t, n);
            evs != [] && evs[..|evs| - 1] == Burst(user, t, n - 1) && evs[|evs| - 1] == Failure(user, t)
  {
  }

  lemma {:induction false} BurstStep(base: seq<Event>, user: string, t: nat, n: nat)
    requires n > 0
    ensures var evs := base + Burst(user, t, n);
            evs != [] && evs[..|evs| - 1] == base + Burst(user, t, n - 1) && evs[|evs| - 1] == Failure(user, t)
  {
    BurstEnd(user, t, n);
  }

  lemma {:induction false} FailureStep(threshold: int, cooldown: int, front: seq<Event>, evs: seq<Event>, user: string,
                                       t: int)
    requires evs != [] && evs[..|evs| - 1] == front && evs[|evs| - 1] == Failure(user, t)
    ensures Legal(threshold, cooldown, 0, evs) <==>
              && Legal(threshold, cooldown, 0, front) && t >= Clock(front, 0)
              && !Locked(After(threshold, cooldown, front), Key(user), t)
    ensures Clock(evs, 0) == t
    ensures EntryOf(After(threshold, cooldown, evs), Key(user))
            == Counted(EntryOf(After(threshold, cooldown, front), Key(user)), threshold, cooldown, t)
  {
  }

  lemma {:induction false} CountedOnce(a: Attempt, threshold: int, cooldown: int, t: nat, n: nat)
    requires n > 0 && 0 <= a.failures <= Max(1, threshold) - n
    ensures Counted(BurstEntry(a, threshold, cooldown, t, n - 1), threshold, cooldown, t)
            == BurstEntry(a, threshold, cooldown, t, n)
    ensures a.lockedUntil <= t ==> BurstEntry(a, threshold, cooldown, t, n - 1).lockedUntil <= t
  {
  }

  lemma {:induction false} LockedByEntry(m: Attempts, k: string, t: nat)
    ensures Locked(m, k, t) <==> t < EntryOf(m, k).lockedUntil
  {
  }

  /** The entry that n more failures at t leave, up to the threshold. */
  function BurstEntry(a: Attempt, threshold: int, cooldown: int, t: nat, n: nat): Attempt {
    if n == 0 then a
    else if a.failures + n < Max(1, threshold) then Attempt(a.failures + n, a.lockedUntil, t)
    else Attempt(0, t + cooldown, t)
  }

  /** A burst after any legal run that leaves the user unlocked. */
  lemma {:induction false} BurstAfter(threshold: int, cooldown: int, base: seq<Event>, user: string, t: nat, n: nat)
    requires Legal(threshold, cooldown, 0, base) && t >= Clock(base, 0)
    requires !Locked(After(threshold, cooldown, base), Key(user), t)
    requires 0 <= EntryOf(After(threshold, cooldown, base), Key(user)).failures <= Max(1, threshold) - n
    ensures var evs := base + Burst(user, t, n);
      && Legal(threshold, cooldown, 0, evs) && Clock(evs, 0) <= t
      && EntryOf(After(threshold, cooldown, evs), Key(user))
         == BurstEntry(EntryOf(After(threshold, cooldown, base), Key(user)), threshold, cooldown, t, n)
  {
    if n == 0 {
      assert base + [] == base;
    } else {
      BurstStep(base, user, t, n);
      BurstAfter(threshold, cooldown, base, user, t, n - 1);
      var front := base + Burst(user, t, n - 1);
      LockedByEntry(After(threshold, cooldown, base), Key(user), t);
      LockedByEntry(After(threshold, cooldown, front), Key(user), t);
      CountedOnce(EntryOf(After(threshold, cooldown, base), Key(user)), threshold, cooldown, t, n);
      FailureStep(threshold, cooldown, front, base + Burst(user, t, n), user, t);
    }
  }

  /**
    A burst of n failures at one instant is a legal run exactly when n is at most
    the threshold, for a positive cooldown: the bound of WindowBound is reached,
    and the attempt after it is refused.
   */
  lemma {:induction false} BurstLegalExactly(threshold: int, cooldown: int, user: string, t: nat, n: nat)
    requires cooldown > 0
    ensures Legal(threshold, cooldown, 0, Burst(user, t, n)) <==> n <= Max(1, threshold)
  {
    assert [] + Burst(user, t, n) == Burst(user, t, n);
    if n <= Max(1, threshold) {
      BurstAfter(threshold, cooldown, [], user, t, n);
    } else {
      var top: nat := Max(1, threshold);
      BurstAfter(threshold, cooldown, [], user, t, top);
      assert [] + Burst(user, t, top) == Burst(user, t, top);
      LockedAtTop(threshold, cooldown, user, t, top);
      if Legal(threshold, cooldown, 0, Burst(user, t, n)) {
        BurstPrefix(user, t, n, top + 1);
        LegalPrefix(threshold, cooldown, 0, Burst(user, t, n), top + 1);
      }
    }
  }

  /** A burst that locks the user does not go on. */
  lemma {:induction false} LockedAtTop(threshold: int, cooldown: int, user: string, t: nat, top: nat)
    requires t < EntryOf(After(threshold, cooldown, Burst(user, t, top)), Key(user)).lockedUntil
    ensures !Legal(threshold, cooldown, 0, Burst(user, t, top + 1))
  {
    BurstEnd(user, t, top + 1);
    LockedByEntry(After(threshold, cooldown, Burst(user, t, top)), Key(user), t);
    FailureStep(threshold, cooldown, Burst(user, t, top), Burst(user, t, top + 1), user, t);
  }

  lemma {:induction false} BurstPrefix(user: string, t: nat, n: nat, j: nat)
    requires j <= n
    ensures |Burst(user, t, n)| == n && Burst(user, t, n)[..j] == Burst(user, t, j)
  {
    if n > 0 {
      BurstPrefix(user, t, n - 1, if j < n then j else n - 1);
    }
  }

  /** No lock outlasts one cooldown from the latest instant of the run. */
  lemma {:induction false} LockEnds(threshold: int, cooldown: int, start: int, evs: seq<Event>, k: string, now: int)
    requires Legal(threshold, cooldown, start, evs) && start >= 0 && cooldown >= 0
    requires now >= Clock(evs, start) + cooldown
    ensures Clock(evs, start) >= start
    ensures !Locked(After(threshold, cooldown, evs), k, now)
  {
    if evs != [] {
      var before := evs[..|evs| - 1];
      ClockGrows(threshold, cooldown, start, before);
      LockEnds(threshold, cooldown, start, before, k, Max(now, Clock(before, start) + cooldown));
    }
  }

  lemma {:induction false} ClockGrows(threshold: int, cooldown: int, start: int, evs: seq<Event>)
    requires Legal(threshold, cooldown, start, evs)
    ensures Clock(evs, start) >= start
  {
    if evs != [] {
      ClockGrows(threshold, cooldown, start, evs[..|evs| - 1]);
    }
  }

  // ---- When a clean-up goes unnoticed ----

  /**
    Dropping an idle entry forgets its failures, so a later lock may come later.
    With threshold 2 and cooldown 10: failures at 0 and 10 lock the user; with a
    clean-up at 10 between them they do not.
   */
  lemma {:induction false} CleanupDelaysLock(user: string)
    ensures var (a, b) := ([Failure(user, 0), Failure(user, 10)], [Failure(user, 0), Cleanup(10), Failure(user, 10)]);
      && Legal(2, 10, 0, a) && Legal(2, 10, 0, b)
      && Locked(After(2, 10, a), Key(user), 11) && !Locked(After(2, 10, b), Key(user), 11)
  {
    var first := [Failure(user, 0)];
    assert first[..0] == [];
    assert After(2, 10, first) == map[Key(user) := Attempt(1, 0, 0)];
    var a, c := [Failure(user, 0), Failure(user, 10)], [Failure(user, 0), Cleanup(10)];
    assert a[..1] == first && c[..1] == first;
    assert After(2, 10, c) == map[];
    var b := [Failure(user, 0), Cleanup(10), Failure(user, 10)];
    assert b[..2] == c;
  }

  /** With a clean-up at t inserted after `before`, every continuation stays legal and gets the same answers. */
  ghost predicate Unnoticed(threshold: int, cooldown: int, before: seq<Event>, t: int) {
    forall rest :: Legal(threshold, cooldown, 0, before + [Cleanup(t)] + rest) ==>
      SameAnswers(threshold, cooldown, before, t, rest)
  }

  ghost predicate SameAnswers(threshold: int, cooldown: int, before: seq<Event>, t: int, rest: seq<Event>) {
    && Legal(threshold, cooldown, 0, before + rest)
    && forall k, later :: later >= Clock(before + [Cleanup(t)] + rest, 0) ==>
         Locked(After(threshold, cooldown, before + rest), k, later)
         == Locked(After(threshold, cooldown, before + [Cleanup(t)] + rest), k, later)
  }

  /** No entry that a clean-up at t drops is counting failures; without a positive cooldown no lock ever holds. */
  predicate DropsNoCount(m: Attempts, cooldown: int, t: int) {
    cooldown <= 0 || forall k :: k in m && Stale(m[k], cooldown, t) ==> m[k].failures == 0
  }

  /** Locks that no instant from the clock on can tell apart. */
  predicate SameLock(a: int, b: int, clock: int) {
    a == b || (a <= clock && b <= clock)
  }

  /** The entries of one key in the tables without and with the clean-up. */
  predicate Alike(m: Attempts, m': Attempts, cooldown: int, clock: int, k: string) {
    var (a, b) := (EntryOf(m, k), EntryOf(m', k));
    && SameLock(a.lockedUntil, b.lockedUntil, clock)
    && (cooldown > 0 ==> a.failures == b.failures && (k in m' ==> k in m && a.lastSeen == b.lastSeen))
    && (cooldown <= 0 ==> a.lockedUntil <= clock)
  }

  ghost predicate AllAlike(m: Attempts, m': Attempts, cooldown: int, clock: int) {
    forall k :: Alike(m, m', cooldown, clock, k)
  }

  lemma {:induction false} CallKeepsAlike(m: Attempts, m': Attempts, threshold: int, cooldown: int, clock: int,
                                          e: Event, k: string)
    requires Alike(m, m', cooldown, clock, k) && TimeOf(e, clock) >= clock >= 0
    ensures Alike(Call(m, threshold, cooldown, e), Call(m', threshold, cooldown, e), cooldown, TimeOf(e, clock), k)
  {
  }

  lemma {:induction false} LockBound(threshold: int, cooldown: int, evs: seq<Event>, k: string)
    requires Legal(threshold, cooldown, 0, evs)
    ensures EntryOf(After(threshold, cooldown, evs), k).lockedUntil <= Clock(evs, 0) + Max(0, cooldown)
  {
    if evs != [] {
      ClockGrows(threshold, cooldown, 0, evs[..|evs| - 1]);
      LockBound(threshold, cooldown, evs[..|evs| - 1], k);
    }
  }

  lemma {:induction false} CleanupAlike(threshold: int, cooldown: int, before: seq<Event>, t: int)
    requires Legal(threshold, cooldown, 0, before) && t >= Clock(before, 0)
    requires DropsNoCount(After(threshold, cooldown, before), cooldown, t)
    ensures var m := After(threshold, cooldown, before); AllAlike(m, Cleaned(m, cooldown, t), cooldown, t)
  {
    var m := After(threshold, cooldown, before);
    ClockGrows(threshold, cooldown, 0, before);
    forall k ensures Alike(m, Cleaned(m, cooldown, t), cooldown, t, k) {
      LockBound(threshold, cooldown, before, k);
    }
  }

  lemma {:induction false} SplitLast(a: seq<Event>, rest: seq<Event>)
    requires rest != []
    ensures var n := |rest| - 1;
      a + rest != [] && (a + rest)[..|a + rest| - 1] == a + rest[..n] && (a + rest)[|a + rest| - 1] == rest[n]
  {
  }

  /** Both runs go on alike. */
  lemma {:induction false} GoOnAlike(threshold: int, cooldown: int, before: seq<Event>, t: int, rest: seq<Event>)
    requires Legal(threshold, cooldown, 0, before + [Cleanup(t)] + rest)
    requires DropsNoCount(After(threshold, cooldown, before), cooldown, t)
    ensures Legal(threshold, cooldown, 0, before + rest)
    ensures Clock(before + rest, 0) <= Clock(before + [Cleanup(t)] + rest, 0)
    ensures AllAlike(After(threshold, cooldown, before + rest),
                     After(threshold, cooldown, before + [Cleanup(t)] + rest),
                     cooldown, Clock(before + [Cleanup(t)] + rest, 0))
    decreases |rest|
  {
    var with := before + [Cleanup(t)];
    if rest == [] {
      assert with + rest == with && before + rest == before && with[..|with| - 1] == before;
      CleanupAlike(threshold, cooldown, before, t);
    } else {
      var front, e := rest[..|rest| - 1], rest[|rest| - 1];
      SplitLast(with, rest);
      SplitLast(before, rest);
      GoOnAlike(threshold, cooldown, before, t, front);
      ClockGrows(threshold, cooldown, 0, with + front);
      var m, m' := After(threshold, cooldown, before + front), After(threshold, cooldown, with + front);
      var clock := Clock(with + front, 0);
      assert e.Failure? ==> Alike(m, m', cooldown, clock, Key(e.user));
      forall k
        ensures Alike(Call(m, threshold, cooldown, e), Call(m', threshold, cooldown, e), cooldown, TimeOf(e, clock), k)
      {
        CallKeepsAlike(m, m', threshold, cooldown, clock, e, k);
      }
    }
  }

  lemma {:induction false} UserOf(threshold: int, cooldown: int, evs: seq<Event>, k: string) returns (user: string)
    requires k in After(threshold, cooldown, evs)
    ensures Key(user) == k
  {
    var e := evs[|evs| - 1];
    if e.Failure? && Key(e.user) == k {
      user := e.user;
    } else {
      user := UserOf(threshold, cooldown, evs[..|evs| - 1], k);
    }
  }

  /**
    A dropped count shows: as many failures as were missing to the threshold lock the
    user only without the clean-up.
   */
  lemma {:induction false} DroppedCountShows(threshold: int, cooldown: int, before: seq<Event>, t: int, k: string)
    requires Legal(threshold, cooldown, 0, before + [Cleanup(t)]) && Legal(threshold, cooldown, 0, before)
    requires t >= Clock(before, 0)
    requires cooldown > 0 && k in After(threshold, cooldown, before)
    requires Stale(After(threshold, cooldown, before)[k], cooldown, t)
    requires After(threshold, cooldown, before)[k].failures != 0
    ensures !Unnoticed(threshold, cooldown, before, t)
  {
    var with := before + [Cleanup(t)];
    assert with[..|with| - 1] == before;
    var m := After(threshold, cooldown, before);
    RunTracks(threshold, cooldown, 0, before, k);
    ClockGrows(threshold, cooldown, 0, before);
    var user := UserOf(threshold, cooldown, before, k);
    var n := threshold - m[k].failures;
    var rest := Burst(user, t, n);
    BurstAfter(threshold, cooldown, before, user, t, n);
    BurstAfter(threshold, cooldown, with, user, t, n);
    assert Locked(After(threshold, cooldown, before + rest), k, t);
    assert !Locked(After(threshold, cooldown, with + rest), k, t);
    assert !SameAnswers(threshold, cooldown, before, t, rest);
  }

  /**
    Exactly when a clean-up goes unnoticed, whatever is called later: when no entry
    that it drops was counting failures, or the cooldown is not positive.  (With a
    threshold of at most one, no entry ever counts.)
   */
  lemma {:induction false} CleanupUnnoticedExactly(threshold: int, cooldown: int, before: seq<Event>, t: int)
    requires Legal(threshold, cooldown, 0, before) && t >= Clock(before, 0)
    ensures Unnoticed(threshold, cooldown, before, t) <==> DropsNoCount(After(threshold, cooldown, before), cooldown, t)
    ensures threshold <= 1 ==> Unnoticed(threshold, cooldown, before, t)
  {
    var with := before + [Cleanup(t)];
    var m := After(threshold, cooldown, before);
    assert with[..|with| - 1] == before;
    if DropsNoCount(m, cooldown, t) {
      forall rest | Legal(threshold, cooldown, 0, with + rest)
        ensures SameAnswers(threshold, cooldown, before, t, rest)
      {
        GoOnAlike(threshold, cooldown, before, t, rest);
        ClockGrows(threshold, cooldown, 0, with + rest);
        var m, m' := After(threshold, cooldown, before + rest), After(threshold, cooldown, with + rest);
        AlikeAnswers(m, m', cooldown, Clock(with + rest, 0));
      }
    } else {
      var k :| k in m && Stale(m[k], cooldown, t) && m[k].failures != 0;
      RunTracks(threshold, cooldown, 0, before, k);
      DroppedCountShows(threshold, cooldown, before, t, k);
    }
  }

  lemma {:induction false} AlikeAnswers(m: Attempts, m': Attempts, cooldown: int, clock: int)
    requires AllAlike(m, m', cooldown, clock) && clock >= 0
    ensures forall k, later :: later >= clock ==> Locked(m, k, later) == Locked(m', k, later)
  {
    forall k, later | later >= clock ensures Locked(m, k, later) == Locked(m', k, later) {
      assert Alike(m, m', cooldown, clock, k);
    }
  }
}
