/**
  The sliding-window limiter for socket events (server/src/chat/ws-rate-limiter.ts).  Times are whole
  milliseconds.
 */
module RateLimiter {
  // The calls still inside the window at time `now`.
  function Fresh(hits: seq<int>, now: int, ttl: int): seq<int> {
    if hits == [] then []
    else Fresh(hits[..|hits| - 1], now, ttl) + if now - hits[|hits| - 1] < ttl then [hits[|hits| - 1]] else []
  }

  type Windows = map<int, seq<int>>

  function Hits(w: Windows, user: int): seq<int> {
    if user in w then w[user] else []
  }

  function AfterCall(w: Windows, limit: int, ttl: int, user: int, now: int): (bool, Windows) {
    var live := Fresh(Hits(w, user), now, ttl);
    if |live| >= limit then (false, w[user := live]) else (true, w[user := live + [now]])
  }

  function AfterCleanup(w: Windows, ttl: int, now: int): Windows {
    map user | user in w && Fresh(w[user], now, ttl) != [] :: Fresh(w[user], now, ttl)
  }

  // Cleaned except for the users still to be visited.
  function PartlyCleaned(w: Windows, todo: set<int>, ttl: int, now: int): Windows {
    map user | user in w && (user in todo || Fresh(w[user], now, ttl) != []) ::
      if user in todo then w[user] else Fresh(w[user], now, ttl)
  }

  function Min(hits: seq<int>): int
    requires hits != []
  {
    if |hits| == 1 then hits[0]
    else if hits[0] < Min(hits[1..]) then hits[0] else Min(hits[1..])
  }

  // Rounded up to whole seconds.
  function Seconds(ms: int): int { (ms + 999) / 1000 }

  function RetrySeconds(w: Windows, ttl: int, user: int, now: int): int {
    var hits := Hits(w, user);
    if hits == [] then 0 else Seconds(Min(hits) + ttl - now)
  }

  lemma NonEmpty(s: set<int>)
    ensures s == {} || exists user :: user in s
  {
    if forall user :: user !in s {
      assert s == {};
    }
  }

  class WsRateLimiter {
    const limit: int
    const ttlMs: int
    var windows: Windows

    constructor (limit: int, ttlSeconds: int)
      ensures this.limit == limit && ttlMs == ttlSeconds * 1000 && windows == map[]
    {
      this.limit, ttlMs := limit, ttlSeconds * 1000;
      windows := map[];
    }

    method IsAllowed(userId: int, now: int) returns (ok: bool)
      modifies this`windows
      ensures (ok, windows) == AfterCall(old(windows), limit, ttlMs, userId, now)
    {
      var hits := if userId in windows then windows[userId] else [];
      var live := Fresh(hits, now, ttlMs);
      if |live| >= limit {
        windows := windows[userId := live];
        return false;
      }
      windows := windows[userId := live + [now]];
      return true;
    }

    method RetryAfter(userId: int, now: int) returns (seconds: int)
      ensures seconds == RetrySeconds(windows, ttlMs, userId, now)
    {
      var hits := if userId in windows then windows[userId] else [];
      if |hits| == 0 {
        return 0;
      }
      seconds := Seconds(Min(hits) + ttlMs - now);
    }

    method Cleanup(now: int)
      modifies this`windows
      ensures windows == AfterCleanup(old(windows), ttlMs, now)
    {
      var todo: set<int> := windows.Keys;
      while todo != {}
        invariant todo <= old(windows).Keys
        invariant windows == PartlyCleaned(old(windows), todo, ttlMs, now)
        decreases todo
      {
        NonEmpty(todo);
        var u: int :| u in todo;
        var live := Fresh(windows[u], now, ttlMs);
        if |live| == 0 {
          windows := windows - {u};
        } else {
          windows := windows[u := live];
        }
        todo := todo - {u};
      }
    }
  }

  // ---------------------------------------------------------------------------------------------
  // Runs: calls and cleanups under a non-decreasing clock.  `log` keeps every accepted call.

  datatype Event = Call(user: int, now: int) | Cleanup(now: int)

  datatype State = State(w: Windows, log: Windows)

  function Step(s: State, limit: int, ttl: int, e: Event): State {
    match e
    case Call(user, now) =>
      var (ok, w) := AfterCall(s.w, limit, ttl, user, now);
      State(w, if ok then s.log[user := Hits(s.log, user) + [now]] else s.log)
    case Cleanup(now) => s.(w := AfterCleanup(s.w, ttl, now))
  }

  function Exec(limit: int, ttl: int, events: seq<Event>): State {
    if events == [] then State(map[], map[])
    else Step(Exec(limit, ttl, events[..|events| - 1]), limit, ttl, events[|events| - 1])
  }

  predicate Ordered(events: seq<Event>) {
    forall i, j | 0 <= i < j < |events| :: events[i].now <= events[j].now
  }

  // No event is later than `now`.
  predicate Until(events: seq<Event>, now: int) {
    forall i | 0 <= i < |events| :: events[i].now <= now
  }

  // The call at `now` after these events is accepted.
  predicate Accepts(limit: int, ttl: int, events: seq<Event>, user: int, now: int) {
    AfterCall(Exec(limit, ttl, events).w, limit, ttl, user, now).0
  }

  // ---------------------------------------------------------------------------------------------

  lemma {:induction false} FreshAgain(hits: seq<int>, t: int, now: int, ttl: int)
    requires t <= now
    ensures Fresh(Fresh(hits, t, ttl), now, ttl) == Fresh(hits, now, ttl)
  {
    if hits != [] {
      var init, x := hits[..|hits| - 1], hits[|hits| - 1];
      FreshAgain(init, t, now, ttl);
      if t - x < ttl {
        FreshAppend(Fresh(init, t, ttl), x, now, ttl);
      } else {
        assert Fresh(hits, t, ttl) == Fresh(init, t, ttl);
        assert Fresh(hits, now, ttl) == Fresh(init, now, ttl);
      }
    }
  }

  lemma FreshAppend(hits: seq<int>, x: int, now: int, ttl: int)
    ensures Fresh(hits + [x], now, ttl) == Fresh(hits, now, ttl) + if now - x < ttl then [x] else []
  {
    assert (hits + [x])[..|hits|] == hits;
  }

  predicate Sorted(hits: seq<int>) {
    forall i, j | 0 <= i < j < |hits| :: hits[i] <= hits[j]
  }

  // `live` is the end of `hits`: the calls within the window, with only older ones before it.
  predicate IsFreshEnd(live: seq<int>, hits: seq<int>, now: int, ttl: int) {
    && |live| <= |hits|
    && var k := |hits| - |live|;
       && live == hits[k..]
       && (forall i | 0 <= i < k :: now - hits[i] >= ttl)
       && (forall i | k <= i < |hits| :: now - hits[i] < ttl)
  }

  lemma FreshEndGrows(live: seq<int>, hits: seq<int>, x: int, now: int, ttl: int)
    requires IsFreshEnd(live, hits, now, ttl) && now - x < ttl
    ensures IsFreshEnd(live + [x], hits + [x], now, ttl)
  {
    assert hits[|hits| - |live|..] + [x] == (hits + [x])[|hits| - |live|..];
  }

  lemma FreshEndEmpties(live: seq<int>, hits: seq<int>, x: int, now: int, ttl: int)
    requires IsFreshEnd(live, hits, now, ttl) && now - x >= ttl
    requires forall i | 0 <= i < |hits| :: hits[i] <= x
    ensures live == [] && IsFreshEnd([], hits + [x], now, ttl)
  {
    assert hits != [] ==> hits[|hits| - 1] <= x;
  }

  // In a sorted log the fresh calls are the last ones.
  lemma {:induction false} FreshIsSuffix(hits: seq<int>, now: int, ttl: int)
    requires Sorted(hits)
    ensures IsFreshEnd(Fresh(hits, now, ttl), hits, now, ttl)
  {
    if hits != [] {
      hide *;
      var init, x := hits[..|hits| - 1], hits[|hits| - 1];
      FreshIsSuffix(init, now, ttl);
      FreshAppend(init, x, now, ttl);
      assert init + [x] == hits;
      if now - x < ttl {
        FreshEndGrows(Fresh(init, now, ttl), init, x, now, ttl);
      } else {
        FreshEndEmpties(Fresh(init, now, ttl), init, x, now, ttl);
      }
    }
  }

  // Calls `limit` apart in the log are at least a window apart in time.
  predicate Spaced(hits: seq<int>, limit: int, ttl: int) {
    forall i, j | 0 <= i < j < |hits| && j - i >= limit :: hits[j] - hits[i] >= ttl
  }

  ghost predicate UserInv(w: seq<int>, log: seq<int>, limit: int, ttl: int, last: int) {
    && Sorted(log) && Spaced(log, limit, ttl)
    && (forall i | 0 <= i < |log| :: log[i] <= last)
    && (forall now | last <= now :: Fresh(w, now, ttl) == Fresh(log, now, ttl))
  }

  ghost predicate Inv(s: State, limit: int, ttl: int, last: int) {
    forall user :: UserInv(Hits(s.w, user), Hits(s.log, user), limit, ttl, last)
  }

  lemma CallInv(s: State, limit: int, ttl: int, last: int, user: int, now: int)
    requires Inv(s, limit, ttl, last) && last <= now && ttl >= 0
    ensures Inv(Step(s, limit, ttl, Call(user, now)), limit, ttl, now)
  {
    var t := Step(s, limit, ttl, Call(user, now));
    forall u
      ensures UserInv(Hits(t.w, u), Hits(t.log, u), limit, ttl, now)
    {
      var w, log := Hits(s.w, u), Hits(s.log, u);
      assert UserInv(w, log, limit, ttl, last);
      if u == user {
        OwnCallInv(w, log, limit, ttl, last, now);
      } else {
        assert Hits(t.w, u) == w && Hits(t.log, u) == log;
      }
    }
  }

  // What a call leaves in the window and in the log, by whether it was rejected.
  function NewHits(w: seq<int>, limit: int, ttl: int, now: int): seq<int> {
    var live := Fresh(w, now, ttl);
    if |live| >= limit then live else live + [now]
  }

  function NewLog(w: seq<int>, log: seq<int>, limit: int, ttl: int, now: int): seq<int> {
    if |Fresh(w, now, ttl)| >= limit then log else log + [now]
  }

  lemma OwnCallInv(w: seq<int>, log: seq<int>, limit: int, ttl: int, last: int, now: int)
    requires UserInv(w, log, limit, ttl, last) && last <= now && ttl >= 0
    ensures UserInv(NewHits(w, limit, ttl, now), NewLog(w, log, limit, ttl, now), limit, ttl, now)
  {
    LogCall(w, log, limit, ttl, last, now);
    forall t | now <= t
      ensures Fresh(NewHits(w, limit, ttl, now), t, ttl) == Fresh(NewLog(w, log, limit, ttl, now), t, ttl)
    {
      FreshCall(w, log, limit, ttl, now, t);
    }
  }

  lemma LogCall(w: seq<int>, log: seq<int>, limit: int, ttl: int, last: int, now: int)
    requires UserInv(w, log, limit, ttl, last) && last <= now && ttl >= 0
    ensures var log' := NewLog(w, log, limit, ttl, now);
            && Sorted(log') && Spaced(log', limit, ttl) && (forall i | 0 <= i < |log'| :: log'[i] <= now)
  {
    assert Fresh(w, now, ttl) == Fresh(log, now, ttl);
    hide Fresh;
    if |Fresh(log, now, ttl)| < limit {
      SpacedCall(log, limit, ttl, now);
      hide Spaced;
    }
  }

  lemma FreshCall(w: seq<int>, log: seq<int>, limit: int, ttl: int, now: int, t: int)
    requires now <= t && Fresh(w, t, ttl) == Fresh(log, t, ttl)
    ensures Fresh(NewHits(w, limit, ttl, now), t, ttl) == Fresh(NewLog(w, log, limit, ttl, now), t, ttl)
  {
    FreshAgain(w, now, t, ttl);
    FreshAppend(Fresh(w, now, ttl), now, t, ttl);
    FreshAppend(log, now, t, ttl);
  }

  // A call accepted with fewer than `limit` fresh ones before it keeps the log spaced.
  lemma SpacedCall(log: seq<int>, limit: int, ttl: int, now: int)
    requires Sorted(log) && Spaced(log, limit, ttl)
    requires |Fresh(log, now, ttl)| < limit
    ensures Spaced(log + [now], limit, ttl)
  {
    FreshIsSuffix(log, now, ttl);
  }

  lemma CleanupInv(s: State, limit: int, ttl: int, last: int, now: int)
    requires Inv(s, limit, ttl, last) && last <= now
    ensures Inv(Step(s, limit, ttl, Cleanup(now)), limit, ttl, now)
  {
    var t := Step(s, limit, ttl, Cleanup(now));
    forall u
      ensures UserInv(Hits(t.w, u), Hits(t.log, u), limit, ttl, now)
    {
      var w := Hits(s.w, u);
      assert UserInv(w, Hits(s.log, u), limit, ttl, last);
      assert Hits(t.w, u) == Fresh(w, now, ttl);
      forall x | now <= x
        ensures Fresh(Hits(t.w, u), x, ttl) == Fresh(Hits(s.log, u), x, ttl)
      {
        FreshAgain(w, now, x, ttl);
      }
    }
  }

  lemma {:induction false} ExecInv(limit: int, ttl: int, events: seq<Event>, last: int)
    requires Ordered(events) && Until(events, last) && ttl >= 0
    ensures Inv(Exec(limit, ttl, events), limit, ttl, last)
    decreases |events|
  {
    if events == [] {
      assert Hits(map[], 0) == [];
    } else {
      var init, e := events[..|events| - 1], events[|events| - 1];
      ExecInv(limit, ttl, init, e.now);
      match e
      case Call(user, now) => CallInv(Exec(limit, ttl, init), limit, ttl, now, user, now);
      case Cleanup(now) => CleanupInv(Exec(limit, ttl, init), limit, ttl, now, now);
    }
  }

  // The pruned log decides exactly as the log of all accepted calls would, with cleanups anywhere.
  lemma PrunedDecidesAsFull(limit: int, ttl: int, events: seq<Event>, user: int, now: int)
    requires Ordered(events) && Until(events, now) && ttl >= 0
    ensures Accepts(limit, ttl, events, user, now)
            <==> |Fresh(Hits(Exec(limit, ttl, events).log, user), now, ttl)| < limit
  {
    ExecInv(limit, ttl, events, now);
    assert UserInv(Hits(Exec(limit, ttl, events).w, user), Hits(Exec(limit, ttl, events).log, user), limit, ttl, now);
  }

  predicate InWindow(log: seq<int>, i: nat, from: int, ttl: int) {
    i < |log| && from <= log[i] < from + ttl
  }

  lemma {:induction false} RangeSize(s: set<nat>, a: nat, n: nat)
    requires forall i | i in s :: a <= i < a + n
    ensures |s| <= n
    decreases n
  {
    if n > 0 {
      var last := a + n - 1;
      RangeSize(s - {last}, a, n - 1);
    } else {
      assert s == {};
    }
  }

  // Rate.  Any window of length `ttl`, wherever it starts, holds at most `limit` accepted calls of a
  // user.
  lemma WindowBound(limit: nat, ttl: int, events: seq<Event>, last: int, user: int, from: int)
    requires Ordered(events) && Until(events, last) && ttl >= 0
    ensures var log := Hits(Exec(limit, ttl, events).log, user);
            |set i: nat | i < |log| && InWindow(log, i, from, ttl)| <= limit
  {
    ExecInv(limit, ttl, events, last);
    var log := Hits(Exec(limit, ttl, events).log, user);
    assert UserInv(Hits(Exec(limit, ttl, events).w, user), log, limit, ttl, last);
    var s := set i: nat | i < |log| && InWindow(log, i, from, ttl);
    if limit == 0 {
      LimitZero(ttl, events, user);
      assert s == {};
    } else if s != {} {
      var a := Least(s);
      forall i | i in s
        ensures i < a + limit
      {
        assert InWindow(log, i, from, ttl) && InWindow(log, a, from, ttl);
        assert log[i] - log[a] < ttl;
      }
      RangeSize(s, a, limit);
    }
  }

  lemma {:induction false} LimitZero(ttl: int, events: seq<Event>, user: int)
    ensures Hits(Exec(0, ttl, events).log, user) == []
    decreases |events|
  {
    if events != [] {
      LimitZero(ttl, events[..|events| - 1], user);
    }
  }

  lemma {:induction false} Least(s: set<nat>) returns (a: nat)
    requires s != {}
    ensures a in s && forall i | i in s :: a <= i
    decreases |s|
  {
    var x: nat :| x in s;
    var rest := s - {x};
    if rest == {} {
      assert s == {x};
      a := x;
    } else {
      var b := Least(rest);
      assert s == rest + {x};
      a := if b < x then b else x;
    }
  }

  // ---------------------------------------------------------------------------------------------
  // Waiting.

  lemma {:induction false} MinOfSorted(hits: seq<int>)
    requires hits != [] && Sorted(hits)
    ensures Min(hits) == hits[0]
  {
    if |hits| > 1 {
      MinOfSorted(hits[1..]);
    }
  }

  // The events after a call that leave a user's accepted calls alone.
  predicate Others(events: seq<Event>, user: int) {
    forall i | 0 <= i < |events| :: events[i].Call? ==> events[i].user != user
  }

  lemma {:induction false} OthersKeepLog(limit: int, ttl: int, events: seq<Event>, more: seq<Event>, user: int)
    requires Others(more, user)
    ensures Hits(Exec(limit, ttl, events + more).log, user) == Hits(Exec(limit, ttl, events).log, user)
    decreases |more|
  {
    if more == [] {
      assert events + more == events;
    } else {
      var init := more[..|more| - 1];
      OthersKeepLog(limit, ttl, events, init, user);
      assert (events + more)[..|events + more| - 1] == events + init;
    }
  }

  // What a rejected call leaves behind: the fresh part of the log, and the log itself.
  lemma AfterRejection(limit: int, ttl: int, events: seq<Event>, user: int, now: int)
    requires Ordered(events) && Until(events, now) && ttl >= 0
    requires !Accepts(limit, ttl, events, user, now)
    ensures var s := Exec(limit, ttl, events + [Call(user, now)]);
            var log := Hits(s.log, user);
            && Hits(s.w, user) == Fresh(log, now, ttl) && |Fresh(log, now, ttl)| >= limit
            && Sorted(log) && Spaced(log, limit, ttl) && (forall i | 0 <= i < |log| :: log[i] <= now)
  {
    ExecInv(limit, ttl, events, now);
    var s := Exec(limit, ttl, events);
    assert UserInv(Hits(s.w, user), Hits(s.log, user), limit, ttl, now);
    assert Fresh(Hits(s.w, user), now, ttl) == Fresh(Hits(s.log, user), now, ttl);
    var rejected := events + [Call(user, now)];
    assert rejected[..|rejected| - 1] == events && rejected[|rejected| - 1] == Call(user, now);
  }

  // The advised wait.  `retryAfter` is asked at time `t` after a rejected call.  Whatever other users'
  // calls and cleanups happen in between, a call `k` seconds later succeeds if and only if `k` is at
  // least the number of seconds `retryAfter` gave and the limit is positive.
  lemma RetryAfterIsExact(limit: int, ttl: int, events: seq<Event>, user: int, now: int, t: int, more: seq<Event>, k: nat)
    requires Ordered(events + [Call(user, now)] + more) && Until(more, t + 1000 * k) && Others(more, user)
    requires ttl >= 0 && now <= t
    requires !Accepts(limit, ttl, events, user, now)
    ensures Accepts(limit, ttl, events + [Call(user, now)] + more, user, t + 1000 * k)
            <==> limit > 0 && k >= RetrySeconds(Exec(limit, ttl, events + [Call(user, now)]).w, ttl, user, t)
  {
    var rejected := events + [Call(user, now)];
    var later := t + 1000 * k;
    OrderedParts(events, Call(user, now), more, later);
    AfterRejection(limit, ttl, events, user, now);
    var log := Hits(Exec(limit, ttl, rejected).log, user);
    OthersKeepLog(limit, ttl, rejected, more, user);
    PrunedDecidesAsFull(limit, ttl, rejected + more, user, later);
    if limit > 0 {
      WaitDecides(log, limit, ttl, now, later);
      var oldest := Min(Fresh(log, now, ttl));
      assert Hits(Exec(limit, ttl, rejected).w, user) == Fresh(log, now, ttl) != [];
      assert RetrySeconds(Exec(limit, ttl, rejected).w, ttl, user, t) == Seconds(oldest + ttl - t);
      assert later - oldest >= ttl <==> k >= Seconds(oldest + ttl - t);
    }
  }

  lemma OrderedParts(events: seq<Event>, e: Event, more: seq<Event>, last: int)
    requires Ordered(events + [e] + more) && Until(more, last) && e.now <= last
    ensures Ordered(events) && Until(events, e.now) && Until(events + [e] + more, last)
  {
    var all := events + [e] + more;
    assert all[|events|] == e;
    forall i | 0 <= i < |events|
      ensures events[i].now <= e.now
    {
      assert all[i] == events[i];
    }
    forall i, j | 0 <= i < j < |events|
      ensures events[i].now <= events[j].now
    {
      assert all[i] == events[i] && all[j] == events[j];
    }
  }

  // With the log full at `now`, there is room at `later` exactly when the oldest fresh call has left
  // the window.
  lemma WaitDecides(log: seq<int>, limit: int, ttl: int, now: int, later: int)
    requires Sorted(log) && Spaced(log, limit, ttl) && limit > 0 && now <= later
    requires forall i | 0 <= i < |log| :: log[i] <= now
    requires |Fresh(log, now, ttl)| >= limit
    ensures |Fresh(log, later, ttl)| < limit <==> later - Min(Fresh(log, now, ttl)) >= ttl
  {
    FreshIsSuffix(log, now, ttl);
    FreshIsSuffix(log, later, ttl);
    var a := |log| - |Fresh(log, now, ttl)|;
    var b := |log| - |Fresh(log, later, ttl)|;
    MinOfSorted(log[a..]);
    assert log[|log| - 1] - log[a] < ttl;
    assert |log| - a == limit;
    assert b == |log| || later - log[b] < ttl;
  }

  lemma {:induction false} FreshMembers(hits: seq<int>, now: int, ttl: int, t: int)
    ensures t in Fresh(hits, now, ttl) <==> t in hits && now - t < ttl
    decreases |hits|
  {
    if hits != [] {
      var init, x := hits[..|hits| - 1], hits[|hits| - 1];
      FreshMembers(init, now, ttl, t);
      assert hits == init + [x];
    }
  }

  // A cleanup leaves of every window exactly the calls still inside it, and no window without calls.
  lemma CleanupLeaves(w: Windows, ttl: int, now: int, user: int, t: int)
    ensures t in Hits(AfterCleanup(w, ttl, now), user) <==> t in Hits(w, user) && now - t < ttl
    ensures user in AfterCleanup(w, ttl, now) <==> exists x :: x in Hits(w, user) && now - x < ttl
  {
    FreshMembers(Hits(w, user), now, ttl, t);
    if user in w && Fresh(w[user], now, ttl) != [] {
      var x := Fresh(w[user], now, ttl)[0];
      FreshMembers(w[user], now, ttl, x);
      assert x in Hits(w, user) && now - x < ttl;
    }
    if x :| x in Hits(w, user) && now - x < ttl {
      FreshMembers(w[user], now, ttl, x);
    }
  }

  lemma {:induction false} MinIsLeast(hits: seq<int>)
    requires hits != []
    ensures Min(hits) in hits && forall t | t in hits :: Min(hits) <= t
  {
    assert hits == [hits[0]] + hits[1..];
    if |hits| > 1 {
      MinIsLeast(hits[1..]);
    }
  }

  // The advice without and with stored calls: nothing to wait for, or the fewest whole seconds after which
  // the oldest of them has left the window.
  lemma RetryRoundsUp(w: Windows, ttl: int, user: int, now: int)
    ensures Hits(w, user) == [] ==> RetrySeconds(w, ttl, user, now) == 0
    ensures Hits(w, user) != [] ==>
              exists oldest :: && oldest in Hits(w, user) && (forall t | t in Hits(w, user) :: oldest <= t)
                               && var k := RetrySeconds(w, ttl, user, now);
                                  (k - 1) * 1000 < oldest + ttl - now <= k * 1000
  {
    if Hits(w, user) != [] {
      var oldest := Min(Hits(w, user));
      MinIsLeast(Hits(w, user));
      assert oldest in Hits(w, user);
    }
  }
}
