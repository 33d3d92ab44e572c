/**
  Refresh sessions (server/src/auth/auth.service.ts): the session table, sign-in, token rotation and
  sign-out.  Each call is one atomic step.  A raw refresh token is named by a counter, and the hash the
  table stores is injective.
 */
module AuthSessions {
  import opened Symbolic

  const MAX_SESSIONS: nat := 5
  const REFRESH_TOKEN_EXPIRY_MS := 604800000

  datatype Hash = Hash(raw: nat)

  datatype Row = Row(user: nat, token: Hash, prev: Option<Hash>, agent: string, createdAt: int, expiresAt: int)

  datatype State = State(rows: map<nat, Row>, nextId: nat, nextRaw: nat)

  datatype Outcome = Granted(raw: nat) | Expired | Reused | Unknown

  function Agent(agent: Option<string>): string {
    if agent.None? || agent.value == "" then "unknown" else agent.value
  }

  function RowsOf(rows: map<nat, Row>, user: nat): set<nat> {
    set id | id in rows && rows[id].user == user
  }

  predicate HasToken(rows: map<nat, Row>, id: nat, h: Hash) {
    id in rows && rows[id].token == h
  }

  predicate HasAgent(rows: map<nat, Row>, id: nat, user: nat, agent: string) {
    id in rows && rows[id].user == user && rows[id].agent == agent
  }

  predicate HasPrev(rows: map<nat, Row>, id: nat, h: Hash) {
    id in rows && rows[id].prev == Some(h)
  }

  // A row the query for a user's sessions in order of creation may put first.
  predicate Oldest(rows: map<nat, Row>, user: nat, id: nat) {
    && id in RowsOf(rows, user)
    && (forall other | other in RowsOf(rows, user) :: rows[id].createdAt <= rows[other].createdAt)
  }

  // A sign-in from this agent has to make room.
  ghost predicate MustEvict(rows: map<nat, Row>, user: nat, agent: string) {
    |RowsOf(rows, user)| >= MAX_SESSIONS && forall id :: !HasAgent(rows, id, user, agent)
  }

  function Rotated(s: State, id: nat, now: int): State
    requires id in s.rows
  {
    var row := s.rows[id];
    s.(rows := s.rows[id := row.(token := Hash(s.nextRaw), prev := Some(row.token), expiresAt := now + REFRESH_TOKEN_EXPIRY_MS)],
       nextRaw := s.nextRaw + 1)
  }

  // A session for an agent the user has none for; `victim` goes when the user is at the limit.
  function Created(s: State, user: nat, agent: string, now: int, victim: nat): State {
    var kept := if |RowsOf(s.rows, user)| >= MAX_SESSIONS then s.rows - {victim} else s.rows;
    State(kept[s.nextId := Row(user, Hash(s.nextRaw), None, agent, now, now + REFRESH_TOKEN_EXPIRY_MS)],
          s.nextId + 1, s.nextRaw + 1)
  }

  ghost function SignedIn(s: State, user: nat, agent: string, now: int, victim: nat): State {
    if id :| HasAgent(s.rows, id, user, agent) then Rotated(s, id, now) else Created(s, user, agent, now, victim)
  }

  ghost function Refreshed(s: State, raw: nat, now: int): (State, Outcome) {
    if id :| HasToken(s.rows, id, Hash(raw)) then
      if s.rows[id].expiresAt < now then (s, Expired) else (Rotated(s, id, now), Granted(s.nextRaw))
    else if exists id :: HasPrev(s.rows, id, Hash(raw)) then (s, Reused)
    else (s, Unknown)
  }

  function Without(s: State, gone: set<nat>): State {
    s.(rows := s.rows - gone)
  }

  // ---------------------------------------------------------------------------------------------

  ghost predicate TokensInv(s: State) {
    && (forall i, j | i in s.rows && j in s.rows && s.rows[i].token == s.rows[j].token :: i == j)
    && (forall i | i in s.rows :: s.rows[i].token.raw < s.nextRaw)
    && (forall i, j | i in s.rows && j in s.rows && s.rows[i].prev.Some? :: s.rows[i].prev.value != s.rows[j].token)
    && (forall i | i in s.rows && s.rows[i].prev.Some? :: s.rows[i].prev.value.raw < s.nextRaw)
  }

  ghost predicate AgentsInv(s: State) {
    && (forall i | i in s.rows :: i < s.nextId)
    && (forall i, j | i in s.rows && j in s.rows && s.rows[i].user == s.rows[j].user && s.rows[i].agent == s.rows[j].agent ::
          i == j)
  }

  ghost predicate Inv(s: State) {
    && TokensInv(s) && AgentsInv(s)
    && (forall user :: |RowsOf(s.rows, user)| <= MAX_SESSIONS)
  }

  class AuthService {
    var rows: map<nat, Row>
    var nextId: nat
    var nextRaw: nat

    function View(): State
      reads this
    {
      State(rows, nextId, nextRaw)
    }

    constructor ()
      ensures View() == State(map[], 0, 0)
    {
      rows, nextId, nextRaw := map[], 0, 0;
    }

    method RotateSession(id: nat, now: int) returns (raw: nat)
      requires id in rows
      modifies this
      ensures View() == Rotated(old(View()), id, now) && raw == old(nextRaw)
    {
      raw := nextRaw;
      nextRaw := nextRaw + 1;
      var current := rows[id];
      rows := rows[id := current.(token := Hash(raw), prev := Some(current.token), expiresAt := now + REFRESH_TOKEN_EXPIRY_MS)];
    }

    // The first of the user's sessions in order of creation.
    method FirstCreated(user: nat) returns (id: nat)
      requires RowsOf(rows, user) != {}
      ensures Oldest(rows, user, id)
    {
      var active := RowsOf(rows, user);
      id :| id in active;
      var todo := active - {id};
      while todo != {}
        invariant id in active && todo <= active
        invariant forall other | other in active :: other in todo || rows[id].createdAt <= rows[other].createdAt
        decreases todo
      {
        var other: nat :| other in todo;
        if rows[other].createdAt < rows[id].createdAt {
          id := other;
        }
        todo := todo - {other};
      }
    }

    method IssueTokens(user: nat, userAgent: Option<string>, now: int) returns (raw: nat, ghost victim: nat)
      requires Inv(View())
      modifies this
      ensures View() == SignedIn(old(View()), user, Agent(userAgent), now, victim)
      ensures MustEvict(old(rows), user, Agent(userAgent)) ==> Oldest(old(rows), user, victim)
      ensures raw == old(nextRaw)
    {
      var agent := Agent(userAgent);
      victim := 0;
      if id :| id in rows && HasAgent(rows, id, user, agent) {
        raw := RotateSession(id, now);
        return raw, victim;
      }
      assert forall id :: !HasAgent(rows, id, user, agent);
      var active := RowsOf(rows, user);
      if |active| >= MAX_SESSIONS {
        var oldest := FirstCreated(user);
        victim := oldest;
        rows := rows - {oldest};
      }
      raw := nextRaw;
      nextRaw := nextRaw + 1;
      rows := rows[nextId := Row(user, Hash(raw), None, agent, now, now + REFRESH_TOKEN_EXPIRY_MS)];
      nextId := nextId + 1;
    }

    method Refresh(raw: nat, now: int) returns (outcome: Outcome)
      requires Inv(View())
      modifies this
      ensures (View(), outcome) == Refreshed(old(View()), raw, now)
    {
      var hashed := Hash(raw);
      if id :| id in rows && HasToken(rows, id, hashed) {
        if rows[id].expiresAt < now {
          return Expired; // the deletion is undone with the transaction
        }
        var newRaw := RotateSession(id, now);
        return Granted(newRaw);
      }
      assert forall id :: !HasToken(rows, id, hashed);
      if id :| id in rows && HasPrev(rows, id, hashed) {
        return Reused;
      }
      assert forall id :: !HasPrev(rows, id, hashed);
      return Unknown;
    }

    method Logout(raw: nat)
      modifies this
      ensures View() == Without(old(View()), set id | id in old(rows) && HasToken(old(rows), id, Hash(raw)))
    {
      rows := rows - set id | id in rows && HasToken(rows, id, Hash(raw));
    }

    method LogoutAll(user: nat)
      modifies this
      ensures View() == Without(old(View()), RowsOf(old(rows), user))
    {
      rows := rows - RowsOf(rows, user);
    }

    method TerminateSession(user: nat, id: nat) returns (ended: bool)
      modifies this
      ensures ended == (id in RowsOf(old(rows), user))
      ensures View() == if ended then Without(old(View()), {id}) else old(View())
    {
      if id !in rows {
        return false;
      }
      if rows[id].user != user {
        return false; // forbidden
      }
      rows := rows - {id};
      return true;
    }
  }

  // ---------------------------------------------------------------------------------------------
  // Runs.

  datatype Event =
    | SignIn(user: nat, agent: Option<string>, now: int, victim: nat)
    | Refresh(raw: nat, now: int)
    | Logout(raw: nat)
    | LogoutAll(user: nat)
    | Terminate(user: nat, id: nat)

  // The database's order decides which of the oldest sessions makes room.
  ghost predicate Enabled(s: State, e: Event) {
    e.SignIn? && MustEvict(s.rows, e.user, Agent(e.agent)) ==> Oldest(s.rows, e.user, e.victim)
  }

  ghost function Step(s: State, e: Event): State {
    match e
    case SignIn(user, agent, now, victim) => SignedIn(s, user, Agent(agent), now, victim)
    case Refresh(raw, now) => Refreshed(s, raw, now).0
    case Logout(raw) => Without(s, set id | id in s.rows && HasToken(s.rows, id, Hash(raw)))
    case LogoutAll(user) => Without(s, RowsOf(s.rows, user))
    case Terminate(user, id) => if id in RowsOf(s.rows, user) then Without(s, {id}) else s
  }

  ghost predicate Run(trace: seq<State>, events: seq<Event>) {
    && |trace| == |events| + 1
    && trace[0] == State(map[], 0, 0)
    && (forall k | 0 <= k < |events| :: Enabled(trace[k], events[k]) && trace[k + 1] == Step(trace[k], events[k]))
  }

  lemma WithoutInv(s: State, gone: set<nat>)
    requires Inv(s)
    ensures Inv(Without(s, gone))
  {
    forall user
      ensures |RowsOf(s.rows - gone, user)| <= MAX_SESSIONS
    {
      Fewer(RowsOf(s.rows - gone, user), RowsOf(s.rows, user));
    }
  }

  lemma {:induction false} Fewer(a: set<nat>, b: set<nat>)
    requires a <= b
    ensures |a| <= |b|
  {
    if a != {} {
      var x: nat :| x in a;
      Fewer(a - {x}, b - {x});
    }
  }

  lemma RotatedInv(s: State, id: nat, now: int)
    requires Inv(s) && id in s.rows
    ensures Inv(Rotated(s, id, now))
  {
    forall user
      ensures |RowsOf(Rotated(s, id, now).rows, user)| <= MAX_SESSIONS
    {
      assert RowsOf(Rotated(s, id, now).rows, user) == RowsOf(s.rows, user);
    }
  }

  lemma CreatedInv(s: State, user: nat, agent: string, now: int, victim: nat)
    requires Inv(s) && forall id :: !HasAgent(s.rows, id, user, agent)
    requires |RowsOf(s.rows, user)| >= MAX_SESSIONS ==> victim in RowsOf(s.rows, user)
    ensures Inv(Created(s, user, agent, now, victim))
  {
    forall u
      ensures |RowsOf(Created(s, user, agent, now, victim).rows, u)| <= MAX_SESSIONS
    {
      CreatedCount(s, user, agent, now, victim, u);
    }
    CreatedTokens(s, user, agent, now, victim);
    CreatedAgents(s, user, agent, now, victim);
  }

  lemma CreatedTokens(s: State, user: nat, agent: string, now: int, victim: nat)
    requires TokensInv(s)
    ensures TokensInv(Created(s, user, agent, now, victim))
  {
    var t := Created(s, user, agent, now, victim);
    forall i | i in t.rows
      ensures i == s.nextId || (i in s.rows && t.rows[i] == s.rows[i])
    {
    }
  }

  lemma CreatedAgents(s: State, user: nat, agent: string, now: int, victim: nat)
    requires AgentsInv(s) && forall id :: !HasAgent(s.rows, id, user, agent)
    ensures AgentsInv(Created(s, user, agent, now, victim))
  {
    var t := Created(s, user, agent, now, victim);
    forall i | i in t.rows && t.rows[i].user == user && t.rows[i].agent == agent
      ensures i == s.nextId
    {
      assert !HasAgent(s.rows, i, user, agent);
    }
  }

  lemma CreatedCount(s: State, user: nat, agent: string, now: int, victim: nat, u: nat)
    requires AgentsInv(s) && |RowsOf(s.rows, u)| <= MAX_SESSIONS
    requires |RowsOf(s.rows, user)| >= MAX_SESSIONS ==> victim in RowsOf(s.rows, user)
    ensures |RowsOf(Created(s, user, agent, now, victim).rows, u)| <= MAX_SESSIONS
  {
    var t := Created(s, user, agent, now, victim);
    var kept := if |RowsOf(s.rows, user)| >= MAX_SESSIONS then s.rows - {victim} else s.rows;
    RowsOfWithout(s.rows, victim, u);
    RowsOfAdded(kept, s.nextId, t.rows[s.nextId], u);
    Fewer(RowsOf(kept, u), RowsOf(s.rows, u));
  }

  lemma RowsOfWithout(rows: map<nat, Row>, id: nat, user: nat)
    ensures RowsOf(rows - {id}, user) == RowsOf(rows, user) - {id}
  {
  }

  lemma RowsOfAdded(rows: map<nat, Row>, id: nat, row: Row, user: nat)
    requires id !in rows
    ensures |RowsOf(rows[id := row], user)| == |RowsOf(rows, user)| + if row.user == user then 1 else 0
  {
    assert RowsOf(rows[id := row], user) == RowsOf(rows, user) + if row.user == user then {id} else {};
  }

  lemma StepInv(s: State, e: Event)
    requires Inv(s) && Enabled(s, e)
    ensures Inv(Step(s, e))
  {
    match e
    case SignIn(user, agent, now, victim) =>
      var a := Agent(agent);
      if exists id :: HasAgent(s.rows, id, user, a) {
        var id :| HasAgent(s.rows, id, user, a);
        RotatedInv(s, id, now);
      } else {
        CreatedInv(s, user, a, now, victim);
      }
    case Refresh(raw, now) =>
      if id :| HasToken(s.rows, id, Hash(raw)) {
        RotatedInv(s, id, now);
      }
    case Logout(raw) => WithoutInv(s, set id | id in s.rows && HasToken(s.rows, id, Hash(raw)));
    case LogoutAll(user) => WithoutInv(s, RowsOf(s.rows, user));
    case Terminate(user, id) => WithoutInv(s, {id});
  }

  lemma InitialInv()
    ensures Inv(State(map[], 0, 0))
  {
    assert forall user :: RowsOf(map[], user) == {};
  }

  lemma {:induction false} RunInv(trace: seq<State>, events: seq<Event>, k: nat)
    requires Run(trace, events) && k <= |events|
    ensures Inv(trace[k])
  {
    hide Step, Inv, Enabled;
    if k == 0 {
      InitialInv();
    } else {
      RunInv(trace, events, k - 1);
      StepInv(trace[k - 1], events[k - 1]);
    }
  }

  // In every run a user has at most MAX_SESSIONS sessions, and at most one for each user agent.
  lemma {:induction false} SessionLimits(trace: seq<State>, events: seq<Event>, k: nat, user: nat)
    requires Run(trace, events) && k <= |events|
    ensures |RowsOf(trace[k].rows, user)| <= MAX_SESSIONS
    ensures forall i, j, agent | HasAgent(trace[k].rows, i, user, agent) && HasAgent(trace[k].rows, j, user, agent) ::
              i == j
  {
    RunInv(trace, events, k);
  }

  // ---------------------------------------------------------------------------------------------
  // Tokens.

  ghost predicate Current(s: State, raw: nat) {
    exists id :: HasToken(s.rows, id, Hash(raw))
  }

  // An issued token that is not current never becomes current.
  lemma StepRetired(s: State, e: Event, raw: nat)
    requires Inv(s) && raw < s.nextRaw && !Current(s, raw)
    ensures !Current(Step(s, e), raw) && raw < Step(s, e).nextRaw
  {
    forall id
      ensures !HasToken(Step(s, e).rows, id, Hash(raw))
    {
      assert !HasToken(s.rows, id, Hash(raw));
    }
  }

  lemma {:induction false} StaysRetired(trace: seq<State>, events: seq<Event>, i: nat, k: nat, raw: nat)
    requires Run(trace, events) && i <= k <= |events|
    requires raw < trace[i].nextRaw && !Current(trace[i], raw)
    ensures raw < trace[k].nextRaw && !Current(trace[k], raw)
    decreases k
  {
    hide Step, Current;
    if i < k {
      StaysRetired(trace, events, i, k - 1, raw);
      RunInv(trace, events, k - 1);
      StepRetired(trace[k - 1], events[k - 1], raw);
    }
  }

  // The step at `i` took the token out of the table: it was refreshed, replaced by a new sign-in from
  // the same agent, evicted, or its session ended.
  ghost predicate Retires(trace: seq<State>, events: seq<Event>, i: nat, raw: nat)
    requires i < |events| == |trace| - 1
  {
    Current(trace[i], raw) && !Current(trace[i + 1], raw)
  }

  lemma CurrentIssued(s: State, raw: nat)
    requires Inv(s) && Current(s, raw)
    ensures raw < s.nextRaw
  {
    var id :| HasToken(s.rows, id, Hash(raw));
  }

  lemma {:induction false} NextRawGrows(trace: seq<State>, events: seq<Event>, k: nat)
    requires Run(trace, events) && k < |events|
    ensures trace[k].nextRaw <= trace[k + 1].nextRaw
  {
    var s, e := trace[k], events[k];
    assert trace[k + 1] == Step(s, e);
  }

  // A refresh token that has left the table, for whatever reason, is never accepted again, and trying
  // it changes nothing.
  lemma RetiredNeverAccepted(trace: seq<State>, events: seq<Event>, i: nat, k: nat, raw: nat, now: int)
    requires Run(trace, events) && i < k <= |events| && Retires(trace, events, i, raw)
    ensures var (s, outcome) := Refreshed(trace[k], raw, now);
            s == trace[k] && (outcome == Reused || outcome == Unknown)
  {
    hide Step;
    RunInv(trace, events, i);
    CurrentIssued(trace[i], raw);
    NextRawGrows(trace, events, i);
    StaysRetired(trace, events, i + 1, k, raw);
    RetiredRefused(trace[k], raw, now);
  }

  lemma RetiredRefused(s: State, raw: nat, now: int)
    requires !Current(s, raw)
    ensures Refreshed(s, raw, now).0 == s
    ensures Refreshed(s, raw, now).1 == Reused || Refreshed(s, raw, now).1 == Unknown
  {
  }

  ghost predicate Accepted(trace: seq<State>, events: seq<Event>, k: nat, raw: nat)
    requires k < |events| == |trace| - 1
  {
    events[k].Refresh? && events[k].raw == raw && Refreshed(trace[k], raw, events[k].now).1.Granted?
  }

  // Rotation takes the old token out of the table and puts the new one in.
  lemma RotationRetires(s: State, id: nat, now: int)
    requires Inv(s) && id in s.rows
    ensures Current(s, s.rows[id].token.raw) && !Current(Rotated(s, id, now), s.rows[id].token.raw)
    ensures HasToken(Rotated(s, id, now).rows, id, Hash(s.nextRaw))
    ensures HasPrev(Rotated(s, id, now).rows, id, s.rows[id].token)
  {
    assert HasToken(s.rows, id, Hash(s.rows[id].token.raw));
  }

  lemma AcceptedRetires(trace: seq<State>, events: seq<Event>, k: nat, raw: nat)
    requires Run(trace, events) && k < |events| && Accepted(trace, events, k, raw)
    ensures Retires(trace, events, k, raw)
  {
    RunInv(trace, events, k);
    var s := trace[k];
    var id :| HasToken(s.rows, id, Hash(raw));
    RotationRetires(s, id, events[k].now);
  }

  // Each refresh token is accepted at most once in a run.
  lemma AcceptedOnce(trace: seq<State>, events: seq<Event>, i: nat, k: nat, raw: nat)
    requires Run(trace, events) && i < |events| && k < |events|
    requires Accepted(trace, events, i, raw) && Accepted(trace, events, k, raw)
    ensures i == k
  {
    if i < k {
      AcceptedRetires(trace, events, i, raw);
      RetiredNeverAccepted(trace, events, i, k, raw, events[k].now);
    } else if k < i {
      AcceptedRetires(trace, events, k, raw);
      RetiredNeverAccepted(trace, events, k, i, raw, events[i].now);
    }
  }

  // ---------------------------------------------------------------------------------------------
  // Reuse.  `raw` was replaced by `heir` in one session.

  ghost predicate Linked(s: State, raw: nat, heir: nat) {
    && (forall id :: HasPrev(s.rows, id, Hash(raw)) <==> HasToken(s.rows, id, Hash(heir)))
    && raw < s.nextRaw && heir < s.nextRaw && !Current(s, raw)
  }

  lemma RotationLinks(s: State, id: nat, now: int)
    requires Inv(s) && id in s.rows
    ensures Linked(Rotated(s, id, now), s.rows[id].token.raw, s.nextRaw)
  {
    var t, raw := Rotated(s, id, now), s.rows[id].token.raw;
    RotationRetires(s, id, now);
    forall j
      ensures HasPrev(t.rows, j, Hash(raw)) <==> HasToken(t.rows, j, Hash(s.nextRaw))
    {
      assert Hash(raw) == s.rows[id].token;
      if j in s.rows && j != id {
        assert s.rows[j].prev != Some(s.rows[id].token);
      }
    }
  }

  lemma StepLinked(s: State, e: Event, raw: nat, heir: nat)
    requires Inv(s) && Linked(s, raw, heir)
    ensures Linked(Step(s, e), raw, heir)
  {
    StepRetired(s, e, raw);
    var t := Step(s, e);
    forall id
      ensures HasPrev(t.rows, id, Hash(raw)) <==> HasToken(t.rows, id, Hash(heir))
    {
      StepRow(s, e, id);
      assert !HasToken(s.rows, id, Hash(raw));
      assert HasPrev(s.rows, id, Hash(raw)) <==> HasToken(s.rows, id, Hash(heir));
    }
  }

  // The step gave row `id` a new token, to run out after the fixed time.
  predicate IssuedNow(s: State, e: Event, t: State, id: nat) {
    && id in t.rows && t.rows[id].token == Hash(s.nextRaw) && t.nextRaw == s.nextRaw + 1
    && (e.SignIn? || e.Refresh?)
    && t.rows[id].expiresAt == e.now + REFRESH_TOKEN_EXPIRY_MS
    && (e.SignIn? ==> t.rows[id].user == e.user && t.rows[id].agent == Agent(e.agent))
    && (e.Refresh? ==> HasToken(s.rows, id, Hash(e.raw)) && t.rows[id].user == s.rows[id].user)
  }

  // What one step can do to a row.
  lemma StepRow(s: State, e: Event, id: nat)
    ensures var t := Step(s, e);
            && s.nextRaw <= t.nextRaw
            && (id in t.rows ==>
                  || (id in s.rows && t.rows[id] == s.rows[id])
                  || (t.rows[id].token == Hash(s.nextRaw) && IssuedNow(s, e, t, id)
                      && t.rows[id].prev == if id in s.rows && id != s.nextId then Some(s.rows[id].token) else None)
                  || (id == s.nextId && t.rows[id].token == Hash(s.nextRaw) && IssuedNow(s, e, t, id)))
  {
  }

  lemma {:induction false} StaysLinked(trace: seq<State>, events: seq<Event>, i: nat, k: nat, raw: nat, heir: nat)
    requires Run(trace, events) && i <= k <= |events| && Linked(trace[i], raw, heir)
    ensures Linked(trace[k], raw, heir)
    decreases k
  {
    hide Step, Linked;
    if i < k {
      StaysLinked(trace, events, i, k - 1, raw, heir);
      RunInv(trace, events, k - 1);
      StepLinked(trace[k - 1], events[k - 1], raw, heir);
    }
  }

  // The step gave session `id` a new token in place of the one it held.
  predicate Replaced(s: State, t: State, id: nat) {
    id in s.rows && id in t.rows && t.rows[id].token != s.rows[id].token
  }

  // Exactly two calls replace a session's token: a refresh that is granted, and a new sign-in of its
  // user from its agent.
  lemma ReplacedBy(s: State, e: Event, id: nat)
    requires Inv(s) && Enabled(s, e) && id in s.rows
    ensures Replaced(s, Step(s, e), id)
            <==> || (e.Refresh? && HasToken(s.rows, id, Hash(e.raw)) && Refreshed(s, e.raw, e.now).1.Granted?)
                 || (e.SignIn? && HasAgent(s.rows, id, e.user, Agent(e.agent)))
    ensures Replaced(s, Step(s, e), id) ==> Step(s, e) == Rotated(s, id, e.now)
  {
    if e.SignIn? && !HasAgent(s.rows, id, e.user, Agent(e.agent)) {
      StepRow(s, e, id);
      if exists other :: HasAgent(s.rows, other, e.user, Agent(e.agent)) {
        var other :| HasAgent(s.rows, other, e.user, Agent(e.agent));
        assert other != id;
      }
    }
  }

  // Reuse detection.  After a refresh or a new sign-in replaced the token `raw` of a session by `heir`,
  // presenting `raw` again is reported as reuse exactly while `heir` has not itself left the table.
  lemma ReuseReportedExactly(trace: seq<State>, events: seq<Event>, i: nat, k: nat, id: nat, now: int)
    requires Run(trace, events) && i < k <= |events| && Replaced(trace[i], trace[i + 1], id)
    ensures var raw, heir := trace[i].rows[id].token.raw, trace[i + 1].rows[id].token.raw;
            Refreshed(trace[k], raw, now).1 == Reused <==> Current(trace[k], heir)
  {
    var raw, heir := trace[i].rows[id].token.raw, trace[i + 1].rows[id].token.raw;
    RunInv(trace, events, i);
    assert Enabled(trace[i], events[i]) && trace[i + 1] == Step(trace[i], events[i]);
    hide Step, Refreshed, Linked;
    ReplacedBy(trace[i], events[i], id);
    RotationLinks(trace[i], id, events[i].now);
    StaysLinked(trace, events, i + 1, k, raw, heir);
    LinkedReuse(trace[k], raw, heir, now);
  }

  lemma LinkedReuse(s: State, raw: nat, heir: nat, now: int)
    requires Linked(s, raw, heir)
    ensures Refreshed(s, raw, now).1 == Reused <==> Current(s, heir)
  {
    assert !Current(s, raw);
    if Current(s, heir) {
      var id :| HasToken(s.rows, id, Hash(heir));
      assert HasPrev(s.rows, id, Hash(raw));
    }
  }

  // ---------------------------------------------------------------------------------------------
  // Expiry.

  // The step that issued the token a session holds.
  lemma {:induction false} IssuedAt(trace: seq<State>, events: seq<Event>, k: nat, id: nat) returns (i: nat)
    requires Run(trace, events) && k <= |events| && id in trace[k].rows
    ensures i < k && IssuedNow(trace[i], events[i], trace[i + 1], id)
    ensures trace[i + 1].rows[id] == trace[k].rows[id]
    decreases k
  {
    hide Step, IssuedNow;
    var s := trace[k - 1];
    assert trace[k] == Step(s, events[k - 1]);
    StepRow(s, events[k - 1], id);
    if id in s.rows && trace[k].rows[id] == s.rows[id] {
      i := IssuedAt(trace, events, k - 1, id);
    } else {
      i := k - 1;
    }
  }

  // A token still in the table is accepted exactly until its seven days are over, counted from the sign-in or refresh
  // that issued it.
  lemma AcceptedUntilExpiry(trace: seq<State>, events: seq<Event>, k: nat, raw: nat, now: int) returns (i: nat)
    requires Run(trace, events) && k <= |events| && Current(trace[k], raw)
    ensures i < k && (events[i].SignIn? || events[i].Refresh?) && trace[i].nextRaw == raw
    ensures Refreshed(trace[k], raw, now).1.Granted? <==> now <= events[i].now + 7 * 24 * 60 * 60 * 1000
    ensures !Refreshed(trace[k], raw, now).1.Granted? ==> Refreshed(trace[k], raw, now) == (trace[k], Expired)
  {
    hide Step;
    RunInv(trace, events, k);
    var id :| HasToken(trace[k].rows, id, Hash(raw));
    i := IssuedAt(trace, events, k, id);
  }

  // ---------------------------------------------------------------------------------------------

  // What a sign-in leaves.  The user has a session for the agent, holding the new token; nobody
  // else's session changes, nor the user's session for any other agent; and at most one goes, an oldest
  // one, only at the limit and only when the agent had no session.
  ghost predicate SignInLeaves(s: State, t: State, user: nat, agent: string, victim: nat) {
    && (exists id :: HasAgent(t.rows, id, user, agent) && HasToken(t.rows, id, Hash(s.nextRaw)))
    && (forall id | id in s.rows && id in t.rows && !HasAgent(s.rows, id, user, agent) :: t.rows[id] == s.rows[id])
    && (forall id | id in s.rows && id !in t.rows ::
          id == victim && Oldest(s.rows, user, id) && MustEvict(s.rows, user, agent))
  }

  lemma SignedInLeaves(s: State, user: nat, agent: string, now: int, victim: nat)
    requires Inv(s) && (MustEvict(s.rows, user, agent) ==> Oldest(s.rows, user, victim))
    ensures SignInLeaves(s, SignedIn(s, user, agent, now, victim), user, agent, victim)
  {
    var t := SignedIn(s, user, agent, now, victim);
    if id :| HasAgent(s.rows, id, user, agent) {
      assert HasAgent(t.rows, id, user, agent) && HasToken(t.rows, id, Hash(s.nextRaw));
    } else {
      assert HasAgent(t.rows, s.nextId, user, agent) && HasToken(t.rows, s.nextId, Hash(s.nextRaw));
    }
  }

  lemma SignInEffect(trace: seq<State>, events: seq<Event>, k: nat)
    requires Run(trace, events) && k < |events| && events[k].SignIn?
    ensures SignInLeaves(trace[k], trace[k + 1], events[k].user, Agent(events[k].agent), events[k].victim)
  {
    RunInv(trace, events, k);
    var e := events[k];
    assert Enabled(trace[k], e);
    SignedInLeaves(trace[k], e.user, Agent(e.agent), e.now, e.victim);
  }

  // ---------------------------------------------------------------------------------------------
  // User agents as clients send them.

  // A missing agent, an empty one and the name the table uses for them are one.
  predicate Blank(agent: Option<string>) {
    agent == None || agent == Some("") || agent == Some("unknown")
  }

  predicate SameAgent(a: Option<string>, b: Option<string>) {
    a == b || (Blank(a) && Blank(b))
  }

  lemma AgentsExactly(a: Option<string>, b: Option<string>)
    ensures Agent(a) == Agent(b) <==> SameAgent(a, b)
  {
  }

  // The step created session `id`.
  predicate Creates(s: State, e: Event, t: State, id: nat) {
    && e.SignIn? && id == s.nextId && id in t.rows && id !in s.rows
    && t.rows[id].user == e.user && t.rows[id].agent == Agent(e.agent) && t.rows[id].createdAt == e.now
  }

  lemma RowKept(s: State, e: Event, id: nat)
    requires Inv(s) && id in Step(s, e).rows
    ensures var t := Step(s, e);
            || Creates(s, e, t, id)
            || (id in s.rows && t.rows[id].user == s.rows[id].user && t.rows[id].agent == s.rows[id].agent
                && t.rows[id].createdAt == s.rows[id].createdAt)
  {
  }

  // Every session is the one some sign-in created, for its user and agent and at its time.
  lemma {:induction false} CreatedBy(trace: seq<State>, events: seq<Event>, k: nat, id: nat) returns (i: nat)
    requires Run(trace, events) && k <= |events| && id in trace[k].rows
    ensures i < k && Creates(trace[i], events[i], trace[i + 1], id)
    ensures var x, y := trace[i + 1].rows[id], trace[k].rows[id];
            x.user == y.user && x.agent == y.agent && x.createdAt == y.createdAt
    decreases k
  {
    hide Step;
    RunInv(trace, events, k - 1);
    assert trace[k] == Step(trace[k - 1], events[k - 1]);
    RowKept(trace[k - 1], events[k - 1], id);
    if Creates(trace[k - 1], events[k - 1], trace[k], id) {
      i := k - 1;
    } else {
      i := CreatedBy(trace, events, k - 1, id);
    }
  }

  // Event `e` takes the token of session `id` out of the table.
  ghost predicate TakesOut(s: State, e: Event, id: nat)
    requires id in s.rows
  {
    var row := s.rows[id];
    match e
    case SignIn(user, agent, _, victim) =>
      user == row.user && (row.agent == Agent(agent) || (MustEvict(s.rows, user, Agent(agent)) && victim == id))
    case Refresh(raw, now) => row.token == Hash(raw) && now <= row.expiresAt
    case Logout(raw) => row.token == Hash(raw)
    case LogoutAll(user) => user == row.user
    case Terminate(user, other) => user == row.user && other == id
  }

  lemma LeavesExactly(s: State, e: Event, id: nat)
    requires Inv(s) && Enabled(s, e) && id in s.rows
    ensures Current(Step(s, e), s.rows[id].token.raw) <==> !TakesOut(s, e, id)
  {
    if TakesOut(s, e, id) {
      TakenOut(s, e, id);
    } else {
      assert s.rows[id].token == Hash(s.rows[id].token.raw);
      assert HasToken(Step(s, e).rows, id, s.rows[id].token);
    }
  }

  lemma TakenOut(s: State, e: Event, id: nat)
    requires Inv(s) && Enabled(s, e) && id in s.rows && TakesOut(s, e, id)
    ensures !Current(Step(s, e), s.rows[id].token.raw)
  {
    var row := s.rows[id];
    if e.SignIn? && row.agent == Agent(e.agent) {
      assert HasAgent(s.rows, id, e.user, Agent(e.agent));
      assert Step(s, e) == Rotated(s, id, e.now);
      RotationRetires(s, id, e.now);
    } else if e.Refresh? {
      assert HasToken(s.rows, id, Hash(e.raw));
      assert Step(s, e) == Rotated(s, id, e.now);
      RotationRetires(s, id, e.now);
    }
  }

  lemma {:induction false} NextRawMonotone(trace: seq<State>, events: seq<Event>, i: nat, k: nat)
    requires Run(trace, events) && i <= k <= |events|
    ensures trace[i].nextRaw <= trace[k].nextRaw
    decreases k
  {
    hide Step;
    if i < k {
      NextRawMonotone(trace, events, i, k - 1);
      NextRawGrows(trace, events, k - 1);
    }
  }

  // The session that holds the token a sign-in issued is one of its user and agent.
  lemma HolderOf(trace: seq<State>, events: seq<Event>, i: nat, k: nat, id: nat)
    requires Run(trace, events) && i < k <= |events| && events[i].SignIn? && HasToken(trace[k].rows, id, Hash(trace[i].nextRaw))
    ensures HasAgent(trace[k].rows, id, events[i].user, Agent(events[i].agent))
  {
    hide Step;
    var j := IssuedAt(trace, events, k, id);
    SignInIssues(trace, events, i);
    if j < i {
      NextRawMonotone(trace, events, j + 1, i);
    } else if i < j {
      NextRawMonotone(trace, events, i + 1, j);
    }
    assert j == i;
  }

  lemma SignInIssues(trace: seq<State>, events: seq<Event>, i: nat)
    requires Run(trace, events) && i < |events| && events[i].SignIn?
    ensures Current(trace[i + 1], trace[i].nextRaw) && trace[i + 1].nextRaw == trace[i].nextRaw + 1
  {
    SignInEffect(trace, events, i);
    assert trace[i + 1] == Step(trace[i], events[i]);
    var id :| HasToken(trace[i + 1].rows, id, Hash(trace[i].nextRaw));
  }

  // Two sign-ins of one user, whatever happened in between.  The second issues a current token, and takes
  // the first one's, if that is still current, out of the table if and only if the agents are the same or
  // the first one's session has to make room.
  lemma SignInsApart(trace: seq<State>, events: seq<Event>, i: nat, k: nat, id: nat)
    requires Run(trace, events) && i < k < |events| && events[i].SignIn? && events[k].SignIn?
    requires events[i].user == events[k].user && HasToken(trace[k].rows, id, Hash(trace[i].nextRaw))
    ensures Current(trace[k + 1], trace[k].nextRaw)
    ensures !Current(trace[k + 1], trace[i].nextRaw)
            <==> || SameAgent(events[i].agent, events[k].agent)
                 || (MustEvict(trace[k].rows, events[k].user, Agent(events[k].agent)) && events[k].victim == id)
    ensures |RowsOf(trace[k].rows, events[k].user)| < 5 ==>
              (Current(trace[k + 1], trace[i].nextRaw) <==> !SameAgent(events[i].agent, events[k].agent))
  {
    hide Step;
    RunInv(trace, events, k);
    HolderOf(trace, events, i, k, id);
    SignInIssues(trace, events, k);
    assert Enabled(trace[k], events[k]) && trace[k + 1] == Step(trace[k], events[k]);
    LeavesExactly(trace[k], events[k], id);
    AgentsExactly(events[i].agent, events[k].agent);
  }

  // A sign-in ends a session exactly when its user has five and none for its agent; the one that ends is
  // that of the user's earliest sign-in among those that created the five.
  lemma EvictsExactly(trace: seq<State>, events: seq<Event>, k: nat)
    requires Run(trace, events) && k < |events| && events[k].SignIn?
    ensures var e := events[k];
            (exists id :: id in trace[k].rows && id !in trace[k + 1].rows)
            <==> |RowsOf(trace[k].rows, e.user)| == 5 && forall id :: !HasAgent(trace[k].rows, id, e.user, Agent(e.agent))
  {
    RunInv(trace, events, k);
    var s, e := trace[k], events[k];
    assert Enabled(s, e) && trace[k + 1] == Step(s, e);
    SignedInLeaves(s, e.user, Agent(e.agent), e.now, e.victim);
    if MustEvict(s.rows, e.user, Agent(e.agent)) {
      assert e.victim in s.rows && e.victim != s.nextId;
      assert e.victim !in trace[k + 1].rows;
    }
  }

  lemma EvictedIsEarliest(trace: seq<State>, events: seq<Event>, k: nat, id: nat, other: nat, i: nat, j: nat)
    requires Run(trace, events) && k < |events| && events[k].SignIn? && id in trace[k].rows && id !in trace[k + 1].rows
    requires i < k && j < k && Creates(trace[i], events[i], trace[i + 1], id) && Creates(trace[j], events[j], trace[j + 1], other)
    requires other in trace[k].rows && trace[k].rows[other].user == events[k].user
    ensures events[i].user == events[k].user && events[i].now <= events[j].now
  {
    RunInv(trace, events, k);
    var s, e := trace[k], events[k];
    assert Enabled(s, e) && trace[k + 1] == Step(s, e);
    SignedInLeaves(s, e.user, Agent(e.agent), e.now, e.victim);
    CreatorIs(trace, events, k, id, i);
    CreatorIs(trace, events, k, other, j);
    assert Oldest(s.rows, e.user, id);
  }

  lemma {:induction false} NextIdMonotone(trace: seq<State>, events: seq<Event>, i: nat, k: nat)
    requires Run(trace, events) && i <= k <= |events|
    ensures trace[i].nextId <= trace[k].nextId
    decreases k
  {
    if i < k {
      NextIdMonotone(trace, events, i, k - 1);
      assert trace[k] == Step(trace[k - 1], events[k - 1]);
    }
  }

  lemma CreationCounts(trace: seq<State>, events: seq<Event>, i: nat, id: nat)
    requires Run(trace, events) && i < |events| && Creates(trace[i], events[i], trace[i + 1], id)
    ensures trace[i + 1].nextId == id + 1
  {
    assert trace[i + 1] == Step(trace[i], events[i]);
  }

  // A session has one creator.
  lemma CreatorIs(trace: seq<State>, events: seq<Event>, k: nat, id: nat, i: nat)
    requires Run(trace, events) && i < k <= |events| && id in trace[k].rows && Creates(trace[i], events[i], trace[i + 1], id)
    ensures trace[k].rows[id].user == events[i].user && trace[k].rows[id].createdAt == events[i].now
  {
    hide Step;
    var j := CreatedBy(trace, events, k, id);
    CreationCounts(trace, events, i, id);
    CreationCounts(trace, events, j, id);
    if j < i {
      NextIdMonotone(trace, events, j + 1, i);
    } else if i < j {
      NextIdMonotone(trace, events, i + 1, j);
    }
    assert j == i;
  }

  // Signing out.  A logged-out token is not current, a user logged out everywhere has no session and nobody
  // else lost one, and a terminated session is gone if it was the user's.
  lemma SignOutEnds(s: State, user: nat, raw: nat, id: nat, other: nat)
    requires Inv(s)
    ensures !Current(Step(s, Logout(raw)), raw)
    ensures RowsOf(Step(s, LogoutAll(user)).rows, user) == {}
    ensures other != user ==> RowsOf(Step(s, LogoutAll(user)).rows, other) == RowsOf(s.rows, other)
    ensures id in Step(s, Terminate(user, id)).rows <==> id in s.rows && s.rows[id].user != user
  {
  }
}
