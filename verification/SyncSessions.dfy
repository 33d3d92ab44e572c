/**
  The server's device-sync signalling: the in-memory session store with its socket index
  (server/src/chat/sync-session.service.ts) and the gateway handlers that drive it
  (server/src/chat/chat.gateway.ts).  Each handler is one atomic step.
 */
module SyncSessions {
  import opened Symbolic

  type Socket = string
  const SYNC_SESSION_TTL_MS := 300000

  /** What the source advertises; either part may be missing from the request. */
  datatype Offer = Offer(ekSource: Option<string>, sdpOffer: Option<string>)

  datatype Session = Session(user: nat, source: Socket, target: Option<Socket>, expiresAt: int, offer: Option<Offer>)

  datatype State = State(mem: map<string, Session>, index: map<Socket, string>)

  datatype Message =
    | RateLimited
    | Error(reason: string)
    | Ready(id: string)
    | Offered(id: string, offer: Option<Offer>)
    | PeerJoined(id: string, ekTarget: string)
    | PeerAnswer(id: string, answer: string)
    | Candidate(id: string, candidate: string)
    | Aborted(id: string, reason: string)

  datatype Emit = Emit(to: Socket, msg: Message)

  // 32 lower-case hexadecimal digits.
  predicate ValidId(id: string) {
    |id| == 32 && forall i | 0 <= i < |id| :: '0' <= id[i] <= '9' || 'a' <= id[i] <= 'f'
  }

  function Participants(s: Session): set<Socket> {
    {s.source} + if s.target.Some? then {s.target.value} else {}
  }

  // The other side of a session, if there is one.
  function Peer(s: Session, client: Socket): Option<Socket> {
    if s.source == client then s.target else Some(s.source)
  }

  function ToPeer(s: Session, client: Socket, msg: Message): seq<Emit> {
    match Peer(s, client)
    case Some(peer) => [Emit(peer, msg)]
    case None => []
  }

  // ---------------------------------------------------------------------------------------------
  // The store.

  function Deleted(s: State, id: string): State {
    if id !in s.mem then s else State(s.mem - {id}, s.index - Participants(s.mem[id]))
  }

  // `k` takes part in a session that has expired and is not one of `todo`.
  predicate ExpiredSocket(s: State, todo: set<string>, now: int, k: Socket) {
    exists id | id in s.mem :: id !in todo && s.mem[id].expiresAt <= now && k in Participants(s.mem[id])
  }

  // Expired sessions outside `todo` are gone, and so are all index entries of their sockets.
  function Purged(s: State, todo: set<string>, now: int): State {
    State(map id | id in s.mem && (id in todo || s.mem[id].expiresAt > now) :: s.mem[id],
          map k | k in s.index && !ExpiredSocket(s, todo, now, k) :: s.index[k])
  }

  class SyncSessionService {
    var mem: map<string, Session>
    var sktMem: map<Socket, string>

    function View(): State
      reads this
    {
      State(mem, sktMem)
    }

    constructor ()
      ensures View() == State(map[], map[])
    {
      mem, sktMem := map[], map[];
    }

    method Set(sessionId: string, session: Session)
      modifies this
      ensures View() == old(View()).(mem := old(mem)[sessionId := session])
    {
      mem := mem[sessionId := session];
    }

    method Update(sessionId: string, target: Option<Socket>, offer: Option<Offer>) returns (updated: Option<Session>)
      modifies this
      ensures sessionId !in old(mem) ==> updated == None && View() == old(View())
      ensures sessionId in old(mem) ==>
                && updated == Some(old(mem)[sessionId].(target := target, offer := offer))
                && View() == old(View()).(mem := old(mem)[sessionId := updated.value])
    {
      if sessionId !in mem {
        return None;
      }
      updated := Some(mem[sessionId].(target := target, offer := offer));
      Set(sessionId, updated.value);
    }

    method TrackSocket(socketId: Socket, sessionId: string)
      modifies this
      ensures View() == old(View()).(index := old(sktMem)[socketId := sessionId])
    {
      sktMem := sktMem[socketId := sessionId];
    }

    method GetSessionBySocket(socketId: Socket) returns (found: Option<(string, Session)>)
      ensures found == if socketId in sktMem && sktMem[socketId] != "" && sktMem[socketId] in mem
                       then Some((sktMem[socketId], mem[sktMem[socketId]])) else None
    {
      if socketId !in sktMem || sktMem[socketId] == "" || sktMem[socketId] !in mem {
        return None;
      }
      return Some((sktMem[socketId], mem[sktMem[socketId]]));
    }

    method DeleteSession(sessionId: string)
      modifies this
      ensures View() == Deleted(old(View()), sessionId)
    {
      if sessionId !in mem {
        return;
      }
      var session := mem[sessionId];
      mem := mem - {sessionId};
      sktMem := sktMem - {session.source};
      if session.target.Some? {
        sktMem := sktMem - {session.target.value};
      }
    }

    method PurgeExpired(now: int)
      modifies this
      ensures View() == Purged(old(View()), {}, now)
    {
      var todo: set<string> := mem.Keys;
      while todo != {}
        invariant todo <= old(mem).Keys
        invariant View() == Purged(old(View()), todo, now)
        decreases todo
      {
        var id: string :| id in todo;
        var s := mem[id];
        PurgeOne(old(View()), todo, now, id);
        if s.expiresAt <= now {
          sktMem := sktMem - {s.source};
          if s.target.Some? {
            sktMem := sktMem - {s.target.value};
          }
          mem := mem - {id};
        }
        todo := todo - {id};
      }
    }
  }

  // Visiting one more session.
  lemma PurgeOne(s: State, todo: set<string>, now: int, id: string)
    requires id in todo && id in s.mem
    ensures var p := Purged(s, todo, now);
            Purged(s, todo - {id}, now)
            == if s.mem[id].expiresAt <= now then State(p.mem - {id}, p.index - Participants(s.mem[id])) else p
  {
    var p, q := Purged(s, todo, now), Purged(s, todo - {id}, now);
    var gone := if s.mem[id].expiresAt <= now then Participants(s.mem[id]) else {};
    forall k
      ensures ExpiredSocket(s, todo - {id}, now, k) <==> ExpiredSocket(s, todo, now, k) || k in gone
    {
    }
    assert q.index == p.index - gone;
  }

  // ---------------------------------------------------------------------------------------------
  // The handlers.

  // `allowed` is the rate limiter's answer.
  datatype Action =
    | Start(id: string, offer: Offer, allowed: bool)
    | Join(id: string, ekTarget: string, allowed: bool)
    | RelayAnswer(id: string, answer: string)
    | Ice(id: string, candidate: string)
    | Abort(id: string)
    | Disconnect
    | Purge

  datatype Event = Event(client: Socket, now: int, action: Action)

  type Users = Socket -> nat

  function Handle(users: Users, s: State, e: Event): (State, seq<Emit>) {
    var client := e.client;
    match e.action
    case Start(id, offer, allowed) =>
      if !allowed then (s, [Emit(client, RateLimited)])
      else if !ValidId(id) then (s, [Emit(client, Error("invalid_session_id"))])
      else if id in s.mem then (s, [Emit(client, Error("session_exists"))])
      else
        var session := Session(users(client), client, None, e.now + SYNC_SESSION_TTL_MS, Some(offer));
        (State(s.mem[id := session], s.index[client := id]), [Emit(client, Ready(id))])
    case Join(id, ekTarget, allowed) =>
      if !allowed then (s, [Emit(client, RateLimited)])
      else if id !in s.mem || s.mem[id].expiresAt <= e.now then (s, [Emit(client, Error("not_found"))])
      else if s.mem[id].user != users(client) then (s, [Emit(client, Error("not_found"))])
      else if s.mem[id].target.Some? || s.mem[id].source == client then (s, [Emit(client, Error("not_available"))])
      else
        var session := s.mem[id];
        (State(s.mem[id := session.(target := Some(client), offer := None)], s.index[client := id]),
         [Emit(client, Offered(id, session.offer)), Emit(session.source, PeerJoined(id, ekTarget))])
    case RelayAnswer(id, answer) =>
      if id !in s.mem || s.mem[id].target != Some(client) then (s, [])
      else (s, [Emit(s.mem[id].source, PeerAnswer(id, answer))])
    case Ice(id, candidate) =>
      if id !in s.mem || s.mem[id].expiresAt <= e.now || client !in Participants(s.mem[id]) then (s, [])
      else (s, ToPeer(s.mem[id], client, Candidate(id, candidate)))
    case Abort(id) =>
      if id !in s.mem || client !in Participants(s.mem[id]) then (s, [])
      else
        (Deleted(s, id),
         ToPeer(s.mem[id], client, Aborted(id, "peer_aborted")) + [Emit(client, Aborted(id, "self_aborted"))])
    case Disconnect =>
      if client !in s.index || s.index[client] == "" || s.index[client] !in s.mem then (s, [])
      else
        var id := s.index[client];
        (Deleted(s, id), ToPeer(s.mem[id], client, Aborted(id, "peer_disconnected")))
    case Purge => (Purged(s, {}, e.now), [])
  }

  class ChatGateway {
    const syncSessions: SyncSessionService
    const users: Users

    constructor (users: Users)
      ensures this.users == users && fresh(syncSessions) && syncSessions.View() == State(map[], map[])
    {
      this.users := users;
      syncSessions := new SyncSessionService();
    }

    method HandleDeviceSyncStart(client: Socket, now: int, id: string, offer: Offer, allowed: bool) returns (out: seq<Emit>)
      modifies syncSessions
      ensures (syncSessions.View(), out) == Handle(users, old(syncSessions.View()), Event(client, now, Start(id, offer, allowed)))
    {
      if !allowed {
        return [Emit(client, RateLimited)];
      }
      if !ValidId(id) {
        return [Emit(client, Error("invalid_session_id"))];
      }
      if id in syncSessions.mem {
        return [Emit(client, Error("session_exists"))];
      }
      syncSessions.Set(id, Session(users(client), client, None, now + SYNC_SESSION_TTL_MS, Some(offer)));
      syncSessions.TrackSocket(client, id);
      return [Emit(client, Ready(id))];
    }

    method HandleDeviceSyncJoin(client: Socket, now: int, id: string, ekTarget: string, allowed: bool) returns (out: seq<Emit>)
      modifies syncSessions
      ensures (syncSessions.View(), out) == Handle(users, old(syncSessions.View()), Event(client, now, Join(id, ekTarget, allowed)))
    {
      if !allowed {
        return [Emit(client, RateLimited)];
      }
      if id !in syncSessions.mem || syncSessions.mem[id].expiresAt <= now {
        return [Emit(client, Error("not_found"))];
      }
      var session := syncSessions.mem[id];
      if session.user != users(client) {
        return [Emit(client, Error("not_found"))];
      }
      if session.target.Some? {
        return [Emit(client, Error("not_available"))];
      }
      if session.source == client {
        return [Emit(client, Error("not_available"))];
      }
      var _ := syncSessions.Update(id, Some(client), None);
      syncSessions.TrackSocket(client, id);
      return [Emit(client, Offered(id, session.offer)), Emit(session.source, PeerJoined(id, ekTarget))];
    }

    method HandleDeviceSyncRelayAnswer(client: Socket, now: int, id: string, answer: string) returns (out: seq<Emit>)
      ensures (syncSessions.View(), out) == Handle(users, syncSessions.View(), Event(client, now, RelayAnswer(id, answer)))
    {
      if id !in syncSessions.mem || syncSessions.mem[id].target != Some(client) {
        return [];
      }
      return [Emit(syncSessions.mem[id].source, PeerAnswer(id, answer))];
    }

    method HandleDeviceSyncIce(client: Socket, now: int, id: string, candidate: string) returns (out: seq<Emit>)
      ensures (syncSessions.View(), out) == Handle(users, syncSessions.View(), Event(client, now, Ice(id, candidate)))
    {
      if id !in syncSessions.mem || syncSessions.mem[id].expiresAt <= now {
        return [];
      }
      var session := syncSessions.mem[id];
      var isSource := session.source == client;
      var isTarget := session.target == Some(client);
      if !isSource && !isTarget {
        return [];
      }
      var peer := if isSource then session.target else Some(session.source);
      if peer.None? {
        return [];
      }
      return [Emit(peer.value, Candidate(id, candidate))];
    }

    method HandleDeviceSyncAbort(client: Socket, now: int, id: string) returns (out: seq<Emit>)
      modifies syncSessions
      ensures (syncSessions.View(), out) == Handle(users, old(syncSessions.View()), Event(client, now, Abort(id)))
    {
      if id !in syncSessions.mem {
        return [];
      }
      var session := syncSessions.mem[id];
      var isSource := session.source == client;
      var isTarget := session.target == Some(client);
      if !isSource && !isTarget {
        return [];
      }
      syncSessions.DeleteSession(id);
      out := [];
      var peer := if isSource then session.target else Some(session.source);
      if peer.Some? {
        out := [Emit(peer.value, Aborted(id, "peer_aborted"))];
      }
      out := out + [Emit(client, Aborted(id, "self_aborted"))];
    }

    method HandleDisconnect(client: Socket, now: int) returns (out: seq<Emit>)
      modifies syncSessions
      ensures (syncSessions.View(), out) == Handle(users, old(syncSessions.View()), Event(client, now, Disconnect))
    {
      out := [];
      var found := syncSessions.GetSessionBySocket(client);
      if found.Some? {
        var (sessionId, session) := found.value;
        syncSessions.DeleteSession(sessionId);
        var peer := if session.source == client then session.target else Some(session.source);
        if peer.Some? {
          out := [Emit(peer.value, Aborted(sessionId, "peer_disconnected"))];
        }
      }
    }
  }

  // ---------------------------------------------------------------------------------------------
  // Runs.

  ghost predicate Run(users: Users, trace: seq<State>, events: seq<Event>) {
    && |trace| == |events| + 1
    && trace[0] == State(map[], map[])
    && (forall k | 0 <= k < |events| :: trace[k + 1] == Handle(users, trace[k], events[k]).0)
  }

  // What event `k` emits.
  function Output(users: Users, trace: seq<State>, events: seq<Event>, k: nat): seq<Emit>
    requires k < |events| == |trace| - 1
  {
    Handle(users, trace[k], events[k]).1
  }

  // Every index entry names a live session the socket takes part in.
  ghost predicate IndexSound(s: State) {
    forall k | k in s.index :: s.index[k] in s.mem && k in Participants(s.mem[s.index[k]])
  }

  // A session's sockets are two, of one user; the offer is held until the second one joins.
  ghost predicate SessionInv(users: Users, s: Session) {
    && users(s.source) == s.user
    && (s.offer.Some? <==> s.target.None?)
    && (s.target.Some? ==> s.target.value != s.source && users(s.target.value) == s.user)
  }

  ghost predicate Inv(users: Users, s: State) {
    && IndexSound(s)
    && (forall id | id in s.mem :: ValidId(id) && SessionInv(users, s.mem[id]))
  }

  lemma HandleInv(users: Users, s: State, e: Event)
    requires Inv(users, s)
    ensures Inv(users, Handle(users, s, e).0)
  {
    match e.action
    case Abort(id) => DeletedInv(users, s, id);
    case Disconnect =>
      if e.client in s.index {
        DeletedInv(users, s, s.index[e.client]);
      }
    case Purge => PurgedInv(users, s, e.now);
    case _ =>
  }

  lemma DeletedInv(users: Users, s: State, id: string)
    requires Inv(users, s)
    ensures Inv(users, Deleted(s, id))
  {
  }

  lemma PurgedInv(users: Users, s: State, now: int)
    requires Inv(users, s)
    ensures Inv(users, Purged(s, {}, now))
  {
    var t := Purged(s, {}, now);
    forall k | k in t.index
      ensures t.index[k] in t.mem && k in Participants(t.mem[t.index[k]])
    {
      assert !ExpiredSocket(s, {}, now, k);
    }
  }

  lemma {:induction false} RunInv(users: Users, trace: seq<State>, events: seq<Event>, k: nat)
    requires Run(users, trace, events) && k <= |events|
    ensures Inv(users, trace[k])
  {
    if k > 0 {
      RunInv(users, trace, events, k - 1);
      HandleInv(users, trace[k - 1], events[k - 1]);
    }
  }

  // Index soundness.  In every run, each index entry names a live session in which that socket is the
  // source or the target.
  lemma {:induction false} SocketIndexSound(users: Users, trace: seq<State>, events: seq<Event>, k: nat, skt: Socket)
    requires Run(users, trace, events) && k <= |events|
    ensures var s := trace[k];
            skt in s.index ==> s.index[skt] in s.mem && skt in Participants(s.mem[s.index[skt]])
  {
    RunInv(users, trace, events, k);
  }

  // ---------------------------------------------------------------------------------------------
  // A live session's owner, source and expiry never change, nor its target once set.

  predicate SameSession(s: Session, t: Session) {
    && t.user == s.user && t.source == s.source && t.expiresAt == s.expiresAt
    && (s.target.Some? ==> t.target == s.target)
    && (t.offer == s.offer || t.offer == None)
  }

  ghost predicate LiveThroughout(users: Users, trace: seq<State>, events: seq<Event>, i: nat, j: nat, id: string)
    requires i <= j <= |events| == |trace| - 1
  {
    forall k: nat | i <= k <= j :: id in trace[k].mem
  }

  // One step keeps what a surviving session is, and a session waiting for its target as it is.
  lemma HandleKeeps(users: Users, s: State, e: Event, id: string)
    requires id in s.mem && id in Handle(users, s, e).0.mem
    ensures var t := Handle(users, s, e).0;
            SameSession(s.mem[id], t.mem[id]) && (t.mem[id].target.None? ==> t.mem[id] == s.mem[id])
  {
  }

  lemma {:induction false} SessionFixed(users: Users, trace: seq<State>, events: seq<Event>, i: nat, j: nat, id: string)
    requires Run(users, trace, events) && i <= j <= |events| && LiveThroughout(users, trace, events, i, j, id)
    ensures SameSession(trace[i].mem[id], trace[j].mem[id])
    decreases j
  {
    hide Handle;
    if i < j {
      SessionFixed(users, trace, events, i, j - 1, id);
      assert id in trace[j - 1].mem && id in trace[j].mem;
      HandleKeeps(users, trace[j - 1], events[j - 1], id);
    }
  }

  // ---------------------------------------------------------------------------------------------
  // Relay containment.

  // The two sockets of one session, of one user.
  predicate Pair(users: Users, s: Session, from: Socket, to: Socket) {
    && s.target.Some? && from != to && {from, to} == {s.source, s.target.value}
    && users(from) == users(to) == s.user
  }

  // What a message emitted while handling `e` tells about the session it names.
  ghost predicate Contained(users: Users, s: State, e: Event, t: State, m: Emit) {
    match m.msg
    case RateLimited => m.to == e.client
    case Error(_) => m.to == e.client
    case Ready(id) => m.to == e.client && id !in s.mem && id in t.mem
    case Offered(id, offer) =>
      && m.to == e.client && id in s.mem && id in t.mem
      && s.mem[id].target.None? && offer == s.mem[id].offer
      && t.mem[id].target == Some(e.client) && t.mem[id].offer.None?
      && Pair(users, t.mem[id], e.client, s.mem[id].source)
    case PeerJoined(id, _) =>
      id in t.mem && t.mem[id].target == Some(e.client) && Pair(users, t.mem[id], e.client, m.to)
    case PeerAnswer(id, _) =>
      id in s.mem && s.mem[id].target == Some(e.client) && Pair(users, s.mem[id], e.client, m.to)
    case Candidate(id, _) => id in s.mem && Pair(users, s.mem[id], e.client, m.to) && e.now < s.mem[id].expiresAt
    case Aborted(id, _) =>
      && id in s.mem && id !in t.mem && e.client in Participants(s.mem[id])
      && (m.to == e.client || Pair(users, s.mem[id], e.client, m.to))
  }

  lemma PeerIsPair(users: Users, s: Session, client: Socket)
    requires SessionInv(users, s) && client in Participants(s) && Peer(s, client).Some?
    ensures Pair(users, s, client, Peer(s, client).value)
  {
  }

  lemma HandleContained(users: Users, s: State, e: Event, i: nat)
    requires Inv(users, s) && i < |Handle(users, s, e).1|
    ensures Contained(users, s, e, Handle(users, s, e).0, Handle(users, s, e).1[i])
  {
    match e.action
    case Ice(id, _) => PeerIsPair(users, s.mem[id], e.client);
    case Abort(id) =>
      if Peer(s.mem[id], e.client).Some? {
        PeerIsPair(users, s.mem[id], e.client);
      }
    case Disconnect => PeerIsPair(users, s.mem[s.index[e.client]], e.client);
    case _ =>
  }

  // Relay containment.  In every run, a message that does not answer the client whose event is handled
  // goes from that client to the other of the two distinct sockets of one session of one user; an
  // offer goes only to the socket that becomes the session's target in that very step, and is
  // forgotten in it.
  lemma {:induction false} RelayContained(users: Users, trace: seq<State>, events: seq<Event>, k: nat, i: nat)
    requires Run(users, trace, events) && k < |events| && i < |Output(users, trace, events, k)|
    ensures Contained(users, trace[k], events[k], trace[k + 1], Output(users, trace, events, k)[i])
  {
    RunInv(users, trace, events, k);
    HandleContained(users, trace[k], events[k], i);
  }

  // ---------------------------------------------------------------------------------------------
  // An offer is forwarded at most once.

  predicate Creates(users: Users, trace: seq<State>, events: seq<Event>, k: nat, id: string)
    requires k < |events| == |trace| - 1
  {
    id !in trace[k].mem && id in trace[k + 1].mem
  }

  predicate Forwards(users: Users, trace: seq<State>, events: seq<Event>, k: nat, id: string)
    requires k < |events| == |trace| - 1
  {
    exists m | m in Output(users, trace, events, k) :: m.msg.Offered? && m.msg.id == id
  }

  // Only a start puts a session there, with the offer in it.
  lemma CreatedByStart(users: Users, trace: seq<State>, events: seq<Event>, k: nat, id: string)
    requires Run(users, trace, events) && k < |events| && Creates(users, trace, events, k, id)
    ensures events[k].action.Start? && events[k].action.id == id
    ensures var s := trace[k + 1].mem[id];
            && s == Session(users(events[k].client), events[k].client, None,
                            events[k].now + SYNC_SESSION_TTL_MS, Some(events[k].action.offer))
  {
  }

  // Between creations a session that is gone or taken stays gone or taken.
  lemma {:induction false} StaysTaken(users: Users, trace: seq<State>, events: seq<Event>, i: nat, j: nat, id: string)
    requires Run(users, trace, events) && i <= j <= |events|
    requires id in trace[i].mem ==> trace[i].mem[id].target.Some?
    requires forall k: nat | i <= k < j :: !Creates(users, trace, events, k, id)
    ensures id in trace[j].mem ==> trace[j].mem[id].target.Some?
    decreases j
  {
    hide Handle;
    if i < j {
      StaysTaken(users, trace, events, i, j - 1, id);
      assert !Creates(users, trace, events, j - 1, id);
      if id in trace[j].mem {
        HandleKeeps(users, trace[j - 1], events[j - 1], id);
      }
    }
  }

  lemma HandleForwards(users: Users, s: State, e: Event, m: Emit)
    requires m in Handle(users, s, e).1 && m.msg.Offered?
    ensures m.to == e.client && m.msg.id in s.mem && e.now < s.mem[m.msg.id].expiresAt
    ensures m.to != s.mem[m.msg.id].source && users(m.to) == s.mem[m.msg.id].user
    ensures var t := Handle(users, s, e).0;
            && m.msg.id in s.mem && s.mem[m.msg.id].target.None? && m.msg.offer == s.mem[m.msg.id].offer
            && m.msg.id in t.mem && t.mem[m.msg.id].target.Some?
  {
  }

  lemma ForwardTakes(users: Users, trace: seq<State>, events: seq<Event>, k: nat, id: string)
    requires Run(users, trace, events) && k < |events| && Forwards(users, trace, events, k, id)
    ensures id in trace[k].mem && trace[k].mem[id].target.None?
    ensures id in trace[k + 1].mem && trace[k + 1].mem[id].target.Some?
  {
    hide Handle;
    var m :| m in Output(users, trace, events, k) && m.msg.Offered? && m.msg.id == id;
    HandleForwards(users, trace[k], events[k], m);
  }

  // Two forwards of one id have a creation between them.
  lemma OfferOnce(users: Users, trace: seq<State>, events: seq<Event>, i: nat, j: nat, id: string)
    requires Run(users, trace, events) && i < j < |events|
    requires Forwards(users, trace, events, i, id) && Forwards(users, trace, events, j, id)
    ensures exists k: nat :: i < k < j && Creates(users, trace, events, k, id)
  {
    hide Handle;
    ForwardTakes(users, trace, events, i, id);
    ForwardTakes(users, trace, events, j, id);
    if forall k: nat | i + 1 <= k < j :: !Creates(users, trace, events, k, id) {
      StaysTaken(users, trace, events, i + 1, j, id);
    }
  }

  // A session still waiting for its target is as the start that created it left it.
  lemma {:induction false} WaitingOffer(users: Users, trace: seq<State>, events: seq<Event>,
                                        j: nat, id: string) returns (k: nat)
    requires Run(users, trace, events) && j <= |events| && id in trace[j].mem && trace[j].mem[id].target.None?
    ensures k < j && Creates(users, trace, events, k, id)
    ensures events[k].action.Start?
    ensures trace[j].mem[id]
         == Session(users(events[k].client), events[k].client, None,
                    events[k].now + SYNC_SESSION_TTL_MS, Some(events[k].action.offer))
    ensures forall l: nat | k < l < j :: !Creates(users, trace, events, l, id)
    decreases j
  {
    hide Handle;
    if Creates(users, trace, events, j - 1, id) {
      k := j - 1;
      CreatedByStart(users, trace, events, k, id);
    } else {
      HandleKeeps(users, trace[j - 1], events[j - 1], id);
      k := WaitingOffer(users, trace, events, j - 1, id);
    }
  }

  // What is forwarded is the offer of the latest creation of that id; it goes to another socket of the
  // creator's user, within the session's lifetime.
  lemma OfferIsLatest(users: Users, trace: seq<State>, events: seq<Event>, j: nat, m: Emit) returns (k: nat)
    requires Run(users, trace, events) && j < |events| && m in Output(users, trace, events, j) && m.msg.Offered?
    ensures k < j && Creates(users, trace, events, k, m.msg.id) && events[k].action.Start?
    ensures m.msg.offer == Some(events[k].action.offer)
    ensures m.to == events[j].client != events[k].client && users(m.to) == users(events[k].client)
    ensures events[j].now < events[k].now + SYNC_SESSION_TTL_MS
    ensures forall l: nat | k < l < j :: !Creates(users, trace, events, l, m.msg.id)
  {
    hide Handle;
    HandleForwards(users, trace[j], events[j], m);
    k := WaitingOffer(users, trace, events, j, m.msg.id);
  }

  // ---------------------------------------------------------------------------------------------
  // What is delivered.

  lemma ValidExactly(id: string)
    ensures ValidId(id) <==> |id| == 32 && forall c | c in id :: c in "0123456789abcdef"
  {
    if ValidId(id) {
      forall c | c in id
        ensures c in "0123456789abcdef"
      {
        HexDigits(c);
      }
    } else if |id| == 32 {
      var i :| 0 <= i < |id| && !('0' <= id[i] <= '9' || 'a' <= id[i] <= 'f');
      HexDigits(id[i]);
      assert id[i] in id;
    }
  }

  lemma HexDigits(c: char)
    ensures c in "0123456789abcdef" <==> '0' <= c <= '9' || 'a' <= c <= 'f'
  {
    var digits := "0123456789abcdef";
    assert digits[0] == '0' && digits[1] == '1' && digits[2] == '2' && digits[3] == '3' && digits[4] == '4';
    assert digits[5] == '5' && digits[6] == '6' && digits[7] == '7' && digits[8] == '8' && digits[9] == '9';
    assert digits[10] == 'a' && digits[11] == 'b' && digits[12] == 'c' && digits[13] == 'd' && digits[14] == 'e' && digits[15] == 'f';
  }

  // A start creates a session, and says so to its client alone, exactly when the limiter allows it and its
  // id is well formed and not in use; otherwise the client is told the first of these that fails.
  lemma StartCreates(users: Users, trace: seq<State>, events: seq<Event>, k: nat, id: string, offer: Offer, allowed: bool)
    requires Run(users, trace, events) && k < |events| && events[k].action == Start(id, offer, allowed)
    ensures Creates(users, trace, events, k, id) <==> allowed && ValidId(id) && id !in trace[k].mem
    ensures Output(users, trace, events, k)
         == [Emit(events[k].client, if Creates(users, trace, events, k, id) then Ready(id)
                                    else if !allowed then RateLimited
                                    else if !ValidId(id) then Error("invalid_session_id") else Error("session_exists"))]
  {
    assert trace[k + 1] == Handle(users, trace[k], events[k]).0;
  }

  // The session that event `k` created is live until event `j`.
  ghost predicate LivesSince(users: Users, trace: seq<State>, events: seq<Event>, k: nat, j: nat, id: string)
    requires k < j < |events| == |trace| - 1
  {
    Creates(users, trace, events, k, id) && LiveThroughout(users, trace, events, k + 1, j, id)
  }

  lemma HandleTakes(users: Users, s: State, e: Event, id: string)
    requires id in s.mem && id in Handle(users, s, e).0.mem && s.mem[id].target.None?
    ensures Handle(users, s, e).0.mem[id].target.Some? <==> exists m | m in Handle(users, s, e).1 :: m.msg.Offered? && m.msg.id == id
  {
    if e.action.Join? && e.action.id == id && Handle(users, s, e).0.mem[id].target.Some? {
      var m := Handle(users, s, e).1[0];
      assert m in Handle(users, s, e).1 && m.msg.Offered? && m.msg.id == id;
    }
  }

  // A live session is taken exactly when its offer has been forwarded since it was created; until then
  // it is as the start left it.
  lemma {:induction false} TakenExactly(users: Users, trace: seq<State>, events: seq<Event>, k: nat, j: nat, id: string)
    requires Run(users, trace, events) && k < j < |events| && LivesSince(users, trace, events, k, j, id)
    ensures events[k].action.Start? && id in trace[j].mem
    ensures SameSession(Session(users(events[k].client), events[k].client, None, events[k].now + SYNC_SESSION_TTL_MS,
                                Some(events[k].action.offer)), trace[j].mem[id])
    ensures trace[j].mem[id].target.Some? <==> exists l: nat :: k < l < j && Forwards(users, trace, events, l, id)
    ensures trace[j].mem[id].target.None? ==> trace[j].mem[id].offer == Some(events[k].action.offer)
    decreases j
  {
    hide Handle;
    CreatedByStart(users, trace, events, k, id);
    if k + 1 < j {
      assert LivesSince(users, trace, events, k, j - 1, id);
      TakenExactly(users, trace, events, k, j - 1, id);
      assert id in trace[j - 1].mem && id in trace[j].mem;
      HandleKeeps(users, trace[j - 1], events[j - 1], id);
      if trace[j - 1].mem[id].target.None? {
        HandleTakes(users, trace[j - 1], events[j - 1], id);
        assert trace[j].mem[id].target.Some? <==> Forwards(users, trace, events, j - 1, id);
      }
    }
  }

  // A join of a live session gets its offer, and the source hears of it, exactly when the limiter allows
  // it, the session's five minutes are not over, the client is another socket of its user, and the offer
  // has not been forwarded before; otherwise the client alone is told why, with no difference between a
  // session that is over and one of somebody else.
  lemma JoinAnswered(users: Users, trace: seq<State>, events: seq<Event>, k: nat, j: nat, id: string, ek: string, allowed: bool)
    requires Run(users, trace, events) && k < j < |events| && LivesSince(users, trace, events, k, j, id)
    requires events[j].action == Join(id, ek, allowed)
    ensures events[k].action.Start?
    ensures Forwards(users, trace, events, j, id)
            <==> && allowed && events[j].now < events[k].now + 300000
                 && users(events[j].client) == users(events[k].client) && events[j].client != events[k].client
                 && !exists l: nat :: k < l < j && Forwards(users, trace, events, l, id)
    ensures Forwards(users, trace, events, j, id) ==>
              Output(users, trace, events, j)
              == [Emit(events[j].client, Offered(id, Some(events[k].action.offer))), Emit(events[k].client, PeerJoined(id, ek))]
    ensures !Forwards(users, trace, events, j, id) ==>
              Output(users, trace, events, j)
              == [Emit(events[j].client,
                       if !allowed then RateLimited
                       else if events[j].now >= events[k].now + 300000 || users(events[j].client) != users(events[k].client)
                       then Error("not_found") else Error("not_available"))]
  {
    TakenExactly(users, trace, events, k, j, id);
    JoinForwards(users, trace[j], events[j], id);
  }

  lemma JoinForwards(users: Users, s: State, e: Event, id: string)
    requires id in s.mem && e.action.Join? && e.action.id == id
    ensures var out := Handle(users, s, e).1;
            var x := s.mem[id];
            && ((exists m | m in out :: m.msg.Offered? && m.msg.id == id)
                <==> && e.action.allowed && e.now < x.expiresAt && users(e.client) == x.user && e.client != x.source
                     && x.target.None?)
            && ((exists m | m in out :: m.msg.Offered? && m.msg.id == id) ==>
                  out == [Emit(e.client, Offered(id, x.offer)), Emit(x.source, PeerJoined(id, e.action.ekTarget))])
            && (!(exists m | m in out :: m.msg.Offered? && m.msg.id == id) ==>
                  out == [Emit(e.client, if !e.action.allowed then RateLimited
                                         else if x.expiresAt <= e.now || x.user != users(e.client) then Error("not_found")
                                         else Error("not_available"))])
  {
    var out := Handle(users, s, e).1;
    if out[0].msg.Offered? {
      assert out[0] in out;
    }
  }

  // A join of a session that is not live is told that there is none.
  lemma JoinUnknown(users: Users, trace: seq<State>, events: seq<Event>, j: nat, id: string, ek: string)
    requires Run(users, trace, events) && j < |events| && events[j].action == Join(id, ek, true) && id !in trace[j].mem
    ensures Output(users, trace, events, j) == [Emit(events[j].client, Error("not_found"))] && trace[j + 1] == trace[j]
  {
    assert trace[j + 1] == Handle(users, trace[j], events[j]).0;
  }

  // The offer of session `id` went to socket `to` at event `i`, and the session is live until event `j`.
  ghost predicate Connected(users: Users, trace: seq<State>, events: seq<Event>, k: nat, i: nat, j: nat, id: string, to: Socket)
    requires k < i < j < |events| == |trace| - 1
  {
    && LivesSince(users, trace, events, k, j, id)
    && exists m | m in Output(users, trace, events, i) :: m.msg.Offered? && m.msg.id == id && m.to == to
  }

  lemma HandleConnects(users: Users, s: State, e: Event, m: Emit)
    requires m in Handle(users, s, e).1 && m.msg.Offered?
    ensures var t := Handle(users, s, e).0; m.msg.id in t.mem && t.mem[m.msg.id].target == Some(m.to)
  {
  }

  // The two sockets of such a session are the one that started it and the one its offer went to.
  lemma ConnectedSockets(users: Users, trace: seq<State>, events: seq<Event>, k: nat, i: nat, j: nat, id: string, to: Socket)
    requires Run(users, trace, events) && k < i < j < |events| && Connected(users, trace, events, k, i, j, id, to)
    ensures id in trace[j].mem
    ensures var x := trace[j].mem[id];
            && x.source == events[k].client != to && x.target == Some(to)
            && x.expiresAt == events[k].now + SYNC_SESSION_TTL_MS
  {
    hide Handle;
    TakenExactly(users, trace, events, k, j, id);
    var m :| m in Output(users, trace, events, i) && m.msg.Offered? && m.msg.id == id && m.to == to;
    HandleConnects(users, trace[i], events[i], m);
    SessionFixed(users, trace, events, i + 1, j, id);
    RunInv(users, trace, events, j);
  }

  // An answer of the socket the offer went to reaches the one that started the session; nobody else's
  // goes anywhere.
  lemma AnswerDelivered(users: Users, trace: seq<State>, events: seq<Event>, k: nat, i: nat, j: nat, id: string,
                        to: Socket, answer: string)
    requires Run(users, trace, events) && k < i < j < |events| && Connected(users, trace, events, k, i, j, id, to)
    requires events[j].action == RelayAnswer(id, answer)
    ensures Output(users, trace, events, j)
         == if events[j].client == to then [Emit(events[k].client, PeerAnswer(id, answer))] else []
  {
    ConnectedSockets(users, trace, events, k, i, j, id, to);
  }

  // A candidate of either side reaches the other until the session's five minutes are over.
  lemma CandidateDelivered(users: Users, trace: seq<State>, events: seq<Event>, k: nat, i: nat, j: nat, id: string,
                           to: Socket, candidate: string)
    requires Run(users, trace, events) && k < i < j < |events| && Connected(users, trace, events, k, i, j, id, to)
    requires events[j].action == Ice(id, candidate)
    ensures Output(users, trace, events, j)
         == if events[j].now >= events[k].now + 300000 then []
            else if events[j].client == events[k].client then [Emit(to, Candidate(id, candidate))]
            else if events[j].client == to then [Emit(events[k].client, Candidate(id, candidate))] else []
  {
    ConnectedSockets(users, trace, events, k, i, j, id, to);
  }

  // Aborting by either side ends the session and tells both; nobody else can.
  lemma AbortTold(users: Users, trace: seq<State>, events: seq<Event>, k: nat, i: nat, j: nat, id: string, to: Socket)
    requires Run(users, trace, events) && k < i < j < |events| && Connected(users, trace, events, k, i, j, id, to)
    requires events[j].action == Abort(id)
    ensures id !in trace[j + 1].mem <==> events[j].client in {events[k].client, to}
    ensures Output(users, trace, events, j)
         == if events[j].client == events[k].client
            then [Emit(to, Aborted(id, "peer_aborted")), Emit(events[j].client, Aborted(id, "self_aborted"))]
            else if events[j].client == to
            then [Emit(events[k].client, Aborted(id, "peer_aborted")), Emit(to, Aborted(id, "self_aborted"))] else []
  {
    ConnectedSockets(users, trace, events, k, i, j, id, to);
    assert trace[j + 1] == Handle(users, trace[j], events[j]).0;
  }

  // A disconnect of either side, when the index names the session, ends it and tells the other side.
  lemma DisconnectTold(users: Users, trace: seq<State>, events: seq<Event>, k: nat, i: nat, j: nat, id: string, to: Socket)
    requires Run(users, trace, events) && k < i < j < |events| && Connected(users, trace, events, k, i, j, id, to)
    requires events[j].action == Disconnect && events[j].client in {events[k].client, to}
    requires Indexed(trace[j], events[j].client)
    ensures id !in trace[j + 1].mem
    ensures Output(users, trace, events, j)
         == [Emit(if events[j].client == to then events[k].client else to, Aborted(id, "peer_disconnected"))]
  {
    ConnectedSockets(users, trace, events, k, i, j, id, to);
    RunInv(users, trace, events, j);
    assert TakesPart(trace[j], events[j].client, id);
    assert trace[j + 1] == Handle(users, trace[j], events[j]).0;
  }

  // A purge ends exactly the sessions whose five minutes are over, with all index entries of their sockets.
  lemma PurgeEnds(users: Users, trace: seq<State>, events: seq<Event>, k: nat, j: nat, id: string)
    requires Run(users, trace, events) && k < j < |events| && LivesSince(users, trace, events, k, j, id)
    requires events[j].action == Purge
    ensures id in trace[j + 1].mem <==> events[j].now < events[k].now + 300000
    ensures id !in trace[j + 1].mem ==> events[k].client !in trace[j + 1].index
  {
    TakenExactly(users, trace, events, k, j, id);
    assert trace[j + 1] == Handle(users, trace[j], events[j]).0;
  }

  // ---------------------------------------------------------------------------------------------
  // Disconnecting.  The index holds one session per socket, but a socket may open several.

  predicate TakesPart(s: State, skt: Socket, id: string) {
    id in s.mem && skt in Participants(s.mem[id])
  }

  ghost predicate Gone(s: State, skt: Socket) {
    forall id :: !TakesPart(s, skt, id)
  }

  // Every live session of the socket is the one the index names.
  ghost predicate Indexed(s: State, skt: Socket) {
    forall id | TakesPart(s, skt, id) :: skt in s.index && s.index[skt] == id
  }

  lemma DisconnectExact(users: Users, s: State, skt: Socket, now: int)
    requires Inv(users, s)
    ensures Gone(Handle(users, s, Event(skt, now, Disconnect)).0, skt) <==> Indexed(s, skt)
  {
    var t := Handle(users, s, Event(skt, now, Disconnect)).0;
    if !Indexed(s, skt) {
      var id :| TakesPart(s, skt, id) && !(skt in s.index && s.index[skt] == id);
      assert TakesPart(t, skt, id);
    } else {
      forall id
        ensures !TakesPart(t, skt, id)
      {
        assert TakesPart(t, skt, id) ==> TakesPart(s, skt, id);
      }
    }
  }

  // Exactly when the index names all of a socket's live sessions does its disconnect end them all.
  lemma {:induction false} DisconnectEndsAll(users: Users, trace: seq<State>, events: seq<Event>, k: nat,
                                             skt: Socket, now: int)
    requires Run(users, trace, events) && k <= |events|
    ensures var s := trace[k];
            Gone(Handle(users, s, Event(skt, now, Disconnect)).0, skt) <==> Indexed(s, skt)
  {
    hide Handle;
    RunInv(users, trace, events, k);
    DisconnectExact(users, trace[k], skt, now);
  }

  function Zeros(): string { seq(32, _ => '0') }
  function Ones(): string { seq(32, _ => '1') }

  // A socket that starts two sessions and disconnects leaves the first one live.
  lemma DisconnectMayLeaveSession(users: Users, skt: Socket, offer: Offer) returns (trace: seq<State>, events: seq<Event>)
    ensures events == [Event(skt, 0, Start(Zeros(), offer, true)), Event(skt, 1, Start(Ones(), offer, true)),
                       Event(skt, 2, Disconnect)]
    ensures Run(users, trace, events) && TakesPart(trace[3], skt, Zeros())
  {
    events := [Event(skt, 0, Start(Zeros(), offer, true)), Event(skt, 1, Start(Ones(), offer, true)), Event(skt, 2, Disconnect)];
    assert Zeros()[0] != Ones()[0];
    assert Ones() != "";
    var s0 := State(map[], map[]);
    var s1 := Handle(users, s0, events[0]).0;
    assert s1.mem.Keys == {Zeros()};
    var s2 := Handle(users, s1, events[1]).0;
    assert s2.mem.Keys == {Zeros(), Ones()} && s2.index == map[skt := Ones()];
    trace := [s0, s1, s2, Handle(users, s2, events[2]).0];
  }

  // `e` opens a session for the socket.
  predicate Opens(users: Users, s: State, e: Event, skt: Socket) {
    var out := Handle(users, s, e).1;
    e.client == skt && |out| > 0 && (out[0].msg.Ready? || out[0].msg.Offered?)
  }

  // How many sessions a socket has started or joined.
  function Opened(users: Users, trace: seq<State>, events: seq<Event>, k: nat, skt: Socket): nat
    requires k <= |events| == |trace| - 1
  {
    if k == 0 then 0
    else
      var before := Opened(users, trace, events, k - 1, skt);
      if Opens(users, trace[k - 1], events[k - 1], skt) then before + 1 else before
  }

  // One event keeps a socket's live sessions indexed, unless it is its second opening.
  lemma HandleIndexed(users: Users, s: State, e: Event, skt: Socket)
    requires Inv(users, s) && Indexed(s, skt)
    requires Gone(s, skt) || !Opens(users, s, e, skt)
    ensures Indexed(Handle(users, s, e).0, skt)
  {
    var t := Handle(users, s, e).0;
    forall id | TakesPart(t, skt, id)
      ensures skt in t.index && t.index[skt] == id
    {
      if TakesPart(s, skt, id) {
        KeepsIndex(users, s, e, skt, id);
      }
    }
  }

  lemma KeepsIndex(users: Users, s: State, e: Event, skt: Socket, id: string)
    requires Inv(users, s) && Indexed(s, skt) && TakesPart(s, skt, id) && TakesPart(Handle(users, s, e).0, skt, id)
    requires !Opens(users, s, e, skt)
    ensures var t := Handle(users, s, e).0; skt in t.index && t.index[skt] == id
  {
    assert skt in s.index && s.index[skt] == id;
    match e.action
    case Abort(other) => assert TakesPart(s, skt, other) ==> other == id;
    case Purge =>
      if ExpiredSocket(s, {}, e.now, skt) {
        var other :| other in s.mem && s.mem[other].expiresAt <= e.now && skt in Participants(s.mem[other]);
        assert TakesPart(s, skt, other);
      }
    case Disconnect =>
      if e.client in s.index {
        var other := s.index[e.client];
        assert TakesPart(s, skt, other) ==> other == id;
      }
    case _ =>
  }

  lemma HandleGone(users: Users, s: State, e: Event, skt: Socket)
    requires Gone(s, skt) && !Opens(users, s, e, skt)
    ensures Gone(Handle(users, s, e).0, skt)
  {
    var t := Handle(users, s, e).0;
    forall id
      ensures !TakesPart(t, skt, id)
    {
      assert !TakesPart(s, skt, id);
    }
  }

  lemma {:induction false} FirstSessionIndexed(users: Users, trace: seq<State>, events: seq<Event>, k: nat, skt: Socket)
    requires Run(users, trace, events) && k <= |events|
    ensures Opened(users, trace, events, k, skt) == 0 ==> Gone(trace[k], skt)
    ensures Opened(users, trace, events, k, skt) <= 1 ==> Indexed(trace[k], skt)
  {
    hide Handle, Opens;
    if k > 0 {
      FirstSessionIndexed(users, trace, events, k - 1, skt);
      RunInv(users, trace, events, k - 1);
      if Opened(users, trace, events, k, skt) <= 1 {
        HandleIndexed(users, trace[k - 1], events[k - 1], skt);
      }
      if Opened(users, trace, events, k, skt) == 0 {
        HandleGone(users, trace[k - 1], events[k - 1], skt);
      }
    }
  }

  // A socket that has opened at most one session leaves none behind.
  lemma {:induction false} SingleSessionEnds(users: Users, trace: seq<State>, events: seq<Event>, k: nat,
                                             skt: Socket, now: int)
    requires Run(users, trace, events) && k <= |events| && Opened(users, trace, events, k, skt) <= 1
    ensures Gone(Handle(users, trace[k], Event(skt, now, Disconnect)).0, skt)
  {
    FirstSessionIndexed(users, trace, events, k, skt);
    DisconnectEndsAll(users, trace, events, k, skt, now);
  }
}
