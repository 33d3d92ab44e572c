/**
  `drDecrypt` and INIT parts.

  A frame may carry an INIT part: 65 bytes that the ciphertext does not authenticate.  Where the stored
  session refuses the frame, or there is none, the call starts a session from them.  What that does to
  exactly-once and to authenticity is stated here, for every run of the clients and for INIT parts from
  anybody.
 */
module Restarts {
  import opened Symbolic
  import opened DoubleRatchet
  import opened Worker
  import opened TwoParty
  import opened Delivery
  import opened Sessions
  import opened OneSession
  import opened EndToEnd
  import SessionRuns
  import Rebuilding

  // ---------------------------------------------------------------------------------------------
  // Exactly once.

  /** The key agreement returns byte strings. */
  predicate SeededOps(ops: seq<Op>) {
    forall i | 0 <= i < |ops| ::
      match ops[i]
      case Encrypt(_, sk, _, _, _) => sk.Seed?
      case Decrypt(init, _, _, _, _) => init.Some? ==> init.value.Seed?
  }

  lemma ClientSeeded(c: SessionRuns.Client, key: string)
    requires Reachable(c) && SeededOps(c.ops)
    ensures Seeded(On(c.log, key))
  {
    var h := On(c.log, key);
    forall n | 0 <= n < |h| && !h[n].Dec?
      ensures h[n].sk.Seed?
    {
      var x := InLog(c.log, key, n);
      SavedAttempt(c, x);
    }
  }

  // Save `x` of the log is decryption `n` of its conversation.
  lemma PositionOf(log: seq<Saved>, key: string, x: nat) returns (n: nat)
    requires x < |log| && log[x].key == key
    ensures n == |On(log[..x], key)| < |On(log, key)| && On(log, key)[n] == log[x].a
    ensures On(log, key)[..n] == On(log[..x], key) && On(log, key)[..n + 1] == On(log[..x + 1], key)
  {
    n := OnPosition(log, key, x);
    assert log[..x + 1][..x] == log[..x];
  }

  // Save `z` of conversation `key` started its session anew.
  predicate RestartSaved(log: seq<Saved>, key: string, z: nat) {
    z < |log| && log[z].key == key && log[z].a.InitDec?
  }

  lemma RestartInLog(log: seq<Saved>, key: string, n: nat) returns (z: nat)
    requires Restarts(On(log, key), n)
    ensures RestartSaved(log, key, z) && |On(log[..z], key)| == n
  {
    z := InLog(log, key, n);
  }

  // Of two saves of a conversation the earlier one has the lower position.
  lemma PositionsOrdered(log: seq<Saved>, key: string, x: nat, z: nat)
    requires x < |log| && z < |log| && log[x].key == key == log[z].key
    ensures |On(log[..x], key)| < |On(log[..z], key)| <==> x < z
  {
    if x < z {
      OnGrows(log, key, x, z);
    } else if z < x {
      OnGrows(log, key, z, x);
    }
  }

  // In every run of a client, when two calls of `drDecrypt` return for the same frame, the session was
  // started anew between them, if only by the second.
  lemma ReturnedAgain(c: SessionRuns.Client, key: string, i: nat, j: nat, a: Bytes, b: Bytes)
    requires Reachable(c) && SeededOps(c.ops) && i != j
    requires Returned(c, i, key, Plain(a)) && Returned(c, j, key, Plain(b)) && c.phases[i].at <= c.phases[j].at
    requires |c.ops| == |c.phases| && c.ops[i].Decrypt? && c.ops[j].Decrypt? && c.ops[i].wire == c.ops[j].wire
    ensures exists z :: c.phases[i].at < z <= c.phases[j].at && RestartSaved(c.log, key, z)
  {
    hide On, Seeded, SeededOps, Reachable, Opens, OneSession.Restarts, RestartSaved, OutputOf;
    ClientSeeded(c, key);
    var x, y := c.phases[i].at, c.phases[j].at;
    ReturnedOpens(c, key, i, a);
    ReturnedOpens(c, key, j, b);
    var n := PositionOf(c.log, key, x);
    var m := PositionOf(c.log, key, y);
    PositionsOrdered(c.log, key, x, y);
    OpenedAgain(On(c.log, key), n, m);
    var k :| n < k <= m && OneSession.Restarts(On(c.log, key), k);
    var z := RestartInLog(c.log, key, k);
    PositionsOrdered(c.log, key, x, z);
    PositionsOrdered(c.log, key, y, z);
  }

  // A call that returned a plaintext is an opening of its frame among the saves.
  lemma ReturnedOpens(c: SessionRuns.Client, key: string, i: nat, bytes: Bytes)
    requires Reachable(c) && Returned(c, i, key, Plain(bytes))
    ensures i < |c.ops| && c.ops[i].Decrypt?
    ensures var x := c.phases[i].at;
            && x < |c.log| && c.log[x].key == key && c.log[x].task == i && !c.log[x].a.Enc? && c.log[x].a.wire == c.ops[i].wire
            && Opens(On(c.log, key), |On(c.log[..x], key)|) && OutputOf(c.log, x) == Some(Plain(bytes))
  {
    ReachableFacts(c);
    assert SessionRuns.SettledAt(c, i);
    var x := c.phases[i].at;
    assert SessionRuns.SavedAt(c, x);
    hide SessionRuns.SettledAt, SessionRuns.SavedAt, SessionRuns.Inv, SessionRuns.InOrder, On;
    var n := PositionOf(c.log, key, x);
  }

  // ---------------------------------------------------------------------------------------------
  // A run in which a frame without an INIT part is opened twice.

  // The initiator's first two messages.
  function TwoSent(e: Agreed, plain0: Bytes, plain1: Bytes): (Wire, Wire) {
    var (s1, w0) := AfterEncrypt(AfterInitSender(e.sk, e.spk, e.first), plain0, []);
    var (s2, w1) := AfterEncrypt(s1, plain1, []);
    (w0.value, w1.value)
  }

  lemma HandlesSecond(e: Agreed, plain0: Bytes, plain1: Bytes, gen: nat, gen2: nat, gen3: nat)
    ensures var (w0, w1) := TwoSent(e, plain0, plain1);
            var r := DecryptOn(AfterInitReceiver(e.sk, e.spk), w0, gen);
            && r.Ok? && r.value.0 == plain0
            && var r1 := DecryptOn(r.value.1, w1, gen2);
               && r1.Ok? && r1.value.0 == plain1 && DecryptOn(r1.value.1, w0, gen3).Err?
  {
    var (w0, w1) := TwoSent(e, plain0, plain1);
    var c := Chain(e.sk, DhOf(e.first, e.spk));
    assert w0.ct.key == Message(c) && w1.ct.key == Message(Next(c)) && w0.header == Header(e.first, 0, 0);
    assert w1.header == Header(e.first, 0, 1);
    var s := AfterDhRatchet(AfterInitReceiver(e.sk, e.spk), e.first, gen);
    assert s.ckr == Some(c) && AfterSkip(s, 0) == (s, None);
    var s1 := AfterReceive(s, w0).0;
    assert s1.ckr == Some(Next(c)) && s1.nr == 1 && AfterSkip(s1, 1) == (s1, None);
    var s2 := AfterReceive(s1, w1).0;
    assert s2.ckr == Some(Next(Next(c))) && AfterSkip(s2, 0) == (s2, None);
  }

  // The responder handles the initiator's first two frames, then the first again, whose INIT part starts
  // its session anew, then the second again: all four calls return, the second frame's without an INIT
  // part of its own.
  lemma OpenedTwice(e: Agreed, plain0: Bytes, plain1: Bytes, gen: nat, gen2: nat)
    ensures var (w0, w1) := TwoSent(e, plain0, plain1);
            var first, second := Decrypt(Some(e.sk), w0, e.spk, gen, gen2), Decrypt(None, w1, e.spk, gen, gen2);
            var (r0, s0) := Alone(first, None);
            var (r1, s1) := Alone(second, s0);
            var (r2, s2) := Alone(first, s1);
            var (r3, _) := Alone(second, s2);
            r0 == r2 == Returns(Plain(plain0)) && r1 == r3 == Returns(Plain(plain1))
  {
    var (w0, w1) := TwoSent(e, plain0, plain1);
    HandlesSecond(e, plain0, plain1, gen2, gen, gen);
    hide DecryptOn;
    var s0 := Alone(Decrypt(Some(e.sk), w0, e.spk, gen, gen2), None).1;
    FirstOfDecrypt(Some(e.sk), w0, e.spk, gen, gen2, None);
    FirstOfDecrypt(None, w1, e.spk, gen, gen2, s0);
    FirstOfDecrypt(Some(e.sk), w0, e.spk, gen, gen2, Alone(Decrypt(None, w1, e.spk, gen, gen2), s0).1);
  }

  // A first-chain message within MAX_SKIP, in a frame with the agreed INIT part, gives its plaintext
  // every time: where the stored session refuses it, the session is started anew.
  lemma FirstChainAgain(e: Agreed, joint: seq<Side>, m: nat, gen: nat, gen2: nat)
    requires Permitted(e, joint) && m < |joint| && joint[m].p == 0 && joint[m].a.Enc?
    requires OutputAt(joint, m).Some? && OutputAt(joint, m).value.Cipher? && gen !in Sys(e, joint).h.keys
    requires OutputAt(joint, m).value.wire.header.dh == e.first && OutputAt(joint, m).value.wire.header.n <= MAX_SKIP
    ensures var op := Decrypt(Some(e.sk), OutputAt(joint, m).value.wire, e.spk, gen, gen2);
            && Alone(op, SessionAt(joint, 1)).0 == Returns(Plain(joint[m].a.plain))
            && CallDelivers(e, joint, 1, SessionAt(joint, 1), op, joint[m].a.plain)
  {
    hide Sys, Permitted, SessionAt, OutputAt, Holds, WithinSkip, Opening;
    SysHolds(e, joint, 1);
    SeedAgreed(e, joint);
    var i := SentIsLogged(e, joint, m);
    EntryCall(e, joint, 1, i, SessionAt(joint, 1), Decrypt(Some(e.sk), OutputAt(joint, m).value.wire, e.spk, gen, gen2));
  }

  lemma {:induction false} SeedAgreed(e: Agreed, joint: seq<Side>)
    requires Permitted(e, joint)
    ensures e.sk.Seed?
    decreases |joint|
  {
    if joint != [] {
      SeedAgreed(e, joint[..|joint| - 1]);
    }
  }

  // ---------------------------------------------------------------------------------------------
  // Authenticity.

  /** A message of `bytes` sealed in a session that starts from `k` and the prekey `spk`, by whoever knows `k`. */
  function OwnMessage(k: Key, spk: nat, dh: nat, bytes: Bytes): Wire {
    Wire(Header(dh, 0, 0), Sealed(Message(Chain(k, DhOf(spk, dh))), 0, bytes, Aad([], Header(dh, 0, 0))), [])
  }

  lemma OwnMessageOpens(k: Key, spk: nat, dh: nat, bytes: Bytes, gen: nat)
    ensures DecryptOn(AfterInitReceiver(k, spk), OwnMessage(k, spk, dh, bytes), gen).Ok?
    ensures DecryptOn(AfterInitReceiver(k, spk), OwnMessage(k, spk, dh, bytes), gen).value.0 == bytes
    ensures Origin(OwnMessage(k, spk, dh, bytes).ct.key) == Origin(k)
  {
  }

  // A frame whose INIT part anybody made with a key pair of its own, on a session of another origin or
  // none: the stored session refuses it, the call returns what that somebody sealed, and the session is
  // replaced by one that starts from its key.
  lemma AnyInitAccepted(session: Session, k: Key, spk: nat, dh: nat, bytes: Bytes, gen: nat, gen2: nat)
    requires k.Seed? && (session.Some? ==> Sound(session.value) && Origin(session.value.rk) != k)
    ensures var (r, next) := Alone(Decrypt(Some(k), OwnMessage(k, spk, dh, bytes), spk, gen, gen2), session);
            r == Returns(Plain(bytes)) && next.Some? && Sound(next.value) && Origin(next.value.rk) == k
  {
    var w := OwnMessage(k, spk, dh, bytes);
    OwnMessageOpens(k, spk, dh, bytes, gen2);
    SoundStart(k, spk, gen2);
    SoundDecrypt(AfterInitReceiver(k, spk), w, gen2);
    if session.Some? {
      SoundDecrypt(session.value, w, gen);
    }
    hide AfterDecrypt, OwnMessage;
    FirstOfDecrypt(Some(k), w, spk, gen, gen2, session);
  }

  // So it is with the stored session of a client in any state of any run.
  lemma AnyInitReplaces(c: SessionRuns.Client, key: string, k: Key, spk: nat, dh: nat, bytes: Bytes, gen: nat, gen2: nat)
    requires Reachable(c) && SeededOps(c.ops) && k.Seed? && SessionRuns.Shape(c)
    requires StartOf(On(c.log, key)).Some? ==> StartOf(On(c.log, key)).value.sk != k
    ensures var (r, next) := Alone(Decrypt(Some(k), OwnMessage(k, spk, dh, bytes), spk, gen, gen2), SessionRuns.Stored(c, key));
            r == Returns(Plain(bytes)) && next.Some? && Origin(next.value.rk) == k
  {
    StoredSound(c, key);
    hide Alone, OwnMessage, Sound, StartOf, On, SessionRuns.Stored, Reachable;
    AnyInitAccepted(SessionRuns.Stored(c, key), k, spk, dh, bytes, gen, gen2);
  }

  lemma StoredSound(c: SessionRuns.Client, key: string)
    requires Reachable(c) && SeededOps(c.ops)
    ensures SessionRuns.Shape(c)
    ensures var s, start := SessionRuns.Stored(c, key), StartOf(On(c.log, key));
            s.Some? ==> Sound(s.value) && start.Some? && StartedBy(s.value, start.value)
  {
    var h := On(c.log, key);
    StoredIsReplayed(c, key);
    ClientSeeded(c, key);
    assert h[..|h|] == h;
    ReplaySound(h, |h|);
    ReplayStart(h, |h|);
  }

  // Two clients' saves on one conversation.
  function Both(cs: seq<SessionRuns.Client>, key: string): seq<seq<Attempt>>
    requires |cs| == 2
  {
    [On(cs[0].log, key), On(cs[1].log, key)]
  }

  ghost predicate CipherSaved(c: SessionRuns.Client, key: string, bytes: Bytes, w: Wire) {
    exists x: nat :: SavedCipher(c, key, x, bytes, w)
  }

  // Authenticity in every run of two clients, INIT parts from anybody and sessions started anew any
  // number of times included: what a call returned in a session that comes from the agreed key is the
  // plaintext of a `drEncrypt` call of the peer, whose ciphertext its frame carried.
  lemma ReturnedInSession(cs: seq<SessionRuns.Client>, key: string, sk: Key, p: nat, i: nat, bytes: Bytes)
    requires |cs| == 2 && Reachable(cs[0]) && Reachable(cs[1]) && SeededOps(cs[0].ops) && SeededOps(cs[1].ops)
    requires Roles(Both(cs, key), sk) && NobodyElse(Both(cs, key), sk)
    requires p < 2 && Returned(cs[p], i, key, Plain(bytes)) && cs[p].phases[i].at < |cs[p].log|
    requires var start := StartOf(On(cs[p].log[..cs[p].phases[i].at + 1], key)); start.Some? && start.value.sk == sk
    ensures i < |cs[p].ops| && cs[p].ops[i].Decrypt? && CipherSaved(cs[1 - p], key, bytes, cs[p].ops[i].wire)
  {
    hide On, Seeded, SeededOps, Reachable, Opens, StartOf, Roles, NobodyElse, Replay, Apply, WasSent, CipherSaved;
    var hs, x := Both(cs, key), cs[p].phases[i].at;
    ClientSeeded(cs[0], key);
    ClientSeeded(cs[1], key);
    ReturnedOpens(cs[p], key, i, bytes);
    var n := PositionOf(cs[p].log, key, x);
    AuthenticOpening(hs, sk, p, n);
    OutputAtPosition(cs[p].log, key, x, n);
    SentIsSaved(cs[1 - p], key, cs[p].ops[i].wire, bytes);
  }

  lemma OutputAtPosition(log: seq<Saved>, key: string, x: nat, n: nat)
    requires x < |log| && log[x].key == key && OutputOf(log, x).Some?
    requires n < |On(log, key)| && On(log, key)[n] == log[x].a && On(log, key)[..n] == On(log[..x], key)
    ensures var r := Apply(On(log, key)[n], Replay(On(log, key)[..n]));
            r.Some? && OutputOf(log, x) == Some(r.value.0)
  {
  }

  lemma SentIsSaved(c: SessionRuns.Client, key: string, w: Wire, bytes: Bytes)
    requires Reachable(c) && WasSent(On(c.log, key), w, bytes)
    ensures CipherSaved(c, key, bytes, w)
  {
    hide Reachable, Apply, Replay, On;
    var m: nat :| Sent(On(c.log, key), m, w, bytes);
    var x := InLog(c.log, key, m);
    SavedAttempt(c, x);
    assert SavedCipher(c, key, x, bytes, w);
  }

  // A result is null, an exception, or a message of the peer that the frame carried.
  ghost predicate Genuine(s: System, p: nat, w: Wire, r: CallResult) {
    r.Returns? && r.out.Plain? ==>
      exists i: nat :: i < |s.log| && s.log[i].wire == w && s.log[i].chain % 2 != p && s.log[i].plain == r.out.bytes
  }

  // Every frame with an INIT part of key `k`, whose box only the clients can have sealed if it is under
  // a key that comes from the shared secret, gives the responder a genuine result.
  ghost predicate OnlyGenuine(e: Agreed, joint: seq<Side>, k: Key) {
    forall w: Wire, gen: nat, gen2: nat | gen !in Sys(e, joint).h.keys && Unforged(Sys(e, joint).h, Sys(e, joint).log, w.ct) ::
      Genuine(Sys(e, joint), 1, w, Alone(Decrypt(Some(k), w, e.spk, gen, gen2), SessionAt(joint, 1)).0)
  }

  // Which INIT parts can be trusted: exactly the agreed one.
  lemma InitKeyDecides(e: Agreed, joint: seq<Side>, k: Key)
    requires Permitted(e, joint) && k.Seed?
    ensures OnlyGenuine(e, joint, k) <==> k == e.sk
  {
    hide Permitted, Sys, SessionAt, Unforged, Genuine, Alone;
    if k == e.sk {
      forall w: Wire, gen: nat, gen2: nat | gen !in Sys(e, joint).h.keys && Unforged(Sys(e, joint).h, Sys(e, joint).log, w.ct)
        ensures Genuine(Sys(e, joint), 1, w, Alone(Decrypt(Some(k), w, e.spk, gen, gen2), SessionAt(joint, 1)).0)
      {
        AgreedIsGenuine(e, joint, w, gen, gen2);
      }
    } else {
      OtherIsForged(e, joint, k);
    }
  }

  function NewName(names: seq<nat>): (n: nat)
    ensures n !in names && forall x | x in names :: x < n
  {
    if names == [] then 0
    else
      var m := NewName(names[1..]);
      assert names == [names[0]] + names[1..];
      if names[0] < m then m else names[0] + 1
  }

  lemma OtherIsForged(e: Agreed, joint: seq<Side>, k: Key)
    requires Permitted(e, joint) && k.Seed? && k != e.sk
    ensures !OnlyGenuine(e, joint, k)
  {
    hide Sys, Permitted, SessionAt, Alone, Sound, Trace, Actions, OwnMessage, PartyInv;
    var s := Sys(e, joint);
    SessionSound(e, joint, 1);
    SysKeys(e, joint);
    SysRun(e, joint);
    assert joint[..|joint|] == joint && Inv(s);
    var gen, w := NewName(s.h.keys), OwnMessage(k, e.spk, 0, []);
    OwnMessageOpens(k, e.spk, 0, [], gen);
    AnyInitAccepted(SessionAt(joint, 1), k, e.spk, 0, [], gen, gen);
    assert Unforged(s.h, s.log, w.ct);
    if i: nat :| i < |s.log| && s.log[i].wire == w {
      assert EntryInv(s.h, s.log[i]);
      MessageKeyOrigin(s.h.sk, s.h.keys, s.log[i].chain, s.log[i].n);
    }
    assert !Genuine(s, 1, w, Alone(Decrypt(Some(k), w, e.spk, gen, gen), SessionAt(joint, 1)).0);
  }

  // The sessions of a permitted order come from the agreed key.
  lemma {:induction false} SessionSound(e: Agreed, joint: seq<Side>, p: nat)
    requires Permitted(e, joint) && p < 2
    ensures SessionAt(joint, p).Some? ==> Sound(SessionAt(joint, p).value) && Origin(SessionAt(joint, p).value.rk) == e.sk
    decreases |joint|
  {
    if joint != [] {
      var init, x := joint[..|joint| - 1], joint[|joint| - 1];
      SessionSound(e, init, p);
      SeedAgreed(e, joint);
      assert Allowed(e, Sys(e, init), SessionAt(init, x.p), x);
      hide Sys, Permitted, SessionAt, Sound;
      SideAppend(joint, p);
      if x.p == p {
        SaveSound(e, Sys(e, init), SessionAt(init, p), x);
      }
    }
  }

  lemma SaveSound(e: Agreed, s: System, session: Session, x: Side)
    requires Allowed(e, s, session, x) && e.sk.Seed?
    requires session.Some? ==> Sound(session.value) && Origin(session.value.rk) == e.sk
    ensures Sound(Apply(x.a, session).value.1) && Origin(Apply(x.a, session).value.1.rk) == e.sk
  {
    SoundStart(e.sk, e.spk, e.first);
    hide Sound, AfterDecrypt, Unforged;
    match x.a
    case Enc(plain, _, _, _, _) =>
      SoundEncrypt(if session.Some? then session.value else AfterInitSender(e.sk, e.spk, e.first), plain, []);
    case Dec(w, gen) => SoundDecrypt(session.value, w, gen);
    case InitDec(_, _, w, gen) => SoundDecrypt(AfterInitReceiver(e.sk, e.spk), w, gen);
  }

  lemma AgreedIsGenuine(e: Agreed, joint: seq<Side>, w: Wire, gen: nat, gen2: nat)
    requires Permitted(e, joint) && gen !in Sys(e, joint).h.keys && Unforged(Sys(e, joint).h, Sys(e, joint).log, w.ct)
    ensures Genuine(Sys(e, joint), 1, w, Alone(Decrypt(Some(e.sk), w, e.spk, gen, gen2), SessionAt(joint, 1)).0)
  {
    hide Sys, Permitted, SessionAt, Actions, DecryptOn;
    var s, session := Sys(e, joint), SessionAt(joint, 1);
    SysHolds(e, joint, 1);
    SysKeys(e, joint);
    SysRun(e, joint);
    assert joint[..|joint|] == joint && Inv(s);
    FirstOfDecrypt(Some(e.sk), w, e.spk, gen, gen2, session);
    if Apply(Dec(w, gen), session).Some? {
      assert PartyInv(s.h, s.st[1], s.acc[1], s.h.SendChain(1));
      var i := DeliveredEntry(s, 1, w, gen);
    } else if DecryptOn(AfterInitReceiver(e.sk, e.spk), w, gen2).Ok? {
      RestartIsGenuine(s, w, gen2);
    }
  }

  // What the agreed INIT part opens is a message of the initiator.
  lemma RestartIsGenuine(s: System, w: Wire, gen: nat)
    requires Inv(s) && Unforged(s.h, s.log, w.ct)
    requires DecryptOn(Rebuilding.Restarted(s.h), w, gen).Ok?
    ensures Genuine(s, 1, w, Returns(Plain(DecryptOn(Rebuilding.Restarted(s.h), w, gen).value.0)))
  {
    var st := Rebuilding.Restarted(s.h);
    hide PartyInv, AfterDecrypt;
    SoundStart(s.h.sk, s.h.keys[0], gen);
    SoundDecrypt(st, w, gen);
    OpensAs(st, w, gen);
    var i: nat :| i < |s.log| && s.log[i].wire.ct == w.ct;
    assert EntryInv(s.h, s.log[i]);
    assert s.log[i].wire == w;
    Rebuilding.RestartOpens(s, i, gen);
  }
}
