/**
  Two clients of one conversation as two parties of the ratchet protocol.

  Each client is a run of concurrent calls with its own store.  `joint` is an order in which the saves
  of the two clients on the conversation reached their stores; with one initiator, and keys generated
  anew, it is a run of the two-party system, and what that system guarantees holds of the calls.
 */
module EndToEnd {
  import opened Symbolic
  import opened DoubleRatchet
  import opened Worker
  import opened TwoParty
  import opened TwoPartyInvariant
  import opened Delivery
  import opened Sessions
  import OneSession
  import Rebuilding
  import SessionRuns

  /** What the key agreement fixes: the shared secret, the responder's prekey, the initiator's first key. */
  datatype Agreed = Agreed(sk: Key, spk: nat, first: nat)

  /** A save of party `p`; the initiator is party 0. */
  datatype Side = Side(p: nat, a: Attempt)

  function SideOn(joint: seq<Side>, p: nat): seq<Attempt> {
    if joint == [] then []
    else
      var before, x := SideOn(joint[..|joint| - 1], p), joint[|joint| - 1];
      if x.p == p then before + [x.a] else before
  }

  function SessionAt(joint: seq<Side>, p: nat): Session {
    Replay(SideOn(joint, p))
  }

  // What a save of the conversation does in the two-party system.
  function ActionOf(x: Side): Action {
    match x.a
    case Enc(plain, _, _, _, _) => Send(x.p, plain, [])
    case Dec(w, gen) => Deliver(x.p, w, gen)
    case InitDec(_, _, w, gen) => Deliver(x.p, w, gen)
  }

  function Start(e: Agreed): System {
    System(History(e.sk, [e.spk, e.first], [0]), [AfterInitSender(e.sk, e.spk, e.first), AfterInitReceiver(e.sk, e.spk)],
           [{}, {}], [])
  }

  ghost function Sys(e: Agreed, joint: seq<Side>): System {
    if joint == [] then Start(e)
    else
      var s, action := Sys(e, joint[..|joint| - 1]), ActionOf(joint[|joint| - 1]);
      if Enabled(s, action) then Step(s, action) else s
  }

  // One initiator and no restarts: only party 0 starts a session by encrypting, only party 1 from an INIT
  // frame, each when it has none and with what was agreed.  Generated keys are new, and the network forges nothing.
  ghost predicate Allowed(e: Agreed, s: System, session: Session, x: Side) {
    && x.p < 2 && Enabled(s, ActionOf(x)) && Apply(x.a, session).Some?
    && match x.a
       case Enc(_, sk, _, spk, gen) => session.Some? || (x.p == 0 && Agreed(sk, spk, gen) == e)
       case Dec(_, _) => true
       case InitDec(sk, spk, _, _) => x.p == 1 && session.None? && sk == e.sk && spk == e.spk
  }

  ghost predicate Permitted(e: Agreed, joint: seq<Side>) {
    if joint == [] then e.sk.Seed? && e.spk != e.first
    else
      var init, x := joint[..|joint| - 1], joint[|joint| - 1];
      Permitted(e, init) && Allowed(e, Sys(e, init), SessionAt(init, x.p), x)
  }

  // ---------------------------------------------------------------------------------------------
  // The saves are a run of the two-party system.

  // A party without a session is still in the state it will start from.
  predicate Holds(e: Agreed, s: System, session: Session, p: nat)
    requires p < 2
  {
    && |s.st| == 2
    && (session.Some? ==> s.st[p] == session.value)
    && (session.None? ==> s.st[p] == Start(e).st[p])
  }

  lemma OneSave(e: Agreed, s: System, session: Session, x: Side)
    requires Allowed(e, s, session, x) && Holds(e, s, session, x.p)
    ensures var t := Step(s, ActionOf(x));
            var (out, next) := Apply(x.a, session).value;
            && |t.st| == 2 && t.st[x.p] == next && t.st[1 - x.p] == s.st[1 - x.p]
    ensures x.a.Enc? ==>
              && EncryptOn(s.st[x.p], x.a.plain, []).Ok? && Apply(x.a, session).value.0.Cipher?
              && Apply(x.a, session).value.0.wire == EncryptOn(s.st[x.p], x.a.plain, []).value.0
    ensures !x.a.Enc? ==>
              && DecryptOn(s.st[x.p], x.a.wire, x.a.gen).Ok?
              && Apply(x.a, session).value.0 == Plain(DecryptOn(s.st[x.p], x.a.wire, x.a.gen).value.0)
  {
  }

  lemma SideAppend(joint: seq<Side>, p: nat)
    requires joint != []
    ensures var init, x := joint[..|joint| - 1], joint[|joint| - 1];
            && SideOn(joint, p) == (if x.p == p then SideOn(init, p) + [x.a] else SideOn(init, p))
            && SessionAt(joint, p) == if x.p != p || Apply(x.a, SessionAt(init, p)).None? then SessionAt(init, p)
                                      else Some(Apply(x.a, SessionAt(init, p)).value.1)
  {
    var init, x := joint[..|joint| - 1], joint[|joint| - 1];
    assert (SideOn(init, p) + [x.a])[..|SideOn(init, p)|] == SideOn(init, p);
  }

  lemma {:induction false} SysHolds(e: Agreed, joint: seq<Side>, p: nat)
    requires Permitted(e, joint) && p < 2
    ensures Holds(e, Sys(e, joint), SessionAt(joint, p), p)
    decreases |joint|
  {
    if joint != [] {
      var init, x := joint[..|joint| - 1], joint[|joint| - 1];
      SysHolds(e, init, p);
      SysHolds(e, init, x.p);
      hide Step, Enabled, Apply;
      SideAppend(joint, p);
      OneSave(e, Sys(e, init), SessionAt(init, x.p), x);
    }
  }

  lemma {:induction false} PermittedPrefix(e: Agreed, joint: seq<Side>, n: nat)
    requires Permitted(e, joint) && n <= |joint|
    ensures Permitted(e, joint[..n])
    ensures n < |joint| ==> Allowed(e, Sys(e, joint[..n]), SessionAt(joint[..n], joint[n].p), joint[n])
    decreases |joint|
  {
    if n == |joint| {
      assert joint[..n] == joint;
    } else {
      var init := joint[..|joint| - 1];
      PermittedPrefix(e, init, n);
      assert init[..n] == joint[..n];
    }
  }

  // One more permitted save.
  lemma Extended(e: Agreed, joint: seq<Side>, x: Side)
    requires Permitted(e, joint) && Allowed(e, Sys(e, joint), SessionAt(joint, x.p), x)
    ensures var next := joint + [x];
            && next[..|joint|] == joint && Permitted(e, next)
            && SessionAt(next, x.p) == Some(Apply(x.a, SessionAt(joint, x.p)).value.1)
            && SessionAt(next, 1 - x.p) == SessionAt(joint, 1 - x.p)
  {
    var next := joint + [x];
    assert next[..|joint|] == joint && next[|joint|] == x;
    SideAppend(next, x.p);
    SideAppend(next, 1 - x.p);
  }

  lemma SysStep(e: Agreed, joint: seq<Side>, n: nat)
    requires Permitted(e, joint) && n < |joint|
    ensures Enabled(Sys(e, joint[..n]), ActionOf(joint[n]))
    ensures Sys(e, joint[..n + 1]) == Step(Sys(e, joint[..n]), ActionOf(joint[n]))
  {
    PermittedPrefix(e, joint, n);
    assert joint[..n + 1][..n] == joint[..n];
  }

  ghost function Trace(e: Agreed, joint: seq<Side>): seq<System> {
    seq(|joint| + 1, i requires 0 <= i <= |joint| => Sys(e, joint[..i]))
  }

  function Actions(joint: seq<Side>): seq<Action> {
    seq(|joint|, i requires 0 <= i < |joint| => ActionOf(joint[i]))
  }

  lemma SysRun(e: Agreed, joint: seq<Side>)
    requires Permitted(e, joint)
    ensures Run(Trace(e, joint), Actions(joint))
    ensures forall n | 0 <= n <= |joint| :: Trace(e, joint)[n] == Sys(e, joint[..n]) && Inv(Sys(e, joint[..n]))
  {
    hide Step, Enabled, Inv;
    var trace, actions := Trace(e, joint), Actions(joint);
    PermittedPrefix(e, joint, 0);
    assert joint[..0] == [];
    assert Initial(trace[0], e.sk, e.spk, e.first);
    forall i | 0 <= i < |actions|
      ensures Enabled(trace[i], actions[i]) && trace[i + 1] == Step(trace[i], actions[i])
    {
      SysStep(e, joint, i);
    }
    forall n | 0 <= n <= |joint|
      ensures Inv(Sys(e, joint[..n]))
    {
      RunInv(trace, actions, n);
    }
  }

  // ---------------------------------------------------------------------------------------------
  // Saves, messages and accepted positions.

  // The encryptions among the saves, as positions.
  function SentAt(joint: seq<Side>): (ns: seq<nat>)
    ensures forall i | 0 <= i < |ns| :: ns[i] < |joint| && joint[ns[i]].a.Enc?
  {
    if joint == [] then []
    else
      var n := |joint| - 1;
      var before := SentAt(joint[..n]);
      assert forall i | 0 <= i < |before| :: joint[..n][before[i]] == joint[before[i]];
      if joint[n].a.Enc? then before + [n] else before
  }

  // What a save gave back.
  function OutputAt(joint: seq<Side>, n: nat): Option<Output>
    requires n < |joint|
  {
    match Apply(joint[n].a, SessionAt(joint[..n], joint[n].p))
    case None => None
    case Some((out, _)) => Some(out)
  }

  // Log entry `x` is the message of the save at position `n`.
  predicate SentBy(joint: seq<Side>, x: Entry, n: nat) {
    && n < |joint| && joint[n].a.Enc? && joint[n].a.plain == x.plain && joint[n].p < 2 && x.chain % 2 == joint[n].p
    && OutputAt(joint, n).Some? && OutputAt(joint, n).value.Cipher? && OutputAt(joint, n).value.wire == x.wire
  }

  lemma SentByFrame(joint: seq<Side>, x: Entry, n: nat)
    requires joint != [] && SentBy(joint[..|joint| - 1], x, n)
    ensures SentBy(joint, x, n)
  {
    assert joint[..|joint| - 1][..n] == joint[..n];
  }

  lemma SendEntry(s: System, p: nat, plain: Bytes)
    requires Inv(s) && Enabled(s, Send(p, plain, [])) && EncryptOn(s.st[p], plain, []).Ok?
    ensures var t, l := Step(s, Send(p, plain, [])), |s.log|;
            && |t.log| == l + 1 && t.log[..l] == s.log
            && t.log[l].plain == plain && t.log[l].wire == EncryptOn(s.st[p], plain, []).value.0 && t.log[l].chain % 2 == p
  {
    assert PartyInv(s.h, s.st[p], s.acc[p], s.h.SendChain(p));
  }

  lemma NewEntry(e: Agreed, joint: seq<Side>)
    requires joint != [] && Permitted(e, joint) && joint[|joint| - 1].a.Enc?
    ensures var s, t := Sys(e, joint[..|joint| - 1]), Sys(e, joint);
            |t.log| == |s.log| + 1 && t.log[..|s.log|] == s.log && SentBy(joint, t.log[|s.log|], |joint| - 1)
  {
    var init, x := joint[..|joint| - 1], joint[|joint| - 1];
    var s := Sys(e, init);
    SysHolds(e, init, x.p);
    SysRun(e, init);
    assert init[..|init|] == init;
    assert Inv(s) && Allowed(e, s, SessionAt(init, x.p), x) && Sys(e, joint) == Step(s, ActionOf(x));
    hide Inv, Enabled, Step, Sys, Permitted, SessionAt;
    OneSave(e, s, SessionAt(init, x.p), x);
    SendEntry(s, x.p, x.a.plain);
  }

  lemma DeliveryKeepsLog(e: Agreed, joint: seq<Side>)
    requires joint != [] && Permitted(e, joint) && !joint[|joint| - 1].a.Enc?
    ensures Sys(e, joint).log == Sys(e, joint[..|joint| - 1]).log
  {
  }

  predicate LogMatches(joint: seq<Side>, log: seq<Entry>) {
    |log| == |SentAt(joint)| && forall i | 0 <= i < |log| :: SentBy(joint, log[i], SentAt(joint)[i])
  }

  lemma MatchesAppend(joint: seq<Side>, log: seq<Entry>, log': seq<Entry>)
    requires joint != [] && LogMatches(joint[..|joint| - 1], log)
    requires if joint[|joint| - 1].a.Enc?
             then |log'| == |log| + 1 && log'[..|log|] == log && SentBy(joint, log'[|log|], |joint| - 1)
             else log' == log
    ensures LogMatches(joint, log')
  {
    hide SentBy;
    forall i | 0 <= i < |log'|
      ensures SentBy(joint, log'[i], SentAt(joint)[i])
    {
      if i < |log| {
        assert log'[i] == log[i];
        SentByFrame(joint, log[i], SentAt(joint[..|joint| - 1])[i]);
      }
    }
  }

  // The log of the system is the encryptions among the saves.
  lemma {:induction false} LogIsSent(e: Agreed, joint: seq<Side>)
    requires Permitted(e, joint)
    ensures LogMatches(joint, Sys(e, joint).log)
    decreases |joint|
  {
    if joint != [] {
      LogIsSent(e, joint[..|joint| - 1]);
      hide SentBy, Sys, LogMatches;
      if joint[|joint| - 1].a.Enc? {
        NewEntry(e, joint);
      } else {
        DeliveryKeepsLog(e, joint);
      }
      MatchesAppend(joint, Sys(e, joint[..|joint| - 1]).log, Sys(e, joint).log);
    }
  }

  // Every encryption among the saves is in the log.
  lemma {:induction false} SentIsLogged(e: Agreed, joint: seq<Side>, n: nat) returns (i: nat)
    requires Permitted(e, joint) && n < |joint| && joint[n].a.Enc?
    ensures i < |Sys(e, joint).log| && SentBy(joint, Sys(e, joint).log[i], n)
    decreases |joint|
  {
    var init := joint[..|joint| - 1];
    hide SentBy, Sys;
    if n == |joint| - 1 {
      NewEntry(e, joint);
      i := |Sys(e, init).log|;
    } else {
      i := SentIsLogged(e, init, n);
      SentByFrame(joint, Sys(e, init).log[i], n);
      if joint[|joint| - 1].a.Enc? {
        NewEntry(e, joint);
        assert Sys(e, joint).log[i] == Sys(e, joint).log[..|Sys(e, init).log|][i];
      } else {
        DeliveryKeepsLog(e, joint);
      }
    }
  }

  // A decryption among the saves, and the slot it opened.
  predicate Opening(joint: seq<Side>, p: nat, n: nat, header: Header) {
    && n < |joint| && joint[n].p == p && !joint[n].a.Enc?
    && SkipKey(joint[n].a.wire.header.dh, joint[n].a.wire.header.n) == SkipKey(header.dh, header.n)
  }

  // What a party has accepted is what its saved decryptions opened.
  lemma {:induction false} AcceptedIsOpened(e: Agreed, joint: seq<Side>, p: nat, header: Header)
    requires Permitted(e, joint) && p < 2
    ensures |Sys(e, joint).acc| == 2
    ensures Accepted(Sys(e, joint), p, header) <==> exists n :: Opening(joint, p, n, header)
    decreases |joint|
  {
    if joint != [] {
      var init, x := joint[..|joint| - 1], joint[|joint| - 1];
      AcceptedIsOpened(e, init, p, header);
      SysHolds(e, init, x.p);
      OneSave(e, Sys(e, init), SessionAt(init, x.p), x);
      OneAccepts(Sys(e, init), x, p, header);
      assert Sys(e, joint) == Step(Sys(e, init), ActionOf(x));
      hide Sys, Permitted, Allowed, Step, Enabled, Apply, Opening;
      OpeningAppend(joint, p, header);
    }
  }

  lemma OpeningAppend(joint: seq<Side>, p: nat, header: Header)
    requires joint != []
    ensures var init, x := joint[..|joint| - 1], joint[|joint| - 1];
            (exists n :: Opening(joint, p, n, header))
            <==> || (exists n :: Opening(init, p, n, header))
                 || (x.p == p && !x.a.Enc? && SkipKey(x.a.wire.header.dh, x.a.wire.header.n) == SkipKey(header.dh, header.n))
  {
    var init, x := joint[..|joint| - 1], joint[|joint| - 1];
    if n :| Opening(init, p, n, header) {
      assert Opening(joint, p, n, header);
    } else if x.p == p && !x.a.Enc? && SkipKey(x.a.wire.header.dh, x.a.wire.header.n) == SkipKey(header.dh, header.n) {
      assert Opening(joint, p, |joint| - 1, header);
    } else {
      forall n
        ensures !Opening(joint, p, n, header)
      {
        assert !Opening(init, p, n, header);
      }
    }
  }

  lemma OneAccepts(s: System, x: Side, p: nat, header: Header)
    requires |s.acc| == 2 && p < 2 && x.p < 2 && Enabled(s, ActionOf(x))
    requires !x.a.Enc? ==> DecryptOn(s.st[x.p], x.a.wire, x.a.gen).Ok?
    ensures |Step(s, ActionOf(x)).acc| == 2
    ensures Accepted(Step(s, ActionOf(x)), p, header)
            <==> || Accepted(s, p, header)
                 || (x.p == p && !x.a.Enc? && SkipKey(x.a.wire.header.dh, x.a.wire.header.n) == SkipKey(header.dh, header.n))
  {
  }

  // ---------------------------------------------------------------------------------------------
  // The clients.

  ghost predicate Reachable(c: SessionRuns.Client) {
    exists trace, events, n :: SessionRuns.Run(trace, events) && 0 <= n < |trace| && trace[n] == c
  }

  // `joint` orders the saves of the two clients on conversation `key`.
  ghost predicate Joined(e: Agreed, joint: seq<Side>, cs: seq<SessionRuns.Client>, key: string) {
    && |cs| == 2 && Reachable(cs[0]) && Reachable(cs[1]) && Permitted(e, joint)
    && SideOn(joint, 0) == On(cs[0].log, key) && SideOn(joint, 1) == On(cs[1].log, key)
  }

  lemma ReachableFacts(c: SessionRuns.Client)
    requires Reachable(c)
    ensures SessionRuns.Inv(c) && SessionRuns.InOrder(c.log, c.retried)
    ensures forall i: nat | i < |c.phases| :: SessionRuns.SettledAt(c, i)
    ensures forall x: nat | x < |c.log| :: SessionRuns.SavedAt(c, x)
  {
    var trace, events, n :| SessionRuns.Run(trace, events) && 0 <= n < |trace| && trace[n] == c;
    SessionRuns.RunInv(trace, events, n);
    SessionRuns.StoreIsSequential(trace, events, n);
  }

  lemma StoredIsReplayed(c: SessionRuns.Client, key: string)
    requires Reachable(c)
    ensures SessionRuns.Shape(c) && SessionRuns.Stored(c, key) == SessionOf(c.log, key)
  {
    hide Reachable, SessionRuns.SettledAt, SessionRuns.SavedAt, SessionRuns.InOrder;
    ReachableFacts(c);
  }

  // The stored sessions of the two clients are the two states of a run of the two-party system.
  lemma ClientsAreParties(e: Agreed, joint: seq<Side>, cs: seq<SessionRuns.Client>, key: string, p: nat)
    requires Joined(e, joint, cs, key) && p < 2
    ensures Run(Trace(e, joint), Actions(joint)) && Trace(e, joint)[|joint|] == Sys(e, joint)
    ensures SessionRuns.Shape(cs[p]) && Holds(e, Sys(e, joint), SessionRuns.Stored(cs[p], key), p)
  {
    StoredIsReplayed(cs[p], key);
    hide Inv, Run, Sys, Permitted, Actions, Holds, Reachable, SessionRuns.Shape, SessionRuns.Stored;
    SysRun(e, joint);
    assert joint[..|joint|] == joint;
    SysHolds(e, joint, p);
  }

  // Where a save of a client is in the joint order.
  lemma {:induction false} InJoint(joint: seq<Side>, p: nat, i: nat) returns (n: nat)
    requires i < |SideOn(joint, p)|
    ensures n < |joint| && joint[n].p == p && joint[n].a == SideOn(joint, p)[i]
    ensures SideOn(joint[..n], p) == SideOn(joint, p)[..i]
    decreases |joint|
  {
    var init := joint[..|joint| - 1];
    var x := joint[|joint| - 1];
    if i < |SideOn(init, p)| {
      n := InJoint(init, p, i);
      assert init[..n] == joint[..n];
    } else {
      n := |joint| - 1;
    }
  }

  lemma {:induction false} OnPosition(log: seq<Saved>, key: string, at: nat) returns (i: nat)
    requires at < |log| && log[at].key == key
    ensures i == |On(log[..at], key)| < |On(log, key)|
    ensures On(log, key)[i] == log[at].a && On(log, key)[..i] == On(log[..at], key)
    decreases |log|
  {
    i := |On(log[..at], key)|;
    var init := log[..|log| - 1];
    if at == |log| - 1 {
      assert init == log[..at];
    } else {
      var _ := OnPosition(init, key, at);
      assert init[..at] == log[..at];
    }
  }

  // And back.
  lemma {:induction false} InLog(log: seq<Saved>, key: string, i: nat) returns (at: nat)
    requires i < |On(log, key)|
    ensures at < |log| && log[at].key == key && log[at].a == On(log, key)[i] && On(log[..at], key) == On(log, key)[..i]
    decreases |log|
  {
    var init := log[..|log| - 1];
    if i < |On(init, key)| {
      at := InLog(init, key, i);
      assert init[..at] == log[..at];
    } else {
      at := |log| - 1;
    }
  }

  lemma {:induction false} SidePrefix(joint: seq<Side>, p: nat, n: nat)
    requires n < |joint| && joint[n].p == p
    ensures var i := |SideOn(joint[..n], p)|;
            i < |SideOn(joint, p)| && SideOn(joint, p)[i] == joint[n].a && SideOn(joint, p)[..i] == SideOn(joint[..n], p)
    decreases |joint|
  {
    var init := joint[..|joint| - 1];
    if n == |joint| - 1 {
      assert init == joint[..n];
    } else {
      SidePrefix(init, p, n);
      assert init[..n] == joint[..n];
    }
  }

  // A save of a client in the joint order, with the same outcome.
  lemma SaveInJoint(e: Agreed, joint: seq<Side>, cs: seq<SessionRuns.Client>, key: string, p: nat, at: nat) returns (n: nat)
    requires Joined(e, joint, cs, key) && p < 2 && at < |cs[p].log| && cs[p].log[at].key == key
    ensures n < |joint| && joint[n] == Side(p, cs[p].log[at].a) && OutputAt(joint, n) == OutputOf(cs[p].log, at)
    ensures |SideOn(joint[..n], p)| == |On(cs[p].log[..at], key)|
  {
    var i := OnPosition(cs[p].log, key, at);
    n := InJoint(joint, p, i);
  }

  lemma JointInSave(e: Agreed, joint: seq<Side>, cs: seq<SessionRuns.Client>, key: string, n: nat) returns (at: nat)
    requires Joined(e, joint, cs, key) && n < |joint| && joint[n].p < 2
    ensures at < |cs[joint[n].p].log| && cs[joint[n].p].log[at].key == key && cs[joint[n].p].log[at].a == joint[n].a
    ensures OutputOf(cs[joint[n].p].log, at) == OutputAt(joint, n)
  {
    var p := joint[n].p;
    SidePrefix(joint, p, n);
    at := InLog(cs[p].log, key, |SideOn(joint[..n], p)|);
  }

  // A call that returned, and where.
  predicate Returned(c: SessionRuns.Client, i: nat, key: string, out: Output) {
    SessionRuns.Shape(c) && i < |c.phases| && SessionRuns.KeyOf(c, i) == key && c.phases[i].Returned? && c.phases[i].out == out
  }

  lemma ReturnedInJoint(e: Agreed, joint: seq<Side>, cs: seq<SessionRuns.Client>, key: string, p: nat, i: nat, out: Output)
    returns (n: nat)
    requires Joined(e, joint, cs, key) && p < 2 && Returned(cs[p], i, key, out)
    ensures n < |joint| && joint[n].p == p && OutputAt(joint, n) == Some(out)
    ensures i < |cs[p].ops| && AttemptOf(cs[p].ops[i], joint[n].a)
    ensures cs[p].phases[i].at < |cs[p].log| && |SideOn(joint[..n], p)| == |On(cs[p].log[..cs[p].phases[i].at], key)|
    ensures cs[p].log[cs[p].phases[i].at].task == i && cs[p].log[cs[p].phases[i].at].key == key
  {
    var c := cs[p];
    ReachableFacts(c);
    assert SessionRuns.SettledAt(c, i);
    var at := c.phases[i].at;
    assert SessionRuns.SavedAt(c, at);
    n := SaveInJoint(e, joint, cs, key, p, at);
  }

  // The message an opening opened.
  lemma OpeningEntry(e: Agreed, joint: seq<Side>, n: nat) returns (i: nat)
    requires Permitted(e, joint) && n < |joint| && !joint[n].a.Enc?
    ensures joint[n].p < 2 && Permitted(e, joint[..n])
    ensures var s := Sys(e, joint[..n]);
            && i < |s.log| && s.log[i].wire == joint[n].a.wire && s.log[i].chain % 2 == 1 - joint[n].p
            && OutputAt(joint, n) == Some(Plain(s.log[i].plain))
            && joint[n].p < |s.acc| && !Accepted(s, joint[n].p, joint[n].a.wire.header)
  {
    var init, x := joint[..n], joint[n];
    var s := Sys(e, init);
    PermittedPrefix(e, joint, n);
    SysHolds(e, init, x.p);
    SysRun(e, init);
    assert init[..n] == init && Inv(s);
    hide Inv, Sys, Permitted, SessionAt, Step, Enabled;
    OneSave(e, s, SessionAt(init, x.p), x);
    i := DeliveredEntry(s, x.p, x.a.wire, x.a.gen);
  }

  lemma SentByPrefix(joint: seq<Side>, n: nat, x: Entry, m: nat)
    requires n <= |joint| && SentBy(joint[..n], x, m)
    ensures SentBy(joint, x, m)
  {
    assert joint[..n][..m] == joint[..m];
  }

  // The plaintext an opening returned was sent by the peer.
  lemma OpeningIsAuthentic(e: Agreed, joint: seq<Side>, n: nat) returns (m: nat)
    requires Permitted(e, joint) && n < |joint| && !joint[n].a.Enc?
    ensures m < n && joint[m].a.Enc? && joint[n].p < 2 && joint[m].p == 1 - joint[n].p
    ensures OutputAt(joint, n) == Some(Plain(joint[m].a.plain))
    ensures OutputAt(joint, m).Some? && OutputAt(joint, m).value.Cipher? && OutputAt(joint, m).value.wire == joint[n].a.wire
  {
    hide OutputAt, Sys, Permitted;
    var i := OpeningEntry(e, joint, n);
    var x := Sys(e, joint[..n]).log[i];
    LogIsSent(e, joint[..n]);
    m := SentAt(joint[..n])[i];
    assert SentBy(joint[..n], x, m);
    SentByPrefix(joint, n, x, m);
  }

  lemma DeliveredEntry(s: System, p: nat, w: Wire, gen: nat) returns (i: nat)
    requires Inv(s) && Enabled(s, Deliver(p, w, gen)) && DecryptOn(s.st[p], w, gen).Ok?
    ensures i < |s.log| && s.log[i].wire == w && s.log[i].chain % 2 != p
    ensures DecryptOn(s.st[p], w, gen).value.0 == s.log[i].plain && !Accepted(s, p, w.header)
  {
    i := DeliverOk(s, p, w, gen);
    assert Opened(s, p, w, gen, i);
  }

  // Save `x` of a client is that of a call of `drEncrypt` for `bytes`, and gave ciphertext `w`.
  predicate SavedCipher(c: SessionRuns.Client, key: string, x: nat, bytes: Bytes, w: Wire) {
    && x < |c.log| && c.log[x].key == key && c.log[x].task < |c.ops|
    && c.ops[c.log[x].task].Encrypt? && c.ops[c.log[x].task].plain == bytes
    && OutputOf(c.log, x).Some? && OutputOf(c.log, x).value.Cipher? && OutputOf(c.log, x).value.wire == w
  }

  // Authenticity for the calls, while no session is started anew.  What a call of `drDecrypt` returned
  // is the plaintext of a call of the peer's `drEncrypt` whose save reached its store, and its frame
  // carried that call's ciphertext.
  lemma ReturnedIsAuthentic(e: Agreed, joint: seq<Side>, cs: seq<SessionRuns.Client>, key: string, p: nat, i: nat,
                            bytes: Bytes)
    returns (x: nat)
    requires Joined(e, joint, cs, key) && p < 2 && Returned(cs[p], i, key, Plain(bytes))
    ensures i < |cs[p].ops| && cs[p].ops[i].Decrypt?
    ensures SavedCipher(cs[1 - p], key, x, bytes, cs[p].ops[i].wire)
  {
    hide Joined, OutputAt, SavedCipher, Returned;
    var n := ReturnedOpening(e, joint, cs, key, p, i, bytes);
    x := OpeningSaved(e, joint, cs, key, n, bytes);
  }

  lemma OpeningSaved(e: Agreed, joint: seq<Side>, cs: seq<SessionRuns.Client>, key: string, n: nat, bytes: Bytes)
    returns (x: nat)
    requires Joined(e, joint, cs, key) && n < |joint| && joint[n].p < 2 && !joint[n].a.Enc?
    requires OutputAt(joint, n) == Some(Plain(bytes))
    ensures SavedCipher(cs[1 - joint[n].p], key, x, bytes, joint[n].a.wire)
  {
    assert Permitted(e, joint);
    hide Joined, Permitted, OutputAt, SavedCipher;
    var m := OpeningIsAuthentic(e, joint, n);
    x := SendingSaved(e, joint, cs, key, m);
  }

  lemma SendingSaved(e: Agreed, joint: seq<Side>, cs: seq<SessionRuns.Client>, key: string, m: nat) returns (x: nat)
    requires Joined(e, joint, cs, key) && m < |joint| && joint[m].p < 2 && joint[m].a.Enc?
    requires OutputAt(joint, m).Some? && OutputAt(joint, m).value.Cipher?
    ensures SavedCipher(cs[joint[m].p], key, x, joint[m].a.plain, OutputAt(joint, m).value.wire)
  {
    assert Reachable(cs[joint[m].p]);
    hide Joined, Permitted, Reachable, OutputAt, OutputOf, SideOn, On;
    x := JointInSave(e, joint, cs, key, m);
    SavedAttempt(cs[joint[m].p], x);
  }

  // A call that returned a plaintext is an opening of its frame among the saves.
  lemma ReturnedOpening(e: Agreed, joint: seq<Side>, cs: seq<SessionRuns.Client>, key: string, p: nat, i: nat, bytes: Bytes)
    returns (n: nat)
    requires Joined(e, joint, cs, key) && p < 2 && Returned(cs[p], i, key, Plain(bytes))
    ensures n < |joint| && joint[n].p == p && !joint[n].a.Enc? && OutputAt(joint, n) == Some(Plain(bytes))
    ensures i < |cs[p].ops| && cs[p].ops[i].Decrypt? && cs[p].ops[i].wire == joint[n].a.wire
  {
    hide Joined, OutputAt, SideOn, On;
    n := ReturnedInJoint(e, joint, cs, key, p, i, Plain(bytes));
    if joint[n].a.Enc? {
      EncGivesCipher(joint, n);
    }
  }

  // A call that returned a ciphertext is an encryption of its plaintext among them.
  lemma ReturnedSending(e: Agreed, joint: seq<Side>, cs: seq<SessionRuns.Client>, key: string, p: nat, i: nat, out: Output)
    returns (n: nat)
    requires Joined(e, joint, cs, key) && p < 2 && Returned(cs[p], i, key, out) && out.Cipher?
    ensures n < |joint| && joint[n].p == p && joint[n].a.Enc? && OutputAt(joint, n) == Some(out)
    ensures i < |cs[p].ops| && cs[p].ops[i].Encrypt? && cs[p].ops[i].plain == joint[n].a.plain
  {
    assert Permitted(e, joint);
    hide Joined, OutputAt, SideOn, On, Permitted;
    n := ReturnedInJoint(e, joint, cs, key, p, i, out);
    if !joint[n].a.Enc? {
      var _ := OpeningIsAuthentic(e, joint, n);
    }
  }

  lemma SavedAttempt(c: SessionRuns.Client, x: nat)
    requires Reachable(c) && x < |c.log|
    ensures c.log[x].task < |c.ops| && AttemptOf(c.ops[c.log[x].task], c.log[x].a)
  {
    ReachableFacts(c);
    assert SessionRuns.SavedAt(c, x);
  }

  lemma EncGivesCipher(joint: seq<Side>, n: nat)
    requires n < |joint| && joint[n].a.Enc? && OutputAt(joint, n).Some?
    ensures OutputAt(joint, n).value.Cipher?
  {
  }

  // Two openings of one frame do not happen.
  lemma OpenedOnce(e: Agreed, joint: seq<Side>, n: nat, k: nat)
    requires Permitted(e, joint) && n < k < |joint| && !joint[n].a.Enc? && !joint[k].a.Enc? && joint[n].p == joint[k].p
    ensures joint[n].a.wire != joint[k].a.wire
  {
    hide OutputAt, Sys, Permitted;
    var _ := OpeningEntry(e, joint, k);
    AcceptedIsOpened(e, joint[..k], joint[k].p, joint[k].a.wire.header);
    assert Opening(joint[..k], joint[k].p, n, joint[n].a.wire.header);
  }

  // Exactly once for the calls, while no session is started anew.  No two calls of `drDecrypt` of one
  // client return for the same frame.
  lemma ReturnedOnce(e: Agreed, joint: seq<Side>, cs: seq<SessionRuns.Client>, key: string, p: nat, i: nat, j: nat,
                     a: Bytes, b: Bytes)
    requires Joined(e, joint, cs, key) && p < 2 && i != j
    requires Returned(cs[p], i, key, Plain(a)) && Returned(cs[p], j, key, Plain(b))
    ensures i < |cs[p].ops| && j < |cs[p].ops| && cs[p].ops[i].Decrypt? && cs[p].ops[j].Decrypt?
    ensures cs[p].ops[i].wire != cs[p].ops[j].wire
  {
    var n := ReturnedInJoint(e, joint, cs, key, p, i, Plain(a));
    var k := ReturnedInJoint(e, joint, cs, key, p, j, Plain(b));
    if joint[n].a.Enc? {
      EncGivesCipher(joint, n);
    }
    if joint[k].a.Enc? {
      EncGivesCipher(joint, k);
    }
    var x, y := cs[p].phases[i].at, cs[p].phases[j].at;
    assert x != y;
    if n == k {
      SamePosition(cs[p].log, key, x, y);
    }
    if n < k {
      OpenedOnce(e, joint, n, k);
    } else if k < n {
      OpenedOnce(e, joint, k, n);
    }
  }

  lemma {:induction false} OnGrows(log: seq<Saved>, key: string, x: nat, y: nat)
    requires x < y <= |log| && log[x].key == key
    ensures |On(log[..x], key)| < |On(log[..y], key)|
    decreases y
  {
    assert log[..y][..y - 1] == log[..y - 1];
    if x < y - 1 {
      OnGrows(log, key, x, y - 1);
    }
  }

  lemma SamePosition(log: seq<Saved>, key: string, x: nat, y: nat)
    requires x < |log| && y < |log| && log[x].key == key == log[y].key
    requires |On(log[..x], key)| == |On(log[..y], key)|
    ensures x == y
  {
    if x < y {
      OnGrows(log, key, x, y);
    } else if y < x {
      OnGrows(log, key, y, x);
    }
  }

  // The shared secret and the first two keys of a run are the agreed ones.
  lemma {:induction false} SysKeys(e: Agreed, joint: seq<Side>)
    requires Permitted(e, joint)
    ensures var h := Sys(e, joint).h;
            h.Valid() && h.sk == e.sk && h.keys[0] == e.spk && h.keys[1] == e.first
    decreases |joint|
  {
    SysRun(e, joint);
    assert joint[..|joint|] == joint && Inv(Sys(e, joint));
    if joint != [] {
      SysKeys(e, joint[..|joint| - 1]);
      KeysStay(Sys(e, joint[..|joint| - 1]), ActionOf(joint[|joint| - 1]));
    }
  }

  lemma KeysStay(s: System, a: Action)
    requires Enabled(s, a)
    ensures Step(s, a).h.sk == s.h.sk && s.h.keys <= Step(s, a).h.keys
  {
  }

  // The INIT part a frame carries starts a session that reads the message the frame carries.
  predicate Reopens(e: Agreed, op: Op) {
    op.Decrypt? && op.init == Some(e.sk) && op.wire.header.dh == e.first && op.wire.header.n <= MAX_SKIP
  }

  // A session started from INIT key `k` reads a message of the conversation if and only if `k` is the
  // agreed key and the message is on the first chain and within MAX_SKIP.
  lemma InitOpens(e: Agreed, joint: seq<Side>, i: nat, k: Key, spk: nat, gen: nat)
    requires Permitted(e, joint) && i < |Sys(e, joint).log| && k.Seed? && (k == e.sk ==> spk == e.spk)
    ensures var x := Sys(e, joint).log[i];
            var r := DecryptOn(AfterInitReceiver(k, spk), x.wire, gen);
            && (r.Ok? <==> k == e.sk && x.wire.header.dh == e.first && x.wire.header.n <= MAX_SKIP)
            && (r.Ok? ==> r.value.0 == x.plain)
  {
    var s := Sys(e, joint);
    SysRun(e, joint);
    assert joint[..|joint|] == joint && Inv(s);
    SysKeys(e, joint);
    hide Sys, Permitted, Trace, Actions;
    assert EntryInv(s.h, s.log[i]);
    MessageKeyOrigin(s.h.sk, s.h.keys, s.log[i].chain, s.log[i].n);
    if k == e.sk {
      Rebuilding.RestartOpens(s, i, gen);
    } else {
      OneSession.SoundStart(k, spk, gen);
      OneSession.SoundDecrypt(AfterInitReceiver(k, spk), s.log[i].wire, gen);
    }
  }

  // One call for a message of the peer, in any frame, on whatever session is stored.
  ghost predicate CallDelivers(e: Agreed, joint: seq<Side>, p: nat, session: Session, op: Op, plain: Bytes)
    requires op.Decrypt?
  {
    var (r, next) := Alone(op, session);
    var opens := session.Some? && !(exists n :: Opening(joint, p, n, op.wire.header)) && WithinSkip(session.value, op.wire.header);
    if opens then
      && r == Returns(Plain(plain)) && next.Some?
      && Apply(Dec(op.wire, op.gen), session) == Some((Plain(plain), next.value))
    else if Reopens(e, op) then
      && r == Returns(Plain(plain)) && next.Some?
      && Apply(InitDec(e.sk, op.spk, op.wire, op.gen2), session) == Some((Plain(plain), next.value))
    else
      r == (if session.None? && op.init.None? then ReturnsNull else Throws) && next == session
  }

  lemma EntryCall(e: Agreed, joint: seq<Side>, p: nat, i: nat, session: Session, op: Op)
    requires Permitted(e, joint) && p < 2 && i < |Sys(e, joint).log| && Sys(e, joint).log[i].chain % 2 != p
    requires op.Decrypt? && op.wire == Sys(e, joint).log[i].wire && op.gen !in Sys(e, joint).h.keys
    requires op.init.Some? ==> op.init.value.Seed? && (op.init.value == e.sk ==> op.spk == e.spk)
    requires Holds(e, Sys(e, joint), session, p)
    ensures CallDelivers(e, joint, p, session, op, Sys(e, joint).log[i].plain)
  {
    hide Sys, Permitted, Opening, WithinSkip, DecryptOn;
    EntryDelivers(e, joint, p, i, op.gen);
    if op.init.Some? {
      InitOpens(e, joint, i, op.init.value, op.spk, op.gen2);
    }
    FirstOfDecrypt(op.init, op.wire, op.spk, op.gen, op.gen2, session);
  }

  // Delivery for the calls.  A ciphertext the peer's `drEncrypt` returned, in a frame with or without an
  // INIT part, makes `drDecrypt` return the plaintext given to that call if and only if
  // - the client has a session, no decryption saved before had opened its position, and its gap is
  //   within the limit; then that session decrypts; or
  // - the frame carries the agreed INIT part, and the message is on the first chain and within MAX_SKIP,
  //   opened before or not; then the session is started anew.
  // Otherwise it throws, or without session and INIT part returns null, and the stored session stays.
  lemma FrameDelivers(e: Agreed, joint: seq<Side>, cs: seq<SessionRuns.Client>, key: string, p: nat, j: nat,
                      init: Option<Bytes>, w: Wire, op: Op)
    requires Joined(e, joint, cs, key) && p < 2 && Returned(cs[1 - p], j, key, Cipher(init, w))
    requires SessionRuns.Shape(cs[p]) && op.Decrypt? && op.wire == w && op.gen !in Sys(e, joint).h.keys
    requires op.init.Some? ==> op.init.value.Seed? && (op.init.value == e.sk ==> op.spk == e.spk)
    ensures j < |cs[1 - p].ops| && cs[1 - p].ops[j].Encrypt?
    ensures CallDelivers(e, joint, p, SessionRuns.Stored(cs[p], key), op, cs[1 - p].ops[j].plain)
  {
    ClientsAreParties(e, joint, cs, key, p);
    assert Permitted(e, joint);
    hide Joined, Permitted, Reachable, Returned, Sys, OutputAt, CallDelivers;
    var m := ReturnedSending(e, joint, cs, key, 1 - p, j, Cipher(init, w));
    var i := SentIsLogged(e, joint, m);
    EntryCall(e, joint, p, i, SessionRuns.Stored(cs[p], key), op);
  }

  lemma EntryDelivers(e: Agreed, joint: seq<Side>, p: nat, i: nat, gen: nat)
    requires Permitted(e, joint) && p < 2 && i < |Sys(e, joint).log| && Sys(e, joint).log[i].chain % 2 != p
    requires gen !in Sys(e, joint).h.keys
    ensures |Sys(e, joint).st| == 2 && Sys(e, joint).st[p].Valid()
    ensures var s := Sys(e, joint);
            var x := s.log[i];
            var r := DecryptOn(s.st[p], x.wire, gen);
            && (r.Ok? <==> !(exists n :: Opening(joint, p, n, x.wire.header)) && WithinSkip(s.st[p], x.wire.header))
            && (r.Ok? ==> r.value.0 == x.plain)
  {
    AcceptedIsOpened(e, joint, p, Sys(e, joint).log[i].wire.header);
    SysRun(e, joint);
    assert joint[..|joint|] == joint && Trace(e, joint)[|joint|] == Sys(e, joint);
    hide Sys, Permitted, Trace, Actions, Opening;
    DeliveryExact(Trace(e, joint), Actions(joint), |joint|, p, i, gen);
    assert PartyInv(Sys(e, joint).h, Sys(e, joint).st[p], Sys(e, joint).acc[p], Sys(e, joint).h.SendChain(p));
  }
}
