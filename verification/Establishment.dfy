/**
  From a published key bundle to two matching ratchet sessions, with one initiator.

  The ratchet files name keys by numbers and boxes by terms; here they are tied to the bytes of the
  bundle, of the key agreement and of the frames.
 */
module Establishment {
  import opened Symbolic
  import opened DoubleRatchet
  import opened Worker
  import opened Sessions
  import opened EndToEnd
  import TwoParty
  import TwoPartyInvariant
  import Delivery
  import Frames
  import X3dh

  // ---------------------------------------------------------------------------------------------
  // The initiator may send any number of messages before the first is handled.

  predicate AllSends(joint: seq<Side>) {
    forall i | 0 <= i < |joint| :: joint[i].p == 0 && joint[i].a.Enc?
  }

  // The system after sends only.
  lemma {:induction false} AfterSends(e: Agreed, joint: seq<Side>)
    requires Permitted(e, joint) && AllSends(joint)
    ensures var s := Sys(e, joint);
            && |joint| <= U32_MAX && s.h == TwoParty.History(e.sk, [e.spk, e.first], [|joint|])
            && |s.st| == 2 && s.st[1] == AfterInitReceiver(e.sk, e.spk) && s.acc == [{}, {}]
            && s.st[0].ns == |joint| && |s.log| == |joint|
            && (forall i | 0 <= i < |joint| :: s.log[i].chain == 0 && s.log[i].n == i)
    decreases |joint|
  {
    if joint != [] {
      var init, x := joint[..|joint| - 1], joint[|joint| - 1];
      AfterSends(e, init);
      SysHolds(e, init, 0);
      OneSave(e, Sys(e, init), SessionAt(init, 0), x);
      SendsStep(Sys(e, init), x.a.plain);
    }
  }

  lemma SendsStep(s: TwoParty.System, plain: Bytes)
    requires TwoParty.Enabled(s, TwoParty.Send(0, plain, [])) && EncryptOn(s.st[0], plain, []).Ok?
    requires |s.h.sent| == 1 && s.h.sent[0] == s.st[0].ns
    ensures var t := TwoParty.Step(s, TwoParty.Send(0, plain, []));
            && t.h == s.h.(sent := [s.st[0].ns + 1]) && t.acc == s.acc
            && t.st[0].ns == s.st[0].ns + 1 && t.st[1] == s.st[1]
            && |t.log| == |s.log| + 1 && t.log[..|s.log|] == s.log
            && t.log[|s.log|].chain == 0 && t.log[|s.log|].n == s.st[0].ns
  {
  }

  // After the initiator's sends, what it saves next is a send.
  lemma NextIsSend(e: Agreed, joint: seq<Side>, n: nat)
    requires Permitted(e, joint) && n < |joint| && AllSends(joint[..n]) && joint[n].p != 1
    ensures joint[n].p == 0 && joint[n].a.Enc?
  {
    hide Sys, Permitted, SessionAt, OutputAt, Apply, ActionOf, TwoParty.Enabled;
    PermittedPrefix(e, joint, n);
    forall i | 0 <= i < n
      ensures joint[i].p == 0
    {
      assert joint[..n][i] == joint[i];
    }
    if !joint[n].a.Enc? {
      var _ := OpeningIsAuthentic(e, joint, n);
    }
  }

  // Before the responder has a session, all saves are the initiator's encryptions.
  lemma {:induction false} OnlyInitiator(e: Agreed, joint: seq<Side>)
    requires Permitted(e, joint) && (forall i | 0 <= i < |joint| :: joint[i].p != 1)
    ensures AllSends(joint)
    decreases |joint|
  {
    hide Sys, Allowed, SessionAt;
    if joint != [] {
      var n := |joint| - 1;
      OnlyInitiator(e, joint[..n]);
      NextIsSend(e, joint, n);
      assert forall i | 0 <= i < n :: joint[..n][i] == joint[i];
    }
  }

  // Only the first of them carries the INIT part.
  lemma InitOnFirst(e: Agreed, joint: seq<Side>, n: nat)
    requires Permitted(e, joint) && AllSends(joint) && n < |joint|
    ensures OutputAt(joint, n).Some? && OutputAt(joint, n).value.Cipher?
    ensures OutputAt(joint, n).value.init == if n == 0 then Some(joint[0].a.initMsg) else None
  {
    PermittedPrefix(e, joint, n);
    if n == 0 {
      assert joint[..0] == [];
    } else {
      PermittedPrefix(e, joint, n - 1);
      assert joint[..n][..n - 1] == joint[..n - 1];
      SideAppend(joint[..n], 0);
    }
  }

  // After the responder's step `x` on the first frame: it reads the first plaintext, and the stored
  // sessions are the two states of a run.
  ghost predicate Established(e: Agreed, joint: seq<Side>, x: Side) {
    var next := joint + [x];
    && joint != [] && joint[0].a.Enc? && Permitted(e, next) && OutputAt(next, |joint|) == Some(Plain(joint[0].a.plain))
    && TwoParty.Run(Trace(e, next), Actions(next))
    && SessionAt(next, 0).Some? && SessionAt(next, 1).Some?
    && Sys(e, next).st == [SessionAt(next, 0).value, SessionAt(next, 1).value]
  }

  // Whatever the initiator has sent by then, its first frame starts the responder's session: the
  // responder reads the first plaintext, and the two sessions are a state of a run of the two-party
  // system, so all that holds of its runs holds from there on.
  lemma FirstContactIsRun(e: Agreed, joint: seq<Side>, gen: nat)
    requires Permitted(e, joint) && (forall i | 0 <= i < |joint| :: joint[i].p != 1) && joint != [] && gen !in {e.spk, e.first}
    ensures joint[0].p == 0 && joint[0].a.Enc? && OutputAt(joint, 0).Some? && OutputAt(joint, 0).value.Cipher?
    ensures var sent := OutputAt(joint, 0).value;
            && sent.init == Some(joint[0].a.initMsg) && sent.wire.header == Header(e.first, 0, 0) && sent.wire.aad == []
    ensures Established(e, joint, Side(1, InitDec(e.sk, e.spk, OutputAt(joint, 0).value.wire, gen)))
  {
    OnlyInitiator(e, joint);
    InitOnFirst(e, joint, 0);
    FirstEntry(e, joint);
    var last := Side(1, InitDec(e.sk, e.spk, OutputAt(joint, 0).value.wire, gen));
    FirstOpens(e, joint, gen);
    InitiatorHasSession(e, joint);
    hide Permitted, Sys, Allowed, SessionAt, Apply, TwoParty.Run;
    Extended(e, joint, last);
    assert OutputAt(joint + [last], |joint|) == Some(Apply(last.a, SessionAt(joint, 1)).value.0);
    EstablishedRun(e, joint + [last]);
  }

  // Two sessions of a permitted order are the two states of a run.
  lemma EstablishedRun(e: Agreed, joint: seq<Side>)
    requires Permitted(e, joint) && SessionAt(joint, 0).Some? && SessionAt(joint, 1).Some?
    ensures TwoParty.Run(Trace(e, joint), Actions(joint))
    ensures Sys(e, joint).st == [SessionAt(joint, 0).value, SessionAt(joint, 1).value]
  {
    hide Permitted, Sys, SessionAt, TwoParty.Run;
    SysRun(e, joint);
    assert joint[..|joint|] == joint;
    SysHolds(e, joint, 0);
    SysHolds(e, joint, 1);
  }

  lemma FirstEntry(e: Agreed, joint: seq<Side>)
    requires Permitted(e, joint) && AllSends(joint) && joint != []
    ensures |Sys(e, joint).log| == |joint| && SentBy(joint, Sys(e, joint).log[0], 0)
    ensures OutputAt(joint, 0).value.wire.header == Header(e.first, 0, 0) && OutputAt(joint, 0).value.wire.aad == []
  {
    AfterSends(e, joint);
    LogIsSent(e, joint);
    SentAtSends(joint);
    PermittedPrefix(e, joint, 0);
    assert joint[..0] == [];
  }

  lemma {:induction false} SentAtSends(joint: seq<Side>)
    requires AllSends(joint)
    ensures |SentAt(joint)| == |joint| && forall i | 0 <= i < |joint| :: SentAt(joint)[i] == i
    decreases |joint|
  {
    if joint != [] {
      SentAtSends(joint[..|joint| - 1]);
    }
  }

  lemma InitiatorHasSession(e: Agreed, joint: seq<Side>)
    requires Permitted(e, joint) && AllSends(joint) && joint != []
    ensures SessionAt(joint, 0).Some?
  {
    SideAppend(joint, 0);
  }

  lemma FirstOpens(e: Agreed, joint: seq<Side>, gen: nat)
    requires Permitted(e, joint) && AllSends(joint) && joint != [] && gen !in {e.spk, e.first}
    requires OutputAt(joint, 0).Some? && OutputAt(joint, 0).value.Cipher?
    ensures var w := OutputAt(joint, 0).value.wire;
            var a := InitDec(e.sk, e.spk, w, gen);
            && Apply(a, SessionAt(joint, 1)).Some? && Apply(a, SessionAt(joint, 1)).value.0 == Plain(joint[0].a.plain)
            && Allowed(e, Sys(e, joint), SessionAt(joint, 1), Side(1, a))
  {
    hide Sys, Permitted, OutputAt, Trace, Actions, TwoParty.Run, DecryptOn;
    AfterSends(e, joint);
    FirstEntry(e, joint);
    NoSaves(joint, 1);
    FirstDecrypts(e, joint, gen);
  }

  // The responder's initial state opens the first message of the log.
  lemma FirstDecrypts(e: Agreed, joint: seq<Side>, gen: nat)
    requires Permitted(e, joint) && AllSends(joint) && joint != [] && gen !in {e.spk, e.first}
    ensures var s, st := Sys(e, joint), AfterInitReceiver(e.sk, e.spk);
            && s.log != [] && st.Valid() && DecryptOn(st, s.log[0].wire, gen).Ok?
            && DecryptOn(st, s.log[0].wire, gen).value.0 == s.log[0].plain
            && TwoParty.Enabled(s, TwoParty.Deliver(1, s.log[0].wire, gen))
  {
    hide Sys, Permitted, AllSends, Actions, TwoParty.Run, DecryptOn;
    var s := Sys(e, joint);
    AfterSends(e, joint);
    SysRun(e, joint);
    assert joint[..|joint|] == joint && Trace(e, joint)[|joint|] == s;
    Delivery.DeliveryExact(Trace(e, joint), Actions(joint), |joint|, 1, 0, gen);
    FirstDeliverable(s, e, gen);
  }

  lemma FirstDeliverable(s: TwoParty.System, e: Agreed, gen: nat)
    requires TwoParty.Inv(s) && s.h.sk == e.sk && s.h.keys == [e.spk, e.first] && gen !in {e.spk, e.first}
    requires |s.st| == 2 && s.st[1] == AfterInitReceiver(e.sk, e.spk) && s.acc == [{}, {}]
    requires s.log != [] && s.log[0].chain == 0 && s.log[0].n == 0
    ensures !Delivery.Accepted(s, 1, s.log[0].wire.header) && Delivery.WithinSkip(s.st[1], s.log[0].wire.header)
    ensures TwoParty.Enabled(s, TwoParty.Deliver(1, s.log[0].wire, gen))
  {
    var x := s.log[0];
    assert TwoParty.EntryInv(s.h, x) && s.log[0].wire.ct == x.wire.ct;
  }

  lemma {:induction false} NoSaves(joint: seq<Side>, p: nat)
    requires forall i | 0 <= i < |joint| :: joint[i].p != p
    ensures SideOn(joint, p) == []
    decreases |joint|
  {
    if joint != [] {
      NoSaves(joint[..|joint| - 1], p);
    }
  }

  // Any number of encryptions, from none on, are permitted to the initiator.
  lemma {:induction false} SendsPermitted(e: Agreed, joint: seq<Side>)
    requires e.sk.Seed? && e.spk != e.first && AllSends(joint) && |joint| <= U32_MAX
    requires joint != [] ==> joint[0].a.sk == e.sk && joint[0].a.spk == e.spk && joint[0].a.gen == e.first
    ensures Permitted(e, joint)
    decreases |joint|
  {
    if joint != [] {
      var init, x := joint[..|joint| - 1], joint[|joint| - 1];
      SendsPermitted(e, init);
      SendAllowed(e, init, x);
    }
  }

  lemma SendAllowed(e: Agreed, joint: seq<Side>, x: Side)
    requires Permitted(e, joint) && AllSends(joint) && |joint| < U32_MAX && x.p == 0 && x.a.Enc?
    requires joint == [] ==> x.a.sk == e.sk && x.a.spk == e.spk && x.a.gen == e.first
    ensures Allowed(e, Sys(e, joint), SessionAt(joint, 0), x)
  {
    var s := Sys(e, joint);
    hide Sys, Permitted, SessionAt, Trace, Actions, TwoParty.Run, Holds, Apply;
    AfterSends(e, joint);
    SysHolds(e, joint, 0);
    SysRun(e, joint);
    assert joint[..|joint|] == joint && TwoParty.Inv(s);
    if joint != [] {
      InitiatorHasSession(e, joint);
    }
    hide AllSends;
    CanSend(s);
    CanEncrypt(e, s, SessionAt(joint, 0), x);
  }

  lemma CanEncrypt(e: Agreed, s: TwoParty.System, session: Session, x: Side)
    requires Holds(e, s, session, 0) && s.h.Valid() && |s.acc| == 2 && s.st[0].Valid() && s.st[0].cks.Some?
    requires s.st[0].ns < U32_MAX && x.p == 0 && x.a.Enc?
    requires session.Some? || Agreed(x.a.sk, x.a.spk, x.a.gen) == e
    ensures Allowed(e, s, session, x)
  {
  }

  lemma CanSend(s: TwoParty.System)
    requires TwoParty.Inv(s) && s.h.SendChain(0) >= 0
    ensures s.st[0].Valid() && s.st[0].cks.Some?
  {
    assert TwoParty.PartyInv(s.h, s.st[0], s.acc[0], s.h.SendChain(0));
  }

  // ---------------------------------------------------------------------------------------------
  // Bytes.

  /** How the terms of the ratchet files appear in bytes: public keys by name, ciphertexts as written. */
  datatype View = View(name: Bytes -> nat, write: Cipher -> Bytes, read: Bytes -> Cipher) {
    ghost predicate Lawful() {
      forall c :: read(write(c)) == c
    }
  }

  function FrameOf(v: View, dhPub: Bytes, init: Option<Bytes>, w: Wire): Bytes {
    Frames.FrameBytes(init, Frames.MessageBytes(Frames.WireHeader(dhPub, w.header.pn, w.header.n), v.write(w.ct)))
  }

  // What a client makes of a frame.
  function Reading(v: View, frame: Bytes): Result<(Option<Bytes>, Wire)> {
    var (init, message) := Frames.ParseFrame(frame);
    var (h, ct) :- Frames.ParseMessage(message);
    Ok((init, Wire(Header(v.name(h.dh), h.pn, h.n), v.read(ct), [])))
  }

  lemma FrameReads(v: View, dhPub: Bytes, init: Option<Bytes>, w: Wire)
    requires v.Lawful() && |dhPub| == 32 && v.name(dhPub) == w.header.dh && w.aad == []
    requires init.Some? ==> |init.value| == 65
    ensures Reading(v, FrameOf(v, dhPub, init, w)) == Ok((init, w))
  {
    var h := Frames.WireHeader(dhPub, w.header.pn, w.header.n);
    Frames.FrameRoundTrip(init, Frames.MessageBytes(h, v.write(w.ct)));
    Frames.HeaderParses(h, v.write(w.ct));
  }

  // What the initiator agrees on: the key in the first 32 bytes the key agreement returns, the prekey
  // at its place in the bundle, and its own first ratchet key.
  function AgreedOn(v: View, out: Bytes, bundle: Bytes, ratchetPub: Bytes): Agreed
    requires |out| == 97 && |bundle| >= 161
  {
    Agreed(Seed(out[..32]), v.name(bundle[64..96]), v.name(ratchetPub))
  }

  // What the responder makes of a frame with an INIT part: the key agreement from its own two secrets,
  // and the session its worker starts from that.
  function Response(prim: X3dh.Primitives, v: View, bob: X3dh.Identity, frame: Bytes, gen: nat): Option<Side> {
    match Reading(v, frame)
    case Ok((Some(init), w)) =>
      (match X3dh.Receive(prim, bob.ikDh, bob.spk, [], init)
       case Ok(sk) => Some(Side(1, InitDec(Seed(sk), v.name(prim.dhPub(bob.spk)), w, gen)))
       case Err(_) => None)
    case _ => None
  }

  // The bytes of the frame a save put out.
  function FrameAt(v: View, dhPub: Bytes, joint: seq<Side>, n: nat): Bytes
    requires n < |joint|
  {
    match OutputAt(joint, n)
    case Some(Cipher(init, w)) => FrameOf(v, dhPub, init, w)
    case _ => []
  }

  // The initiator starts its session from the result of its key agreement on the bundle.
  predicate Starts(prim: X3dh.Primitives, v: View, alice: Bytes, ek: Bytes, ratchet: Bytes, bundle: Bytes, x: Side) {
    var out := X3dh.Send(prim, alice, bundle, ek);
    && out.Ok? && |out.value| == 97 && |bundle| >= 161 && x.p == 0 && x.a.Enc?
    && x.a.initMsg == out.value[32..97]
    && Agreed(x.a.sk, x.a.spk, x.a.gen) == AgreedOn(v, out.value, bundle, prim.dhPub(ratchet))
  }

  // The key and the names both sides derive from the bundle.
  lemma StartsOnBundle(prim: X3dh.Primitives, v: View, alice: Bytes, ek: Bytes, ratchet: Bytes, bob: X3dh.Identity, x: Side)
    requires prim.Lawful() && |alice| == |bob.ikDh| == |bob.spk| == 32 && bob.opk.None?
    requires X3dh.Send(prim, alice, X3dh.BundleBytes(prim, bob), ek).Ok? ==>
               Starts(prim, v, alice, ek, ratchet, X3dh.BundleBytes(prim, bob), x)
    ensures Starts(prim, v, alice, ek, ratchet, X3dh.BundleBytes(prim, bob), x) && |x.a.initMsg| == 65
    ensures x.a.sk.Seed? && X3dh.Receive(prim, bob.ikDh, bob.spk, [], x.a.initMsg) == Ok(x.a.sk.sk)
    ensures x.a.spk == v.name(prim.dhPub(bob.spk)) && x.a.gen == v.name(prim.dhPub(ratchet))
  {
    X3dh.Agreement(prim, alice, ek, bob);
    PrekeyInBundle(prim, bob);
    hide X3dh.Send, X3dh.Receive, X3dh.BundleBytes;
  }

  // From the bytes of the first frame the responder makes the matching attempt.
  lemma FirstFrameAnswered(prim: X3dh.Primitives, v: View, ratchet: Bytes, bob: X3dh.Identity, x: Side, w: Wire, gen: nat)
    requires prim.Lawful() && v.Lawful() && x.a.Enc? && |x.a.initMsg| == 65
    requires x.a.sk.Seed? && X3dh.Receive(prim, bob.ikDh, bob.spk, [], x.a.initMsg) == Ok(x.a.sk.sk)
    requires x.a.spk == v.name(prim.dhPub(bob.spk)) && w.header.dh == v.name(prim.dhPub(ratchet)) && w.aad == []
    ensures Response(prim, v, bob, FrameOf(v, prim.dhPub(ratchet), Some(x.a.initMsg), w), gen)
         == Some(Side(1, InitDec(x.a.sk, x.a.spk, w, gen)))
  {
    hide X3dh.Receive, FrameOf, Reading;
    FrameReads(v, prim.dhPub(ratchet), Some(x.a.initMsg), w);
  }

  // One-sided establishment.  For every identity and the bundle it publishes, and whatever the
  // initiator encrypts before its first frame is handled: from the bytes of that frame and its own
  // secrets alone the responder derives the same key, reads the first plaintext, and holds the session
  // that matches the initiator's, in a run of the two-party system.
  lemma SessionEstablished(prim: X3dh.Primitives, v: View, alice: Bytes, ek: Bytes, ratchet: Bytes, bob: X3dh.Identity,
                           joint: seq<Side>, gen: nat)
    requires prim.Lawful() && v.Lawful() && |alice| == |bob.ikDh| == |bob.spk| == 32 && bob.opk.None?
    requires AllSends(joint) && 0 < |joint| <= U32_MAX
    requires X3dh.Send(prim, alice, X3dh.BundleBytes(prim, bob), ek).Ok? ==>
               Starts(prim, v, alice, ek, ratchet, X3dh.BundleBytes(prim, bob), joint[0])
    requires v.name(prim.dhPub(ratchet)) != v.name(prim.dhPub(bob.spk))
    requires gen !in {v.name(prim.dhPub(ratchet)), v.name(prim.dhPub(bob.spk))}
    ensures Starts(prim, v, alice, ek, ratchet, X3dh.BundleBytes(prim, bob), joint[0])
    ensures var x := Response(prim, v, bob, FrameAt(v, prim.dhPub(ratchet), joint, 0), gen);
            x.Some? && Established(Agreed(joint[0].a.sk, joint[0].a.spk, joint[0].a.gen), joint, x.value)
  {
    hide Starts, Response, Reading, FrameOf, X3dh.Send, X3dh.Receive, X3dh.BundleBytes;
    hide Permitted, Established, OutputAt;
    StartsOnBundle(prim, v, alice, ek, ratchet, bob, joint[0]);
    var e := Agreed(joint[0].a.sk, joint[0].a.spk, joint[0].a.gen);
    SendsPermitted(e, joint);
    FirstContactIsRun(e, joint, gen);
    FirstFrameAnswered(prim, v, ratchet, bob, joint[0], OutputAt(joint, 0).value.wire, gen);
  }

  // The slice the initiator takes of the bundle is the public key of the prekey secret the responder
  // starts its session from.
  lemma PrekeyInBundle(prim: X3dh.Primitives, bob: X3dh.Identity)
    requires prim.Lawful()
    ensures |X3dh.BundleBytes(prim, bob)| >= 161 && X3dh.BundleBytes(prim, bob)[64..96] == prim.dhPub(bob.spk)
  {
    X3dh.BundleParses(prim, bob);
  }
}
