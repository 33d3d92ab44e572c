/** What the invariant means for the messages of a run: delivery, exactly once, authenticity, key use. */
module Delivery {
  import opened Symbolic
  import opened DoubleRatchet
  import opened Worker
  import opened TwoParty
  import opened TwoPartyInvariant

  /** The gap the receiver must bridge is within MAX_SKIP (both gaps, when the message starts a new chain). */
  predicate WithinSkip(st: State, header: Header) {
    || SkipKey(header.dh, header.n) in st.skipped
    || (if st.dhr == Some(header.dh) then header.n <= st.nr + MAX_SKIP
        else header.pn <= st.nr + MAX_SKIP && header.n <= MAX_SKIP)
  }

  predicate Accepted(s: System, p: nat, header: Header)
    requires p < |s.acc|
  {
    SkipKey(header.dh, header.n) in s.acc[p]
  }

  lemma ReceiveSucceeds(h: History, st: State, acc: set<SkipKey>, m: int, x: Entry)
    requires h.Valid() && 1 <= m <= h.Top() && PartyInv(h, st, acc, m)
    requires EntryInv(h, x) && x.chain == m - 1 && st.nr <= x.n <= st.nr + MAX_SKIP
    ensures AfterReceive(st, x.wire).1.Ok?
  {
    var c := Chain(RootAt(h.sk, h.keys, m - 1), DhOf(h.keys[m - 1], h.keys[m]));
    AdvanceAdd(c, st.nr, x.n - st.nr);
  }

  lemma NewChainSucceeds(h: History, st: State, acc: set<SkipKey>, m: int, x: Entry, gen: nat)
    requires h.Valid() && m == h.Top() - 1 && PartyInv(h, st, acc, m)
    requires EntryInv(h, x) && x.chain == m + 1 && gen !in h.keys
    requires x.wire.header.pn <= st.nr + MAX_SKIP && x.n <= MAX_SKIP
    ensures DecryptOn(st, x.wire, gen).Ok?
  {
    var w := x.wire;
    assert !OnKnownChain(h, m, w.header.dh);
    assert SkipKey(w.header.dh, w.header.n) !in st.skipped;
    var (s1, _) := AfterSkip(st, w.header.pn);
    if m >= 1 {
      SkipInv(h, st, acc, m, w.header.pn);
    }
    RatchetInv(h, s1, acc, m, gen);
    ExtendEntry(h, x, gen);
    ReceiveSucceeds(h.Extend(gen), AfterDhRatchet(s1, w.header.dh, gen), acc, m + 2, x);
  }

  lemma KnownChainSucceeds(h: History, st: State, acc: set<SkipKey>, m: int, x: Entry, gen: nat)
    requires h.Valid() && -1 <= m <= h.Top() && PartyInv(h, st, acc, m) && gen !in h.keys
    requires EntryInv(h, x) && ReceivesOn(m, x.chain)
    requires h.Slot(x.chain, x.n) !in acc && WithinSkip(st, x.wire.header)
    ensures DecryptOn(st, x.wire, gen).Ok?
  {
    assert SlotInv(h, st, acc, m, x.chain, x.n);
    if h.Slot(x.chain, x.n) !in st.skipped {
      ReceiveSucceeds(h, st, acc, m, x);
    }
  }

  // A message of the peer that was not accepted yet opens when its gap is within the limit.
  lemma DeliverySucceeds(s: System, p: nat, i: nat, gen: nat)
    requires Inv(s) && p < 2 && i < |s.log| && s.log[i].chain % 2 != p && gen !in s.h.keys
    requires !Accepted(s, p, s.log[i].wire.header) && WithinSkip(s.st[p], s.log[i].wire.header)
    ensures DecryptOn(s.st[p], s.log[i].wire, gen).Ok?
  {
    var h, st, acc, m, x := s.h, s.st[p], s.acc[p], s.h.SendChain(p), s.log[i];
    assert PartyInv(h, st, acc, m);
    assert EntryInv(h, x);
    PeerParity(h, p, x.chain);
    if ReceivesOn(m, x.chain) {
      KnownChainSucceeds(h, st, acc, m, x, gen);
    } else {
      NewChainSucceeds(h, st, acc, m, x, gen);
    }
  }

  // Decryption is possible only within the skip limit, whatever the state.
  lemma SuccessWithinSkip(st: State, w: Wire, gen: nat)
    requires st.Valid() && DecryptOn(st, w, gen).Ok?
    ensures WithinSkip(st, w.header)
  {
  }

  // The delivery theorem.  In every state of every run a message the peer sent opens, to exactly the
  // plaintext sent, if and only if it was not accepted before and its gap is within the limit.
  lemma DeliveryExact(trace: seq<System>, actions: seq<Action>, j: nat, p: nat, i: nat, gen: nat)
    requires Run(trace, actions) && j < |trace|
    requires p < 2 && i < |trace[j].log| && trace[j].log[i].chain % 2 != p && gen !in trace[j].h.keys
    ensures Inv(trace[j])
    ensures var s := trace[j];
            var x := s.log[i];
            var r := DecryptOn(s.st[p], x.wire, gen);
            && (r.Ok? <==> !Accepted(s, p, x.wire.header) && WithinSkip(s.st[p], x.wire.header))
            && (r.Ok? ==> r.value.0 == x.plain)
  {
    RunInv(trace, actions, j);
    var s, x := trace[j], trace[j].log[i];
    assert PartyInv(s.h, s.st[p], s.acc[p], s.h.SendChain(p));
    if !Accepted(s, p, x.wire.header) && WithinSkip(s.st[p], x.wire.header) {
      DeliverySucceeds(s, p, i, gen);
    }
    if DecryptOn(s.st[p], x.wire, gen).Ok? {
      assert Enabled(s, Deliver(p, x.wire, gen));
      var k := DeliverOk(s, p, x.wire, gen);
      SuccessWithinSkip(s.st[p], x.wire, gen);
    }
  }

  // The delivery theorem in numbers: a gap of a thousand messages is bridged, on the current chain and on
  // the one before a new chain as well as on that, and no more.
  lemma DeliveryInNumbers(trace: seq<System>, actions: seq<Action>, j: nat, p: nat, i: nat, gen: nat)
    requires Run(trace, actions) && j < |trace|
    requires p < 2 && i < |trace[j].log| && trace[j].log[i].chain % 2 != p && gen !in trace[j].h.keys
    ensures Inv(trace[j])
    ensures var st, h := trace[j].st[p], trace[j].log[i].wire.header;
            DecryptOn(st, trace[j].log[i].wire, gen).Ok?
            <==> !Accepted(trace[j], p, h)
                 && (SkipKey(h.dh, h.n) in st.skipped
                     || (st.dhr == Some(h.dh) && h.n <= st.nr + 1000)
                     || (st.dhr != Some(h.dh) && h.pn <= st.nr + 1000 && h.n <= 1000))
  {
    DeliveryExact(trace, actions, j, p, i, gen);
  }

  // Whatever the network injects, an accepted message is one the peer sent, unaltered, and new.
  lemma AcceptedIsAuthentic(trace: seq<System>, actions: seq<Action>, j: nat, p: nat, w: Wire, gen: nat)
    requires Run(trace, actions) && j < |trace| && Enabled(trace[j], Deliver(p, w, gen))
    requires DecryptOn(trace[j].st[p], w, gen).Ok?
    ensures !Accepted(trace[j], p, w.header)
    ensures exists i :: && 0 <= i < |trace[j].log| && trace[j].log[i].wire == w
                        && trace[j].log[i].chain % 2 != p
                        && trace[j].log[i].plain == DecryptOn(trace[j].st[p], w, gen).value.0
  {
    RunInv(trace, actions, j);
    var i := DeliverOk(trace[j], p, w, gen);
    assert Opened(trace[j], p, w, gen, i);
  }

  lemma StepKeepsAccepted(s: System, a: Action, p: nat)
    requires |s.acc| == 2 && p < 2 && Enabled(s, a)
    ensures |Step(s, a).acc| == 2 && s.acc[p] <= Step(s, a).acc[p]
  {
  }

  lemma {:induction false} AcceptedStays(trace: seq<System>, actions: seq<Action>, j: nat, k: nat, p: nat)
    requires Run(trace, actions) && j <= k < |trace| && p < 2
    ensures |trace[j].acc| == |trace[k].acc| == 2 && trace[j].acc[p] <= trace[k].acc[p]
    decreases k - j
  {
    hide Step, PartyInv;
    RunInv(trace, actions, j);
    if j < k {
      AcceptedStays(trace, actions, j, k - 1, p);
      StepKeepsAccepted(trace[k - 1], actions[k - 1], p);
    }
  }

  // Exactly once.  After a delivery was accepted, delivering the same message again fails in every
  // later state of the run, and that action changes nothing.
  lemma ExactlyOnce(trace: seq<System>, actions: seq<Action>, j: nat, k: nat, gen: nat)
    requires Run(trace, actions) && j < |actions| && j < k < |trace|
    requires actions[j].Deliver? && DecryptOn(trace[j].st[actions[j].p], actions[j].m, actions[j].gen).Ok?
    requires Enabled(trace[k], Deliver(actions[j].p, actions[j].m, gen))
    ensures DecryptOn(trace[k].st[actions[j].p], actions[j].m, gen).Err?
    ensures Step(trace[k], Deliver(actions[j].p, actions[j].m, gen)) == trace[k]
  {
    var p, m := actions[j].p, actions[j].m;
    RunInv(trace, actions, j);
    RunInv(trace, actions, k);
    assert trace[j + 1] == Step(trace[j], actions[j]);
    assert SkipKey(m.header.dh, m.header.n) in trace[j + 1].acc[p];
    AcceptedStays(trace, actions, j + 1, k, p);
    if DecryptOn(trace[k].st[p], m, gen).Ok? {
      var _ := DeliverOk(trace[k], p, m, gen);
    }
  }

  lemma ReceiveIgnoresCiphertext(st: State, w: Wire, ct: Cipher)
    requires st.Valid()
    ensures AfterReceive(st, w).0 == AfterReceive(st, w.(ct := ct)).0
  {
  }

  // The state a decryption leaves behind does not depend on whether the ciphertext opened.
  lemma StateIgnoresCiphertext(st: State, w: Wire, ct: Cipher, gen: nat)
    requires st.Valid()
    ensures AfterDecrypt(st, w, gen).0 == AfterDecrypt(st, w.(ct := ct), gen).0
  {
    if SkipKey(w.header.dh, w.header.n) in st.skipped {
    } else if st.dhr == Some(w.header.dh) {
      ReceiveIgnoresCiphertext(st, w, ct);
    } else {
      var (s1, e) := AfterSkip(st, w.header.pn);
      if e.None? {
        ReceiveIgnoresCiphertext(AfterDhRatchet(s1, w.header.dh, gen), w, ct);
      }
    }
  }

  // No message key is used for two encryptions, by either party.
  lemma MessageKeysUnique(trace: seq<System>, actions: seq<Action>, j: nat, a: nat, b: nat)
    requires Run(trace, actions) && j < |trace| && a < b < |trace[j].log|
    ensures trace[j].log[a].wire.ct.Sealed? && trace[j].log[b].wire.ct.Sealed?
    ensures trace[j].log[a].wire.ct.key != trace[j].log[b].wire.ct.key
  {
    RunInv(trace, actions, j);
    var s := trace[j];
    assert EntryInv(s.h, s.log[a]) && EntryInv(s.h, s.log[b]);
    if s.log[a].wire.ct.key == s.log[b].wire.ct.key {
      MessageKeyInjective(s.h.sk, s.h.keys, s.log[a].chain, s.log[a].n, s.log[b].chain, s.log[b].n);
    }
  }

  // Conservation.  On every chain a party has seen, the positions passed are the disjoint union of
  // the accepted and the cached ones, each cached key is the sender's key for its position, and
  // nothing is cached or accepted on any other chain.
  lemma Conservation(trace: seq<System>, actions: seq<Action>, j: nat, p: nat)
    requires Run(trace, actions) && j < |trace| && p < 2
    ensures Inv(trace[j])
    ensures Conserved(trace[j].h, trace[j].st[p], trace[j].acc[p], trace[j].h.SendChain(p))
  {
    RunInv(trace, actions, j);
    assert PartyInv(trace[j].h, trace[j].st[p], trace[j].acc[p], trace[j].h.SendChain(p));
  }

  // The two parties are never more than one chain apart.
  lemma OneChainBehind(trace: seq<System>, actions: seq<Action>, j: nat)
    requires Run(trace, actions) && j < |trace|
    ensures Inv(trace[j])
    ensures var h := trace[j].h;
            && (h.SendChain(0) == h.Top() || h.SendChain(1) == h.Top())
            && -1 <= h.SendChain(0) - h.SendChain(1) <= 1
            && trace[j].st[0].dhs == h.keys[h.SendChain(0) + 1]
            && trace[j].st[1].dhs == h.keys[h.SendChain(1) + 1]
  {
    RunInv(trace, actions, j);
    assert PartyInv(trace[j].h, trace[j].st[0], trace[j].acc[0], trace[j].h.SendChain(0));
    assert PartyInv(trace[j].h, trace[j].st[1], trace[j].acc[1], trace[j].h.SendChain(1));
  }
}
