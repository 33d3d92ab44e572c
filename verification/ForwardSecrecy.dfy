/**
  Forward secrecy of accepted messages, against whoever obtains a party's stored ratchet state.
  All public keys are known to the observer.
 */
module ForwardSecrecy {
  import opened Symbolic
  import opened DoubleRatchet
  import opened TwoParty
  import opened TwoPartyInvariant

  function OptionKeys(k: Option<Key>): set<Key> {
    if k.Some? then {k.value} else {}
  }

  /** Every key in the stored state. */
  function StoredKeys(st: State): set<Key> {
    {st.rk} + OptionKeys(st.cks) + OptionKeys(st.ckr) + st.skipped.Values
  }

  // No stored key is an older root key, or a chain key at a position already passed.
  lemma NotStored(h: History, st: State, acc: set<SkipKey>, m: int, e: nat, n: u32)
    requires h.Valid() && -1 <= m <= h.Top() && PartyInv(h, st, acc, m)
    requires ReceivesOn(m, e) && n < Passed(h, st, m, e)
    ensures RootAt(h.sk, h.keys, e) !in StoredKeys(st)
    ensures ChainAt(h.sk, h.keys, e, n) !in StoredKeys(st)
  {
    RootDepth(h.sk, h.keys, e);
    RootDepth(h.sk, h.keys, m + 1);
    var c := Chain(RootAt(h.sk, h.keys, e), DhOf(h.keys[e], h.keys[e + 1]));
    CachedAreMessageKeys(h, st, acc, m);
    AdvancedIsChain(c, n);
    RootIsRoot(h.sk, h.keys, e);
    RootIsRoot(h.sk, h.keys, m + 1);
    if m >= 0 {
      var d := Chain(RootAt(h.sk, h.keys, m), DhOf(h.keys[m], h.keys[m + 1]));
      AdvancedIsChain(d, st.ns);
      RootDepth(h.sk, h.keys, m);
      if Advance(c, n) == Advance(d, st.ns) {
        AdvanceInjective(c, n, d, st.ns);
      }
    }
    if m >= 1 {
      var d := Chain(RootAt(h.sk, h.keys, m - 1), DhOf(h.keys[m - 1], h.keys[m]));
      AdvancedIsChain(d, st.nr);
      RootDepth(h.sk, h.keys, m - 1);
      if Advance(c, n) == Advance(d, st.nr) {
        AdvanceInjective(c, n, d, st.nr);
      }
    }
  }

  lemma AdvancedIsChain(c: Key, n: nat)
    requires c.Chain?
    ensures Advance(c, n).Chain? || Advance(c, n).Next?
  {
  }

  lemma RootIsRoot(sk: Key, keys: seq<nat>, e: nat)
    requires sk.Seed? && e < |keys|
    ensures RootAt(sk, keys, e).Seed? || RootAt(sk, keys, e).Root?
  {
  }

  lemma CachedAreMessageKeys(h: History, st: State, acc: set<SkipKey>, m: int)
    requires h.Valid() && -1 <= m <= h.Top() && PartyInv(h, st, acc, m)
    ensures forall k | k in st.skipped.Values :: k.Message?
  {
    forall k | k in st.skipped.Values
      ensures k.Message?
    {
      var j :| j in st.skipped && st.skipped[j] == k;
      assert OnKnownChain(h, m, j.dh);
      var e: nat :| ReceivesOn(m, e) && j.dh == h.keys[e + 1];
      assert SlotInv(h, st, acc, m, e, j.n);
    }
  }

  lemma AcceptedNotCached(h: History, st: State, acc: set<SkipKey>, m: int, e: nat, n: u32)
    requires h.Valid() && -1 <= m <= h.Top() && PartyInv(h, st, acc, m)
    requires ReceivesOn(m, e) && h.Slot(e, n) in acc
    ensures MessageKey(h.sk, h.keys, e, n) !in StoredKeys(st)
    ensures n < Passed(h, st, m, e)
  {
    assert SlotInv(h, st, acc, m, e, n);
    RootIsRoot(h.sk, h.keys, m + 1);
    if m >= 0 {
      AdvancedIsChain(Chain(RootAt(h.sk, h.keys, m), DhOf(h.keys[m], h.keys[m + 1])), st.ns);
    }
    if m >= 1 {
      AdvancedIsChain(Chain(RootAt(h.sk, h.keys, m - 1), DhOf(h.keys[m - 1], h.keys[m])), st.nr);
    }
    if MessageKey(h.sk, h.keys, e, n) in st.skipped.Values {
      var j :| j in st.skipped && st.skipped[j] == MessageKey(h.sk, h.keys, e, n);
      assert OnKnownChain(h, m, j.dh);
      var f: nat :| ReceivesOn(m, f) && j.dh == h.keys[f + 1];
      assert SlotInv(h, st, acc, m, f, j.n);
      MessageKeyInjective(h.sk, h.keys, e, n, f, j.n);
    }
  }

  // Old root keys cannot be derived from the stored keys, even with every Diffie-Hellman secret.
  lemma {:induction false} RootHidden(h: History, st: State, acc: set<SkipKey>, m: int, e: nat, names: set<nat>)
    requires h.Valid() && -1 <= m <= h.Top() && PartyInv(h, st, acc, m) && e <= m
    ensures !Derivable(RootAt(h.sk, h.keys, e), StoredKeys(st), names)
    decreases e
  {
    RootDepth(h.sk, h.keys, e);
    RootDepth(h.sk, h.keys, m + 1);
    RootIsRoot(h.sk, h.keys, e);
    CachedAreMessageKeys(h, st, acc, m);
    AdvancedIsChain(Chain(RootAt(h.sk, h.keys, m), DhOf(h.keys[m], h.keys[m + 1])), st.ns);
    if m >= 1 {
      AdvancedIsChain(Chain(RootAt(h.sk, h.keys, m - 1), DhOf(h.keys[m - 1], h.keys[m])), st.nr);
    }
    if e > 0 {
      RootHidden(h, st, acc, m, e - 1, names);
    }
  }

  lemma {:induction false} ChainHidden(h: History, st: State, acc: set<SkipKey>, m: int, e: nat, n: u32,
                                       known: set<Key>, names: set<nat>)
    requires h.Valid() && -1 <= m <= h.Top() && PartyInv(h, st, acc, m)
    requires ReceivesOn(m, e) && n < Passed(h, st, m, e)
    requires known <= StoredKeys(st) + {h.sk}
    requires !Derivable(RootAt(h.sk, h.keys, e), known, names) || !DhDerivable(DhOf(h.keys[e], h.keys[e + 1]), names)
    ensures !Derivable(ChainAt(h.sk, h.keys, e, n), known, names)
    decreases n
  {
    NotStored(h, st, acc, m, e, n);
    AdvancedIsChain(Chain(RootAt(h.sk, h.keys, e), DhOf(h.keys[e], h.keys[e + 1])), n);
    if n > 0 {
      ChainHidden(h, st, acc, m, e, n - 1, known, names);
    }
  }

  // Forward secrecy.  In every state of every run, the key of a message a party has accepted cannot
  // be derived from that party's stored ratchet state, even by an observer who also holds every
  // Diffie-Hellman secret there is.
  lemma AcceptedKeyUnderivable(trace: seq<System>, actions: seq<Action>, j: nat, p: nat, i: nat, names: set<nat>)
    requires Run(trace, actions) && j < |trace| && p < 2 && i < |trace[j].log|
    requires |trace[j].acc| == |trace[j].st| == 2 && trace[j].log[i].wire.ct.Sealed?
    requires SkipKey(trace[j].log[i].wire.header.dh, trace[j].log[i].wire.header.n) in trace[j].acc[p]
    ensures !Derivable(trace[j].log[i].wire.ct.key, StoredKeys(trace[j].st[p]), names)
  {
    RunInv(trace, actions, j);
    var s, x := trace[j], trace[j].log[i];
    var m := s.h.SendChain(p);
    assert PartyInv(s.h, s.st[p], s.acc[p], m);
    assert EntryInv(s.h, x);
    AcceptedChain(s.h, s.st[p], s.acc[p], m, x);
    AcceptedNotCached(s.h, s.st[p], s.acc[p], m, x.chain, x.n);
    RootHidden(s.h, s.st[p], s.acc[p], m, x.chain, names);
    ChainHidden(s.h, s.st[p], s.acc[p], m, x.chain, x.n, StoredKeys(s.st[p]), names);
  }

  lemma AcceptedChain(h: History, st: State, acc: set<SkipKey>, m: int, x: Entry)
    requires h.Valid() && -1 <= m <= h.Top() && PartyInv(h, st, acc, m)
    requires EntryInv(h, x) && h.Slot(x.chain, x.n) in acc
    ensures ReceivesOn(m, x.chain)
  {
    assert OnKnownChain(h, m, h.keys[x.chain + 1]);
    var e: nat :| ReceivesOn(m, e) && h.keys[x.chain + 1] == h.keys[e + 1];
    assert e == x.chain;
  }

  lemma {:induction false} ChainFromRoot(sk: Key, keys: seq<nat>, n: nat, known: set<Key>, names: set<nat>)
    requires |keys| >= 2 && sk in known && keys[0] in names
    ensures Derivable(ChainAt(sk, keys, 0, n), known, names)
    decreases n
  {
    assert RootAt(sk, keys, 0) == sk;
    assert DhDerivable(DhOf(keys[0], keys[1]), names);
    if n == 0 {
      assert ChainAt(sk, keys, 0, 0) == Chain(sk, DhOf(keys[0], keys[1]));
    } else {
      ChainFromRoot(sk, keys, n - 1, known, names);
    }
  }

  // How far that reaches beyond the ratchet state.  Given also the long-term material of the key
  // agreement (the shared secret `sk` and the secret of the signed prekey), exactly the accepted
  // messages of the first chain become derivable; every later chain stays out of reach.
  lemma LongTermKeysExposeFirstChainOnly(trace: seq<System>, actions: seq<Action>, j: nat, p: nat, i: nat)
    requires Run(trace, actions) && j < |trace| && p < 2 && i < |trace[j].log|
    requires |trace[j].acc| == |trace[j].st| == 2 && |trace[j].h.keys| >= 2 && trace[j].log[i].wire.ct.Sealed?
    requires SkipKey(trace[j].log[i].wire.header.dh, trace[j].log[i].wire.header.n) in trace[j].acc[p]
    ensures var s := trace[j];
            Derivable(s.log[i].wire.ct.key, StoredKeys(s.st[p]) + {s.h.sk}, {s.st[p].dhs, s.h.keys[0]})
            <==> s.log[i].chain == 0
  {
    RunInv(trace, actions, j);
    var s, x := trace[j], trace[j].log[i];
    var m := s.h.SendChain(p);
    assert PartyInv(s.h, s.st[p], s.acc[p], m);
    assert EntryInv(s.h, x);
    AcceptedChain(s.h, s.st[p], s.acc[p], m, x);
    AcceptedNotCached(s.h, s.st[p], s.acc[p], m, x.chain, x.n);
    var known, names := StoredKeys(s.st[p]) + {s.h.sk}, {s.st[p].dhs, s.h.keys[0]};
    if x.chain == 0 {
      ChainFromRoot(s.h.sk, s.h.keys, x.n, known, names);
    } else {
      ChainHidden(s.h, s.st[p], s.acc[p], m, x.chain, x.n, known, names);
    }
  }
}
