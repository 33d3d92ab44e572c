/** Every action of the two-party system keeps its invariant. */
module TwoPartyInvariant {
  import opened Symbolic
  import opened DoubleRatchet
  import opened Worker
  import opened TwoParty

  lemma InitialInv(s: System, sk: Key, bobSpk: nat, alice: nat)
    requires Initial(s, sk, bobSpk, alice)
    ensures Inv(s)
  {
    assert s.h.Valid() && s.h.PnOf(0) == 0;
    assert ChainAt(sk, s.h.keys, 0, 0) == Chain(sk, DhOf(bobSpk, alice));
    assert KeysInv(s.h, s.st[0], 0);
    assert PartyInv(s.h, s.st[0], s.acc[0], 0);
    assert PartyInv(s.h, s.st[1], s.acc[1], -1);
  }

  // ---------------------------------------------------------------------------------------------
  // Sending.

  lemma CountFrame(h: History, st: State, acc: set<SkipKey>, m: int, e: nat)
    requires h.Valid() && -1 <= m <= h.Top() && PartyInv(h, st, acc, m)
    requires e <= h.Top() && h.sent[e] < U32_MAX && e + 1 >= h.Top()
    requires e == m - 1 || e == m + 1
    ensures PartyInv(h.Count(e), st, acc, m)
  {
    var g := h.Count(e);
    forall f: nat, n: u32 | ReceivesOn(m, f)
      ensures SlotInv(g, st, acc, m, f, n)
    {
      assert SlotInv(h, st, acc, m, f, n);
    }
    forall k | k in acc || k in st.skipped
      ensures OnKnownChain(g, m, k.dh)
    {
      assert OnKnownChain(h, m, k.dh);
    }
  }

  // What a party with a sending chain appends.
  lemma SendStep(s: System, p: nat, plain: Bytes, aad: Bytes)
    requires Inv(s) && Enabled(s, Send(p, plain, aad)) && s.h.SendChain(p) >= 0
    ensures var m: nat := s.h.SendChain(p);
            var t := Step(s, Send(p, plain, aad));
            && m <= s.h.Top() && m + 1 >= s.h.Top() && s.st[p].cks.Some? && s.h.sent[m] == s.st[p].ns && s.h.Count(m).Valid()
            && t.h == s.h.Count(m) && t.acc == s.acc
            && t.st == s.st[p := s.st[p].(cks := Some(Next(s.st[p].cks.value)), ns := Increment(s.st[p].ns))]
            && |t.log| == |s.log| + 1 && t.log == s.log + [t.log[|s.log|]]
            && t.log[|s.log|].chain == m && t.log[|s.log|].n == s.h.sent[m]
            && EntryInv(t.h, t.log[|s.log|])
  {
    assert PartyInv(s.h, s.st[p], s.acc[p], s.h.SendChain(p));
  }

  lemma SendInv(s: System, p: nat, plain: Bytes, aad: Bytes)
    requires Inv(s) && Enabled(s, Send(p, plain, aad))
    ensures Inv(Step(s, Send(p, plain, aad)))
  {
    var m := s.h.SendChain(p);
    assert PartyInv(s.h, s.st[p], s.acc[p], m);
    if m >= 0 {
      var t := Step(s, Send(p, plain, aad));
      var q := 1 - p;
      SendStep(s, p, plain, aad);
      hide Step, PartyInv, EntryInv;
      assert PartyInv(s.h, s.st[q], s.acc[q], s.h.SendChain(q));
      OwnCount(s.h, s.st[p], s.acc[p], m);
      CountFrame(s.h, s.st[q], s.acc[q], s.h.SendChain(q), m);
      LogCount(s.h, s.log, m, t.log[|s.log|]);
      Assemble(t, p);
    }
  }

  // The log stays consistent when the next message of chain `m` is appended.
  lemma LogCount(h: History, log: seq<Entry>, m: nat, x: Entry)
    requires h.Valid() && m <= h.Top() && h.sent[m] < U32_MAX && m + 1 >= h.Top()
    requires forall i | 0 <= i < |log| :: EntryInv(h, log[i])
    requires forall i, j | 0 <= i < j < |log| :: log[i].chain != log[j].chain || log[i].n != log[j].n
    requires x.chain == m && x.n == h.sent[m] && EntryInv(h.Count(m), x)
    ensures var l := log + [x];
            && (forall i | 0 <= i < |l| :: EntryInv(h.Count(m), l[i]))
            && (forall i, j | 0 <= i < j < |l| :: l[i].chain != l[j].chain || l[i].n != l[j].n)
  {
    var l := log + [x];
    forall i | 0 <= i < |l|
      ensures EntryInv(h.Count(m), l[i])
    {
      if i < |log| {
        assert EntryInv(h, log[i]);
      }
    }
    forall i, j | 0 <= i < j < |l|
      ensures l[i].chain != l[j].chain || l[i].n != l[j].n
    {
      assert EntryInv(h, log[i]);
    }
  }

  // The sender's own invariant after one more message on its chain.
  lemma OwnCount(h: History, st: State, acc: set<SkipKey>, m: int)
    requires h.Valid() && 0 <= m <= h.Top() && PartyInv(h, st, acc, m)
    requires st.ns < U32_MAX && m + 1 >= h.Top()
    ensures PartyInv(h.Count(m), st.(cks := Some(Next(st.cks.value)), ns := Increment(st.ns)), acc, m)
  {
    var g := h.Count(m);
    var t := st.(cks := Some(Next(st.cks.value)), ns := Increment(st.ns));
    forall f: nat, n: u32 | ReceivesOn(m, f)
      ensures SlotInv(g, t, acc, m, f, n)
    {
      assert SlotInv(h, st, acc, m, f, n);
    }
    forall k | k in acc || k in t.skipped
      ensures OnKnownChain(g, m, k.dh)
    {
      assert OnKnownChain(h, m, k.dh);
    }
  }

  // ---------------------------------------------------------------------------------------------
  // Receiving, stage by stage.

  // Distinct chains have distinct keys, so a position determines its chain.
  lemma SlotChain(h: History, e: nat, n: u32, f: nat, k: u32)
    requires h.Valid() && e <= h.Top() && f <= h.Top()
    requires h.Slot(e, n) == h.Slot(f, k)
    ensures e == f && n == k
  {
  }

  // A message whose key was cached.
  lemma CachedInv(h: History, st: State, acc: set<SkipKey>, m: int, k: SkipKey)
    requires h.Valid() && -1 <= m <= h.Top() && PartyInv(h, st, acc, m)
    requires k in st.skipped
    ensures PartyInv(h, st.(skipped := st.skipped - {k}), acc + {k}, m)
  {
    var t := st.(skipped := st.skipped - {k});
    forall e: nat, n: u32 | ReceivesOn(m, e)
      ensures SlotInv(h, t, acc + {k}, m, e, n)
    {
      assert SlotInv(h, st, acc, m, e, n);
    }
    forall j | j in acc + {k} || j in t.skipped
      ensures OnKnownChain(h, m, j.dh)
    {
      assert j in acc || j in st.skipped;
    }
  }

  // Skipping ahead on the current chain moves positions into the cache.
  lemma SkipInv(h: History, st: State, acc: set<SkipKey>, m: int, until: u32)
    requires h.Valid() && 1 <= m <= h.Top() && PartyInv(h, st, acc, m)
    requires until <= h.sent[m - 1] && AfterSkip(st, until).1.None?
    ensures var t := AfterSkip(st, until).0;
            PartyInv(h, t, acc, m) && t.nr == (if until <= st.nr then st.nr else until)
  {
    var t := AfterSkip(st, until).0;
    if until > st.nr {
      var c := Chain(RootAt(h.sk, h.keys, m - 1), DhOf(h.keys[m - 1], h.keys[m]));
      AdvanceAdd(c, st.nr, until - st.nr);
      forall e: nat, n: u32 | ReceivesOn(m, e)
        ensures SlotInv(h, t, acc, m, e, n)
      {
        assert SlotInv(h, st, acc, m, e, n);
        var k := h.Slot(e, n);
        ChainSliceHas(h.keys[m], st.ckr.value, st.nr, until, k);
        if e == m - 1 && st.nr <= n < until {
          AdvanceAdd(c, st.nr, n - st.nr);
        } else if e != m - 1 {
          assert h.keys[e + 1] != h.keys[m];
        }
      }
      forall k | k in acc || k in t.skipped
        ensures OnKnownChain(h, m, k.dh)
      {
        ChainSliceHas(h.keys[m], st.ckr.value, st.nr, until, k);
        if k in acc || k in st.skipped {
          assert OnKnownChain(h, m, k.dh);
        } else {
          assert ReceivesOn(m, m - 1) && k.dh == h.keys[(m - 1) + 1];
        }
      }
    }
  }

  // Taking the next key of the current chain for an accepted message.
  lemma TakeInv(h: History, st: State, acc: set<SkipKey>, m: int)
    requires h.Valid() && 1 <= m <= h.Top() && PartyInv(h, st, acc, m)
    requires st.nr < h.sent[m - 1]
    ensures PartyInv(h, st.(ckr := Some(Next(st.ckr.value)), nr := Increment(st.nr)), acc + {h.Slot(m - 1, st.nr)}, m)
  {
    var t := st.(ckr := Some(Next(st.ckr.value)), nr := Increment(st.nr));
    var k := h.Slot(m - 1, st.nr);
    forall e: nat, n: u32 | ReceivesOn(m, e)
      ensures SlotInv(h, t, acc + {k}, m, e, n)
    {
      assert SlotInv(h, st, acc, m, e, n);
      if h.Slot(e, n) == k {
        SlotChain(h, e, n, m - 1, st.nr);
      }
    }
    forall j | j in acc + {k} || j in t.skipped
      ensures OnKnownChain(h, m, j.dh)
    {
      if j == k {
        assert ReceivesOn(m, m - 1) && j.dh == h.keys[(m - 1) + 1];
      } else {
        assert OnKnownChain(h, m, j.dh);
      }
    }
  }

  lemma RatchetKeys(h: History, st: State, m: int, gen: nat)
    requires h.Valid() && -1 <= m == h.Top() - 1 && KeysInv(h, st, m)
    requires h.Extend(gen).Valid()
    ensures KeysInv(h.Extend(gen), AfterDhRatchet(st, h.keys[m + 2], gen), m + 2)
  {
    var g := h.Extend(gen);
    var r1 := RootAt(h.sk, h.keys, m + 1);
    RootPrefix(h.sk, h.keys, gen, m + 1);
    assert RootAt(g.sk, g.keys, m + 2) == Root(r1, DhOf(h.keys[m + 1], h.keys[m + 2]));
    assert RootAt(g.sk, g.keys, m + 3) == Root(RootAt(g.sk, g.keys, m + 2), DhOf(h.keys[m + 2], gen));
    assert ChainAt(g.sk, g.keys, m + 1, 0) == Chain(r1, DhOf(h.keys[m + 1], h.keys[m + 2]));
    assert ChainAt(g.sk, g.keys, m + 2, 0) == Chain(RootAt(g.sk, g.keys, m + 2), DhOf(h.keys[m + 2], gen));
  }

  lemma NewestUnknown(h: History, m: int)
    requires h.Valid() && -1 <= m == h.Top() - 1
    ensures !OnKnownChain(h, m, h.keys[m + 2])
  {
  }

  // The DH ratchet step: the party that was one chain behind now owns the newest chain.
  lemma RatchetInv(h: History, st: State, acc: set<SkipKey>, m: int, gen: nat)
    requires h.Valid() && m == h.Top() - 1 && PartyInv(h, st, acc, m)
    requires m >= 1 ==> st.nr == h.sent[m - 1]
    requires gen !in h.keys
    ensures h.Extend(gen).Valid()
    ensures PartyInv(h.Extend(gen), AfterDhRatchet(st, h.keys[m + 2], gen), acc, m + 2)
  {
    var g := h.Extend(gen);
    var t := AfterDhRatchet(st, h.keys[m + 2], gen);
    var m2 := m + 2;
    assert g.Valid() && g.PnOf(m2) == st.ns;
    RatchetKeys(h, st, m, gen);
    forall e: nat, n: u32 | ReceivesOn(m2, e)
      ensures SlotInv(g, t, acc, m2, e, n)
    {
      if e == m + 1 {
        NewestUnknown(h, m);
        assert g.Slot(e, n) !in acc && g.Slot(e, n) !in st.skipped;
      } else {
        assert ReceivesOn(m, e);
        assert SlotInv(h, st, acc, m, e, n);
        ChainPrefix(h.sk, h.keys, gen, e, n);
      }
    }
    forall k | k in acc || k in t.skipped
      ensures OnKnownChain(g, m + 2, k.dh)
    {
      assert OnKnownChain(h, m, k.dh);
      var e: nat :| ReceivesOn(m, e) && k.dh == h.keys[e + 1];
      assert ReceivesOn(m + 2, e) && k.dh == g.keys[e + 1];
    }
  }

  // The other party, and the log, are not affected by a new key being generated.
  lemma ExtendFrame(h: History, st: State, acc: set<SkipKey>, m: int, gen: nat)
    requires h.Valid() && -1 <= m <= h.Top() && PartyInv(h, st, acc, m)
    requires gen !in h.keys
    ensures h.Extend(gen).Valid() && PartyInv(h.Extend(gen), st, acc, m)
  {
    var g := h.Extend(gen);
    RootPrefix(h.sk, h.keys, gen, m + 1);
    if m >= 0 {
      ChainPrefix(h.sk, h.keys, gen, m, st.ns);
    }
    if m >= 1 {
      ChainPrefix(h.sk, h.keys, gen, m - 1, st.nr);
    }
    assert KeysInv(g, st, m);
    forall e: nat, n: u32 | ReceivesOn(m, e)
      ensures SlotInv(g, st, acc, m, e, n)
    {
      assert SlotInv(h, st, acc, m, e, n);
      ChainPrefix(h.sk, h.keys, gen, e, n);
    }
    forall k | k in acc || k in st.skipped
      ensures OnKnownChain(g, m, k.dh)
    {
      assert OnKnownChain(h, m, k.dh);
      var e: nat :| ReceivesOn(m, e) && k.dh == h.keys[e + 1];
      assert ReceivesOn(m, e) && k.dh == g.keys[e + 1];
    }
  }

  lemma ExtendEntry(h: History, x: Entry, gen: nat)
    requires h.Valid() && EntryInv(h, x) && gen !in h.keys
    ensures h.Extend(gen).Valid() && EntryInv(h.Extend(gen), x)
  {
    ChainPrefix(h.sk, h.keys, gen, x.chain, x.n);
  }

  // ---------------------------------------------------------------------------------------------
  // What a successful decryption opened.

  // A cached key opens only the message it was cached for.
  lemma CachedOpens(h: History, st: State, acc: set<SkipKey>, m: int, x: Entry, w: Wire)
    requires h.Valid() && -1 <= m <= h.Top() && PartyInv(h, st, acc, m)
    requires EntryInv(h, x) && w.ct == x.wire.ct
    requires var k := SkipKey(w.header.dh, w.header.n); k in st.skipped && OpenWith(st.skipped[k], w).Ok?
    ensures var k := SkipKey(w.header.dh, w.header.n);
            && w == x.wire && ReceivesOn(m, x.chain) && k !in acc
            && OpenWith(st.skipped[k], w).value == x.plain
            && PartyInv(h, st.(skipped := st.skipped - {k}), acc + {k}, m)
  {
    var k := SkipKey(w.header.dh, w.header.n);
    assert OnKnownChain(h, m, k.dh);
    var e: nat :| ReceivesOn(m, e) && k.dh == h.keys[e + 1];
    assert SlotInv(h, st, acc, m, e, k.n);
    MessageKeyInjective(h.sk, h.keys, e, k.n, x.chain, x.n);
    CachedInv(h, st, acc, m, k);
  }

  // The last stage, on current chain `m - 1`: it opens a box sealed on chain `e` at position `n` only
  // if that is this chain at a position not yet passed.
  lemma ReceiveOpens(h: History, st: State, acc: set<SkipKey>, m: int, x: Entry, w: Wire)
    requires h.Valid() && 1 <= m <= h.Top() && PartyInv(h, st, acc, m)
    requires EntryInv(h, x) && w.ct == x.wire.ct
    requires AfterReceive(st, w).1.Ok?
    ensures w == x.wire && x.chain == m - 1 && x.n >= st.nr
    ensures h.Slot(x.chain, x.n) !in acc
    ensures AfterReceive(st, w).1.value == x.plain
    ensures PartyInv(h, AfterReceive(st, w).0, acc + {h.Slot(x.chain, x.n)}, m)
  {
    var (s1, e) := AfterSkip(st, w.header.n);
    var c := Chain(RootAt(h.sk, h.keys, m - 1), DhOf(h.keys[m - 1], h.keys[m]));
    if w.header.n > st.nr {
      AdvanceAdd(c, st.nr, w.header.n - st.nr);
    }
    assert s1.ckr == Some(Advance(c, s1.nr));
    MessageKeyInjective(h.sk, h.keys, m - 1, s1.nr, x.chain, x.n);
    SkipInv(h, st, acc, m, x.n);
    TakeInv(h, s1, acc, m);
    assert ReceivesOn(m, x.chain);
    assert SlotInv(h, st, acc, m, x.chain, x.n);
  }

  // The chain a message with an unknown ratchet key makes the receiver derive.
  lemma RatchetOpens(h: History, st: State, acc: set<SkipKey>, m: int, x: Entry, w: Wire, gen: nat)
    requires h.Valid() && -1 <= m <= h.Top() && m + 1 >= h.Top() && PartyInv(h, st, acc, m)
    requires EntryInv(h, x) && w.ct == x.wire.ct && gen !in h.keys
    requires st.dhr != Some(w.header.dh)
    requires AfterSkip(st, w.header.pn).1.None?
    requires AfterReceive(AfterDhRatchet(AfterSkip(st, w.header.pn).0, w.header.dh, gen), w).1.Ok?
    ensures w == x.wire && x.chain == m + 1 == h.Top() && w.header.dh == h.keys[m + 2]
  {
    var (s1, _) := AfterSkip(st, w.header.pn);
    var s2 := AfterDhRatchet(s1, w.header.dh, gen);
    var c := Chain(st.rk, DhOf(st.dhs, w.header.dh));
    assert s2.ckr == Some(Advance(c, 0));
    AdvanceAdd(c, 0, w.header.n);
    var d := Chain(RootAt(h.sk, h.keys, x.chain), DhOf(h.keys[x.chain], h.keys[x.chain + 1]));
    AdvanceInjective(c, w.header.n, d, x.n);
    RootDepth(h.sk, h.keys, m + 1);
    RootDepth(h.sk, h.keys, x.chain);
  }

  lemma RatchetReceives(h: History, st: State, acc: set<SkipKey>, m: int, x: Entry, w: Wire, gen: nat)
    requires h.Valid() && m == h.Top() - 1 && PartyInv(h, st, acc, m)
    requires EntryInv(h, x) && w == x.wire && x.chain == m + 1 && gen !in h.keys
    requires AfterSkip(st, w.header.pn).1.None?
    requires AfterReceive(AfterDhRatchet(AfterSkip(st, w.header.pn).0, w.header.dh, gen), w).1.Ok?
    ensures var t := AfterReceive(AfterDhRatchet(AfterSkip(st, w.header.pn).0, w.header.dh, gen), w);
            && h.Extend(gen).Valid()
            && t.1.value == x.plain && h.Slot(x.chain, x.n) !in acc && t.0.dhs == gen
            && PartyInv(h.Extend(gen), t.0, acc + {h.Slot(x.chain, x.n)}, m + 2)
  {
    var (s1, _) := AfterSkip(st, w.header.pn);
    if m >= 1 {
      SkipInv(h, st, acc, m, w.header.pn);
    }
    RatchetInv(h, s1, acc, m, gen);
    ExtendEntry(h, x, gen);
    var s2 := AfterDhRatchet(s1, w.header.dh, gen);
    ReceiveOpens(h.Extend(gen), s2, acc, m + 2, x, w);
  }

  // `p` opened log entry `i`, a message of the peer it had not accepted, and the invariant is kept.
  ghost predicate Opened(s: System, p: nat, w: Wire, gen: nat, i: nat)
    requires Inv(s) && Enabled(s, Deliver(p, w, gen))
    requires DecryptOn(s.st[p], w, gen).Ok?
  {
    && i < |s.log| && s.log[i].wire == w && s.log[i].chain % 2 != p
    && DecryptOn(s.st[p], w, gen).value.0 == s.log[i].plain
    && SkipKey(w.header.dh, w.header.n) !in s.acc[p]
    && Inv(Step(s, Deliver(p, w, gen)))
  }

  lemma PeerParity(h: History, p: nat, e: nat)
    requires h.Valid() && p < 2 && e <= h.Top()
    ensures ReceivesOn(h.SendChain(p), e) ==> e % 2 != p
    ensures e % 2 != p && e != h.SendChain(p) + 1 ==> ReceivesOn(h.SendChain(p), e)
    ensures e % 2 != p && e == h.SendChain(p) + 1 ==> e == h.Top()
  {
  }

  lemma DeliverCached(s: System, p: nat, w: Wire, gen: nat, i: nat)
    requires Inv(s) && Enabled(s, Deliver(p, w, gen)) && DecryptOn(s.st[p], w, gen).Ok?
    requires i < |s.log| && s.log[i].wire.ct == w.ct
    requires SkipKey(w.header.dh, w.header.n) in s.st[p].skipped
    ensures Opened(s, p, w, gen, i)
  {
    var m := s.h.SendChain(p);
    assert PartyInv(s.h, s.st[p], s.acc[p], m);
    assert EntryInv(s.h, s.log[i]);
    CachedOpens(s.h, s.st[p], s.acc[p], m, s.log[i], w);
    PeerParity(s.h, p, s.log[i].chain);
    var k := SkipKey(w.header.dh, w.header.n);
    assert DecryptOn(s.st[p], w, gen).value.1 == s.st[p].(skipped := s.st[p].skipped - {k});
    KeepOther(s, p, w, gen, s.h);
  }

  lemma DeliverCurrent(s: System, p: nat, w: Wire, gen: nat, i: nat)
    requires Inv(s) && Enabled(s, Deliver(p, w, gen)) && DecryptOn(s.st[p], w, gen).Ok?
    requires i < |s.log| && s.log[i].wire.ct == w.ct
    requires SkipKey(w.header.dh, w.header.n) !in s.st[p].skipped && s.st[p].dhr == Some(w.header.dh)
    ensures Opened(s, p, w, gen, i)
  {
    var m := s.h.SendChain(p);
    assert PartyInv(s.h, s.st[p], s.acc[p], m);
    ReceiveOpens(s.h, s.st[p], s.acc[p], m, s.log[i], w);
    KeepOther(s, p, w, gen, s.h);
  }

  lemma DeliverNew(s: System, p: nat, w: Wire, gen: nat, i: nat)
    requires Inv(s) && Enabled(s, Deliver(p, w, gen)) && DecryptOn(s.st[p], w, gen).Ok?
    requires i < |s.log| && s.log[i].wire.ct == w.ct
    requires SkipKey(w.header.dh, w.header.n) !in s.st[p].skipped && s.st[p].dhr != Some(w.header.dh)
    ensures Opened(s, p, w, gen, i)
  {
    hide Conserved;
    var m := s.h.SendChain(p);
    assert PartyInv(s.h, s.st[p], s.acc[p], m);
    RatchetOpens(s.h, s.st[p], s.acc[p], m, s.log[i], w, gen);
    RatchetReceives(s.h, s.st[p], s.acc[p], m, s.log[i], w, gen);
    assert s.h.Extend(gen).SendChain(p) == m + 2;
    KeepOther(s, p, w, gen, s.h.Extend(gen));
  }

  // A successful delivery opened exactly one logged message of the peer, not accepted before, and
  // the invariant holds afterwards.
  lemma DeliverOk(s: System, p: nat, w: Wire, gen: nat) returns (i: nat)
    requires Inv(s) && Enabled(s, Deliver(p, w, gen))
    requires DecryptOn(s.st[p], w, gen).Ok?
    ensures Opened(s, p, w, gen, i)
  {
    i := SealedEntry(s, p, w, gen);
    if SkipKey(w.header.dh, w.header.n) in s.st[p].skipped {
      DeliverCached(s, p, w, gen, i);
    } else if s.st[p].dhr == Some(w.header.dh) {
      DeliverCurrent(s, p, w, gen, i);
    } else {
      DeliverNew(s, p, w, gen, i);
    }
  }

  // Every key a receiver can try comes from the shared secret.
  lemma TriedOrigin(h: History, st: State, acc: set<SkipKey>, m: int, w: Wire, gen: nat)
    requires h.Valid() && -1 <= m <= h.Top() && PartyInv(h, st, acc, m) && DecryptOn(st, w, gen).Ok?
    ensures w.ct.Sealed? && Origin(w.ct.key) == h.sk
  {
    var k := SkipKey(w.header.dh, w.header.n);
    RootOrigin(h.sk, h.keys, m + 1);
    if k in st.skipped {
      assert OnKnownChain(h, m, k.dh);
      var e: nat :| ReceivesOn(m, e) && k.dh == h.keys[e + 1];
      assert SlotInv(h, st, acc, m, e, k.n);
      MessageKeyOrigin(h.sk, h.keys, e, k.n);
    } else {
      hide Conserved;
      var s := if st.dhr == Some(w.header.dh) then st else AfterDhRatchet(AfterSkip(st, w.header.pn).0, w.header.dh, gen);
      assert s.ckr.Some? && Origin(s.ckr.value) == h.sk by {
        if st.dhr == Some(w.header.dh) && m >= 1 {
          MessageKeyOrigin(h.sk, h.keys, m - 1, st.nr);
        }
      }
      assert AfterReceive(s, w).1.Ok?;
      ReceiveOrigin(s, w);
    }
  }

  lemma ReceiveOrigin(s: State, w: Wire)
    requires s.Valid() && s.ckr.Some? && AfterReceive(s, w).1.Ok?
    ensures w.ct.Sealed? && Origin(w.ct.key) == Origin(s.ckr.value)
  {
    if w.header.n > s.nr {
      AdvanceOrigin(s.ckr.value, w.header.n - s.nr);
    }
  }

  // So what opens is a box of the log.
  lemma SealedEntry(s: System, p: nat, w: Wire, gen: nat) returns (i: nat)
    requires Inv(s) && Enabled(s, Deliver(p, w, gen)) && DecryptOn(s.st[p], w, gen).Ok?
    ensures i < |s.log| && s.log[i].wire.ct == w.ct
  {
    var m := s.h.SendChain(p);
    assert PartyInv(s.h, s.st[p], s.acc[p], m);
    TriedOrigin(s.h, s.st[p], s.acc[p], m, w, gen);
    i :| 0 <= i < |s.log| && s.log[i].wire.ct == w.ct;
  }

  // A new chain of `p` changes nothing for the peer and the messages sent.
  lemma OtherSide(s: System, p: nat, gen: nat, g: History)
    requires Inv(s) && p < 2 && gen !in s.h.keys
    requires g == s.h || (g == s.h.Extend(gen) && s.h.SendChain(p) == s.h.Top() - 1)
    ensures g.Valid() && g.SendChain(1 - p) == s.h.SendChain(1 - p) <= g.Top()
    ensures PartyInv(g, s.st[1 - p], s.acc[1 - p], g.SendChain(1 - p))
    ensures forall i | 0 <= i < |s.log| :: EntryInv(g, s.log[i])
  {
    hide PartyInv;
    var q := 1 - p;
    assert PartyInv(s.h, s.st[q], s.acc[q], s.h.SendChain(q));
    if g != s.h {
      ExtendFrame(s.h, s.st[q], s.acc[q], s.h.SendChain(q), gen);
      assert g.SendChain(q) == s.h.SendChain(q);
      forall i | 0 <= i < |s.log|
        ensures EntryInv(g, s.log[i])
      {
        ExtendEntry(s.h, s.log[i], gen);
      }
    }
  }

  // The rest of the system after a successful delivery to `p`.
  lemma KeepOther(s: System, p: nat, w: Wire, gen: nat, g: History)
    requires Inv(s) && Enabled(s, Deliver(p, w, gen))
    requires DecryptOn(s.st[p], w, gen).Ok?
    requires g == s.h || (g == s.h.Extend(gen) && s.h.SendChain(p) == s.h.Top() - 1)
    requires var t := DecryptOn(s.st[p], w, gen).value.1;
             && (t.dhs == s.st[p].dhs <==> g == s.h) && (g != s.h ==> t.dhs == gen)
             && g.Valid() && -1 <= g.SendChain(p) <= g.Top()
             && PartyInv(g, t, s.acc[p] + {SkipKey(w.header.dh, w.header.n)}, g.SendChain(p))
    ensures Inv(Step(s, Deliver(p, w, gen)))
  {
    var t := DecryptOn(s.st[p], w, gen).value.1;
    var next := s.(st := s.st[p := t], acc := s.acc[p := s.acc[p] + {SkipKey(w.header.dh, w.header.n)}], h := g);
    assert Step(s, Deliver(p, w, gen)) == next;
    OtherSide(s, p, gen, g);
    Assemble(next, p);
  }

  lemma Assemble(s: System, p: nat)
    requires s.h.Valid() && |s.st| == 2 && |s.acc| == 2 && p < 2
    requires -1 <= s.h.SendChain(p) <= s.h.Top() && PartyInv(s.h, s.st[p], s.acc[p], s.h.SendChain(p))
    requires -1 <= s.h.SendChain(1 - p) <= s.h.Top() && PartyInv(s.h, s.st[1 - p], s.acc[1 - p], s.h.SendChain(1 - p))
    requires forall i | 0 <= i < |s.log| :: EntryInv(s.h, s.log[i])
    requires forall i, j | 0 <= i < j < |s.log| :: s.log[i].chain != s.log[j].chain || s.log[i].n != s.log[j].n
    ensures Inv(s)
  {
    hide PartyInv, EntryInv;
    forall r: nat | r < 2
      ensures PartyInv(s.h, s.st[r], s.acc[r], s.h.SendChain(r))
    {
      assert r == p || r == 1 - p;
    }
  }

  lemma StepInv(s: System, a: Action)
    requires Inv(s) && Enabled(s, a)
    ensures Inv(Step(s, a))
  {
    match a
    case Send(p, plain, aad) =>
      SendInv(s, p, plain, aad);
    case Deliver(p, m, gen) =>
      if DecryptOn(s.st[p], m, gen).Ok? {
        var _ := DeliverOk(s, p, m, gen);
      }
  }

  // The invariant holds in every state of every run.
  lemma {:induction false} RunInv(trace: seq<System>, actions: seq<Action>, i: nat)
    requires Run(trace, actions) && i < |trace|
    ensures Inv(trace[i])
  {
    if i == 0 {
      var sk, bobSpk, alice :| Initial(trace[0], sk, bobSpk, alice);
      InitialInv(trace[0], sk, bobSpk, alice);
    } else {
      RunInv(trace, actions, i - 1);
      StepInv(trace[i - 1], actions[i - 1]);
    }
  }
}
