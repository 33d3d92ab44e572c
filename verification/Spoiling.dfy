/**
  Why the worker must drop a session whose decryption failed.

  The ratchet object decrypts in place: it removes a cached key, skips, ratchets and advances before it
  knows whether the box opens.  Here it is used without the worker's rollback.  A delivered message,
  altered at will, may then spoil a genuine one; which one depends on its header alone.
 */
module Spoiling {
  import opened Symbolic
  import opened DoubleRatchet
  import opened Worker
  import opened TwoParty
  import opened TwoPartyInvariant
  import opened Delivery
  import opened ForwardSecrecy

  // The object after some messages, none of them rolled back.
  function Mutated(st: State, more: seq<(Wire, nat)>): (t: State)
    requires st.Valid()
    ensures t.Valid()
  {
    if more == [] then st
    else
      var x := more[|more| - 1];
      AfterDecrypt(Mutated(st, more[..|more| - 1]), x.0, x.1).0
  }

  /**
    Decrypting anything with header `a` makes the waiting genuine message with header `g` unreadable:
    it takes the key of the same position, cached or next in line; or it starts a chain, which drops
    the rest of the current one, replaces the root under every chain but its own, and overwrites the
    cached keys filed under its ratchet key.
   */
  predicate Spoils(st: State, a: Header, g: Header) {
    var k, s := SkipKey(a.dh, a.n), SkipKey(g.dh, g.n);
    if k in st.skipped then s == k
    else if st.dhr == Some(a.dh) then
      st.ckr.Some? && a.n <= st.nr + MAX_SKIP && g.dh == a.dh && g.n == (if a.n < st.nr then st.nr else a.n)
    else if a.pn > st.nr + MAX_SKIP then false
    else if s in st.skipped then g.dh == a.dh && g.n < a.n <= MAX_SKIP
    else if st.dhr == Some(g.dh) then g.n >= a.pn
    else g.dh != a.dh || g.n == a.n <= MAX_SKIP
  }

  // ---------------------------------------------------------------------------------------------
  // Keys only come from keys.

  lemma SkipWithin(st: State, until: u32, k: Key)
    requires st.Valid() && k in StoredKeys(AfterSkip(st, until).0)
    ensures Within(k, StoredKeys(st))
  {
    var t := AfterSkip(st, until).0;
    if t != st {
      var ck := st.ckr.value;
      WithinAdvance(ck, until - st.nr, StoredKeys(st));
      if k in t.skipped.Values {
        var j :| j in t.skipped && t.skipped[j] == k;
        ChainSliceHas(st.dhr.value, ck, st.nr, until, j);
        if j in ChainSlice(st.dhr.value, ck, st.nr, until) {
          WithinAdvance(ck, j.n - st.nr, StoredKeys(st));
        } else {
          assert k in st.skipped.Values;
        }
      }
    }
  }

  lemma RatchetWithin(st: State, dhr: nat, gen: nat, k: Key)
    requires k in StoredKeys(AfterDhRatchet(st, dhr, gen))
    ensures Within(k, StoredKeys(st))
  {
    assert st.rk in StoredKeys(st);
    if k in AfterDhRatchet(st, dhr, gen).skipped.Values {
      assert k in st.skipped.Values;
    }
  }

  // What the last stage stores, and the key it tries.
  lemma ReceiveWithin(st: State, w: Wire, k: Key)
    requires st.Valid()
    requires k in StoredKeys(AfterReceive(st, w).0) || (AfterReceive(st, w).1.Ok? && w.ct.Sealed? && k == w.ct.key)
    ensures Within(k, StoredKeys(st))
  {
    var s := AfterSkip(st, w.header.n).0;
    forall x | x in StoredKeys(s)
      ensures Within(x, StoredKeys(st))
    {
      SkipWithin(st, w.header.n, x);
    }
    if k !in StoredKeys(s) {
      assert s.ckr.value in StoredKeys(s);
    }
    WithinTransitive(k, StoredKeys(st), StoredKeys(s));
  }

  lemma DecryptWithin(st: State, w: Wire, gen: nat, k: Key)
    requires st.Valid()
    requires k in StoredKeys(AfterDecrypt(st, w, gen).0) || (AfterDecrypt(st, w, gen).1.Ok? && w.ct.Sealed? && k == w.ct.key)
    ensures Within(k, StoredKeys(st))
  {
    var j := SkipKey(w.header.dh, w.header.n);
    if j in st.skipped {
      assert st.skipped[j] in st.skipped.Values;
      if k in (st.skipped - {j}).Values {
        assert k in st.skipped.Values;
      }
    } else if st.dhr == Some(w.header.dh) {
      ReceiveWithin(st, w, k);
    } else {
      var (s1, e) := AfterSkip(st, w.header.pn);
      if e.Some? {
        assert s1 == st;
      } else {
        NewChainWithin(st, w, gen, k);
      }
    }
  }

  lemma NewChainWithin(st: State, w: Wire, gen: nat, k: Key)
    requires st.Valid()
    requires var r := AfterReceive(AfterDhRatchet(AfterSkip(st, w.header.pn).0, w.header.dh, gen), w);
             k in StoredKeys(r.0) || (r.1.Ok? && w.ct.Sealed? && k == w.ct.key)
    ensures Within(k, StoredKeys(st))
  {
    var s1 := AfterSkip(st, w.header.pn).0;
    var s2 := AfterDhRatchet(s1, w.header.dh, gen);
    ReceiveWithin(s2, w, k);
    forall x | x in StoredKeys(s2)
      ensures Within(x, StoredKeys(s1))
    {
      RatchetWithin(s1, w.header.dh, gen, x);
    }
    WithinTransitive(k, StoredKeys(s1), StoredKeys(s2));
    forall x | x in StoredKeys(s1)
      ensures Within(x, StoredKeys(st))
    {
      SkipWithin(st, w.header.pn, x);
    }
    WithinTransitive(k, StoredKeys(st), StoredKeys(s1));
  }

  lemma {:induction false} MutatedWithin(st: State, more: seq<(Wire, nat)>, k: Key)
    requires st.Valid() && k in StoredKeys(Mutated(st, more))
    ensures Within(k, StoredKeys(st))
    decreases |more|
  {
    if more != [] {
      var init, x := more[..|more| - 1], more[|more| - 1];
      var s := Mutated(st, init);
      DecryptWithin(s, x.0, x.1, k);
      forall y | y in StoredKeys(s)
        ensures Within(y, StoredKeys(st))
      {
        MutatedWithin(st, init, y);
      }
      WithinTransitive(k, StoredKeys(st), StoredKeys(s));
    }
  }

  // A box whose key is out of reach of the stored keys never opens again.
  lemma NeverOpens(st: State, more: seq<(Wire, nat)>, w: Wire, gen: nat)
    requires st.Valid() && w.ct.Sealed? && !Within(w.ct.key, StoredKeys(st))
    ensures DecryptOn(Mutated(st, more), w, gen).Err?
  {
    var s := Mutated(st, more);
    if DecryptOn(s, w, gen).Ok? {
      DecryptWithin(s, w, gen, w.ct.key);
      forall y | y in StoredKeys(s)
        ensures Within(y, StoredKeys(st))
      {
        MutatedWithin(st, more, y);
      }
      WithinTransitive(w.ct.key, StoredKeys(st), StoredKeys(s));
    }
  }

  // ---------------------------------------------------------------------------------------------
  // When a key is out of reach.

  predicate RootKey(k: Key) {
    k.Seed? || (k.Root? && RootKey(k.rk))
  }

  // `k` is no ancestor of the message key at position `n` of chain `c`, nor that key.
  predicate Clear(k: Key, c: Key, n: nat) {
    match k
    case Message(_) => k != Message(Advance(c, n))
    case Chain(_, _) => k != c
    case Next(_) => Base(k) != c || Steps(k) > n
    case _ => Depth(k) > Depth(c)
  }

  lemma {:induction false} RootClear(r: Key, c: Key, n: nat, known: set<Key>)
    requires RootKey(r) && Depth(r) <= Depth(c) && forall k | k in known :: Clear(k, c, n)
    ensures !Within(r, known)
    decreases r
  {
    if r.Root? {
      RootClear(r.rk, c, n, known);
    }
  }

  lemma {:induction false} ChainClear(c: Key, i: nat, n: nat, known: set<Key>)
    requires c.Chain? && RootKey(c.rk) && i <= n && forall k | k in known :: Clear(k, c, n)
    ensures !Within(Advance(c, i), known)
    decreases i
  {
    AdvanceBase(c, i);
    if i == 0 {
      RootClear(c.rk, c, n, known);
    } else {
      ChainClear(c, i - 1, n, known);
    }
  }

  lemma {:induction false} RootAtRoot(sk: Key, keys: seq<nat>, e: nat)
    requires sk.Seed? && e < |keys|
    ensures RootKey(RootAt(sk, keys, e))
  {
    if e > 0 {
      RootAtRoot(sk, keys, e - 1);
    }
  }

  // The chain of a sent message.
  function ChainOf(h: History, e: nat): Key
    requires h.Valid() && e <= h.Top()
  {
    Chain(RootAt(h.sk, h.keys, e), DhOf(h.keys[e], h.keys[e + 1]))
  }

  lemma ClearNeverOpens(h: History, x: Entry, st: State, more: seq<(Wire, nat)>, gen: nat)
    requires h.Valid() && EntryInv(h, x) && st.Valid()
    requires forall k | k in StoredKeys(st) :: Clear(k, ChainOf(h, x.chain), x.n)
    ensures DecryptOn(Mutated(st, more), x.wire, gen).Err?
  {
    var c := ChainOf(h, x.chain);
    RootAtRoot(h.sk, h.keys, x.chain);
    ChainClear(c, x.n, x.n, StoredKeys(st));
    assert !Clear(x.wire.ct.key, c, x.n);
    NeverOpens(st, more, x.wire, gen);
  }

  // Keys of other chains, and of positions past it, are clear.
  lemma OtherChainClear(h: History, x: Entry, e: nat, j: nat)
    requires h.Valid() && EntryInv(h, x) && e <= h.Top()
    ensures (e != x.chain || j > x.n) ==> Clear(ChainAt(h.sk, h.keys, e, j), ChainOf(h, x.chain), x.n)
    ensures (e != x.chain || j != x.n) ==> Clear(MessageKey(h.sk, h.keys, e, j), ChainOf(h, x.chain), x.n)
  {
    AdvanceBase(ChainOf(h, e), j);
    RootDepth(h.sk, h.keys, e);
    RootDepth(h.sk, h.keys, x.chain);
    if MessageKey(h.sk, h.keys, e, j) == Message(Advance(ChainOf(h, x.chain), x.n)) {
      MessageKeyInjective(h.sk, h.keys, e, j, x.chain, x.n);
    }
  }

  // ---------------------------------------------------------------------------------------------
  // Spoilt.

  ghost predicate AllClear(h: History, x: Entry, st: State)
    requires h.Valid() && EntryInv(h, x)
  {
    forall k | k in StoredKeys(st) :: Clear(k, ChainOf(h, x.chain), x.n)
  }

  lemma RootIsClear(h: History, x: Entry, m: int)
    requires h.Valid() && EntryInv(h, x) && -1 <= m <= h.Top() && x.chain <= m
    ensures Clear(RootAt(h.sk, h.keys, m + 1), ChainOf(h, x.chain), x.n)
  {
    RootDepth(h.sk, h.keys, m + 1);
    RootDepth(h.sk, h.keys, x.chain);
    RootIsRoot(h.sk, h.keys, m + 1);
  }

  // A cached key is that of its slot.
  lemma CachedClear(h: History, st: State, acc: set<SkipKey>, m: int, x: Entry, j: SkipKey)
    requires h.Valid() && -1 <= m <= h.Top() && PartyInv(h, st, acc, m) && EntryInv(h, x)
    requires j in st.skipped && j != h.Slot(x.chain, x.n)
    ensures Clear(st.skipped[j], ChainOf(h, x.chain), x.n)
  {
    assert OnKnownChain(h, m, j.dh);
    var e: nat :| ReceivesOn(m, e) && j.dh == h.keys[e + 1];
    assert SlotInv(h, st, acc, m, e, j.n);
    OtherChainClear(h, x, e, j.n);
  }

  // Accepted by the conservation invariant: nothing stored leads to the key.
  lemma AcceptedClear(h: History, st: State, acc: set<SkipKey>, m: int, x: Entry)
    requires h.Valid() && -1 <= m <= h.Top() && PartyInv(h, st, acc, m) && EntryInv(h, x)
    requires h.Slot(x.chain, x.n) in acc
    ensures AllClear(h, x, st)
  {
    AcceptedChain(h, st, acc, m, x);
    assert SlotInv(h, st, acc, m, x.chain, x.n);
    RootIsClear(h, x, m);
    OtherChainClear(h, x, m, st.ns);
    if m >= 1 {
      OtherChainClear(h, x, m - 1, st.nr);
    }
    forall k | k in st.skipped.Values
      ensures Clear(k, ChainOf(h, x.chain), x.n)
    {
      var j :| j in st.skipped && st.skipped[j] == k;
      CachedClear(h, st, acc, m, x, j);
    }
  }

  // The cached key of its own slot is taken.
  lemma CachedTaken(h: History, st: State, acc: set<SkipKey>, m: int, x: Entry)
    requires h.Valid() && -1 <= m <= h.Top() && PartyInv(h, st, acc, m) && EntryInv(h, x)
    requires h.Slot(x.chain, x.n) in st.skipped
    ensures AllClear(h, x, st.(skipped := st.skipped - {h.Slot(x.chain, x.n)}))
  {
    var s := h.Slot(x.chain, x.n);
    CachedInv(h, st, acc, m, s);
    AcceptedClear(h, st.(skipped := st.skipped - {s}), acc + {s}, m, x);
  }

  // The position is taken on the current chain.
  lemma PositionTaken(h: History, st: State, acc: set<SkipKey>, m: int, x: Entry, w: Wire)
    requires h.Valid() && 1 <= m <= h.Top() && PartyInv(h, st, acc, m) && EntryInv(h, x)
    requires x.chain == m - 1 && x.n == (if w.header.n < st.nr then st.nr else w.header.n) && w.header.n <= st.nr + MAX_SKIP
    ensures AllClear(h, x, AfterReceive(st, w).0)
  {
    var s1 := AfterSkip(st, w.header.n).0;
    SkipInv(h, st, acc, m, w.header.n);
    TakeInv(h, s1, acc, m);
    AcceptedClear(h, AfterReceive(st, w).0, acc + {h.Slot(m - 1, s1.nr)}, m, x);
  }

  // ---------------------------------------------------------------------------------------------
  // What a message with an unknown ratchet key leaves.

  // How many positions of the new chain it caches; none if it is refused after the ratchet step.
  function Ahead(a: Header): nat {
    if a.n <= MAX_SKIP then a.n else 0
  }

  // The whole cache afterwards, slot by slot.
  lemma NewChainCache(st: State, w: Wire, gen: nat, q: SkipKey)
    requires st.Valid() && st.dhr != Some(w.header.dh) && w.header.pn <= st.nr + MAX_SKIP
    ensures AfterSkip(st, w.header.pn).1.None?
    ensures var a := w.header;
            var t := AfterReceive(AfterDhRatchet(AfterSkip(st, a.pn).0, a.dh, gen), w).0;
            var d := Chain(st.rk, DhOf(st.dhs, a.dh));
            var fromNew := q.dh == a.dh && q.n < Ahead(a);
            var fromOld := st.ckr.Some? && st.dhr == Some(q.dh) && st.nr <= q.n < a.pn;
            && (q in t.skipped <==> fromNew || fromOld || q in st.skipped)
            && (q in t.skipped ==>
                  t.skipped[q] == if fromNew then Message(Advance(d, q.n))
                                  else if fromOld then Message(Advance(st.ckr.value, q.n - st.nr))
                                  else st.skipped[q])
  {
    var a := w.header;
    var s1 := AfterSkip(st, a.pn).0;
    var d := Chain(st.rk, DhOf(st.dhs, a.dh));
    if st.ckr.Some? {
      ChainSliceHas(st.dhr.value, st.ckr.value, st.nr, a.pn, q);
    }
    ChainSliceHas(a.dh, d, 0, a.n, q);
  }

  // The other fields.
  lemma NewChainFields(st: State, w: Wire, gen: nat)
    requires st.Valid() && st.dhr != Some(w.header.dh) && w.header.pn <= st.nr + MAX_SKIP
    ensures AfterSkip(st, w.header.pn).1.None?
    ensures var a := w.header;
            var t := AfterReceive(AfterDhRatchet(AfterSkip(st, a.pn).0, a.dh, gen), w).0;
            var r1 := Root(st.rk, DhOf(st.dhs, a.dh));
            && t.dhs == gen && t.dhr == Some(a.dh)
            && t.rk == Root(r1, DhOf(gen, a.dh)) && t.cks == Some(Chain(r1, DhOf(gen, a.dh)))
            && t.nr == (if a.n <= MAX_SKIP then a.n + 1 else 0)
            && t.ckr == Some(Advance(Chain(st.rk, DhOf(st.dhs, a.dh)), t.nr))
  {
  }

  // A step to the chain of header `a` loses the message: it is not on that chain, or it is the one
  // whose place is taken there; it lies beyond the announced end of the current chain; its own cached
  // key is overwritten.
  predicate Lost(h: History, st: State, m: int, x: Entry, a: Header)
    requires h.Valid() && x.chain <= h.Top()
  {
    var s := h.Slot(x.chain, x.n);
    && (ReceivesOn(m, x.chain) || x.chain == m + 1)
    && (x.chain == m + 1 ==> a.dh != s.dh || x.n == a.n <= MAX_SKIP)
    && (x.chain == m - 1 && s !in st.skipped ==> x.n >= a.pn)
    && (s in st.skipped ==> x.chain < m && a.dh == s.dh && x.n < Ahead(a))
  }

  lemma NewChainKeyClear(d: Key, c: Key, j: nat, n: nat)
    requires c.Chain? && d.Chain?
    ensures (d != c || j > n) ==> Clear(Advance(d, j), c, n)
    ensures (d != c || j != n) ==> Clear(Message(Advance(d, j)), c, n)
  {
    AdvanceBase(d, j);
    AdvanceBase(c, n);
  }

  // The chain stepped to is the message's only if that is the peer's newest and its header names it.
  lemma NewChainIs(h: History, st: State, m: int, x: Entry, dh: nat)
    requires h.Valid() && -1 <= m <= h.Top() && KeysInv(h, st, m) && EntryInv(h, x)
    ensures Chain(st.rk, DhOf(st.dhs, dh)) == ChainOf(h, x.chain) ==> x.chain == m + 1 && dh == h.Slot(x.chain, x.n).dh
    ensures Depth(st.rk) == m + 1
  {
    RootDepth(h.sk, h.keys, m + 1);
    RootDepth(h.sk, h.keys, x.chain);
  }

  lemma FromNewClear(h: History, st: State, m: int, x: Entry, a: Header, n: u32)
    requires h.Valid() && -1 <= m <= h.Top() && KeysInv(h, st, m) && EntryInv(h, x) && Lost(h, st, m, x, a) && n < Ahead(a)
    ensures Clear(Message(Advance(Chain(st.rk, DhOf(st.dhs, a.dh)), n)), ChainOf(h, x.chain), x.n)
  {
    NewChainIs(h, st, m, x, a.dh);
    NewChainKeyClear(Chain(st.rk, DhOf(st.dhs, a.dh)), ChainOf(h, x.chain), n, x.n);
  }

  lemma FromOldClear(h: History, st: State, acc: set<SkipKey>, m: int, x: Entry, a: Header, n: u32)
    requires h.Valid() && -1 <= m <= h.Top() && PartyInv(h, st, acc, m) && EntryInv(h, x) && Lost(h, st, m, x, a)
    requires st.ckr.Some? && st.nr <= n < a.pn
    ensures Clear(Message(Advance(st.ckr.value, n - st.nr)), ChainOf(h, x.chain), x.n)
  {
    AdvanceAdd(ChainOf(h, m - 1), st.nr, n - st.nr);
    OtherChainClear(h, x, m - 1, n);
    if x.chain == m - 1 {
      assert SlotInv(h, st, acc, m, m - 1, x.n);
    }
  }

  lemma NewCacheClear(h: History, st: State, acc: set<SkipKey>, m: int, x: Entry, w: Wire, gen: nat, q: SkipKey)
    requires h.Valid() && -1 <= m <= h.Top() && PartyInv(h, st, acc, m) && EntryInv(h, x) && Lost(h, st, m, x, w.header)
    requires st.dhr != Some(w.header.dh) && w.header.pn <= st.nr + MAX_SKIP && AfterSkip(st, w.header.pn).1.None?
    requires q in AfterReceive(AfterDhRatchet(AfterSkip(st, w.header.pn).0, w.header.dh, gen), w).0.skipped
    ensures Clear(AfterReceive(AfterDhRatchet(AfterSkip(st, w.header.pn).0, w.header.dh, gen), w).0.skipped[q],
                  ChainOf(h, x.chain), x.n)
  {
    var a := w.header;
    NewChainCache(st, w, gen, q);
    hide AfterReceive, AfterDhRatchet, AfterSkip, Conserved, Clear;
    if q.dh == a.dh && q.n < Ahead(a) {
      FromNewClear(h, st, m, x, a, q.n);
    } else if st.ckr.Some? && st.dhr == Some(q.dh) && st.nr <= q.n < a.pn {
      FromOldClear(h, st, acc, m, x, a, q.n);
    } else {
      CachedClear(h, st, acc, m, x, q);
    }
  }

  // So every key stored after the step is clear.
  lemma NewChainClear(h: History, st: State, acc: set<SkipKey>, m: int, x: Entry, w: Wire, gen: nat)
    requires h.Valid() && -1 <= m <= h.Top() && PartyInv(h, st, acc, m) && EntryInv(h, x) && Lost(h, st, m, x, w.header)
    requires st.dhr != Some(w.header.dh) && w.header.pn <= st.nr + MAX_SKIP
    ensures AfterSkip(st, w.header.pn).1.None?
    ensures AllClear(h, x, AfterReceive(AfterDhRatchet(AfterSkip(st, w.header.pn).0, w.header.dh, gen), w).0)
  {
    var c := ChainOf(h, x.chain);
    var t := AfterReceive(AfterDhRatchet(AfterSkip(st, w.header.pn).0, w.header.dh, gen), w).0;
    NewChainFields(st, w, gen);
    NewChainIs(h, st, m, x, w.header.dh);
    RootDepth(h.sk, h.keys, x.chain);
    NewChainKeyClear(Chain(st.rk, DhOf(st.dhs, w.header.dh)), c, t.nr, x.n);
    hide AfterReceive, AfterDhRatchet, AfterSkip, Conserved;
    assert Depth(Root(st.rk, DhOf(st.dhs, w.header.dh))) == m + 2;
    assert Depth(t.rk) == m + 3 && Depth(t.cks.value) == m + 2 && Depth(c) == x.chain;
    forall k | k in t.skipped.Values
      ensures Clear(k, c, x.n)
    {
      var q :| q in t.skipped && t.skipped[q] == k;
      NewCacheClear(h, st, acc, m, x, w, gen, q);
    }
  }

  // Nothing is cached of a chain not seen yet.
  lemma NewestNotCached(h: History, st: State, acc: set<SkipKey>, m: int, x: Entry)
    requires h.Valid() && -1 <= m == h.Top() - 1 && PartyInv(h, st, acc, m) && EntryInv(h, x) && x.chain == m + 1
    ensures h.Slot(x.chain, x.n) !in st.skipped
  {
    NewestUnknown(h, m);
  }

  // A spoilt message leaves no way to its key.
  lemma SpoiltClear(h: History, st: State, acc: set<SkipKey>, m: int, x: Entry, w: Wire, gen: nat)
    requires h.Valid() && -1 <= m <= h.Top() && m + 1 >= h.Top() && PartyInv(h, st, acc, m) && EntryInv(h, x)
    requires ReceivesOn(m, x.chain) || x.chain == m + 1
    requires h.Slot(x.chain, x.n) !in acc && Spoils(st, w.header, x.wire.header)
    ensures AllClear(h, x, AfterDecrypt(st, w, gen).0)
  {
    var a, s := w.header, h.Slot(x.chain, x.n);
    if ReceivesOn(m, x.chain) {
      assert SlotInv(h, st, acc, m, x.chain, x.n);
    } else {
      NewestNotCached(h, st, acc, m, x);
    }
    if SkipKey(a.dh, a.n) in st.skipped {
      CachedTaken(h, st, acc, m, x);
    } else if st.dhr == Some(a.dh) {
      PositionTaken(h, st, acc, m, x, w);
    } else {
      NewChainClear(h, st, acc, m, x, w, gen);
    }
  }

  // ---------------------------------------------------------------------------------------------
  // Not spoilt.

  // The state opens a message of chain `c` with header `g`.
  predicate Ready(st: State, g: Header, c: Key) {
    var s := SkipKey(g.dh, g.n);
    if s in st.skipped then st.skipped[s] == Message(Advance(c, g.n))
    else if st.dhr == Some(g.dh) then st.ckr == Some(Advance(c, st.nr)) && st.nr <= g.n <= st.nr + MAX_SKIP
    else g.pn <= st.nr + MAX_SKIP && g.n <= MAX_SKIP && c == Chain(st.rk, DhOf(st.dhs, g.dh))
  }

  lemma ReadyOpens(st: State, w: Wire, c: Key, plain: Bytes, gen: nat)
    requires st.Valid() && Ready(st, w.header, c)
    requires w.ct == Sealed(Message(Advance(c, w.header.n)), w.header.n, plain, Aad(w.aad, w.header))
    ensures DecryptOn(st, w, gen).Ok? && DecryptOn(st, w, gen).value.0 == plain
  {
    if SkipKey(w.header.dh, w.header.n) !in st.skipped && st.dhr == Some(w.header.dh) {
      AdvanceAdd(c, st.nr, w.header.n - st.nr);
    }
  }

  // A message that can be delivered finds the state ready.
  lemma DeliverableReady(h: History, st: State, acc: set<SkipKey>, m: int, x: Entry)
    requires h.Valid() && -1 <= m <= h.Top() && m + 1 >= h.Top() && PartyInv(h, st, acc, m) && EntryInv(h, x)
    requires ReceivesOn(m, x.chain) || x.chain == m + 1 == h.Top()
    requires h.Slot(x.chain, x.n) !in acc && WithinSkip(st, x.wire.header)
    ensures Ready(st, x.wire.header, ChainOf(h, x.chain))
  {
    if ReceivesOn(m, x.chain) {
      assert SlotInv(h, st, acc, m, x.chain, x.n);
    } else {
      NewestNotCached(h, st, acc, m, x);
    }
  }

  // Cached positions of the current chain lie behind it.
  predicate Settled(st: State) {
    forall k | k in st.skipped :: st.dhr == Some(k.dh) ==> k.n < st.nr
  }

  lemma InvSettled(h: History, st: State, acc: set<SkipKey>, m: int)
    requires h.Valid() && -1 <= m <= h.Top() && PartyInv(h, st, acc, m)
    ensures Settled(st)
  {
    forall k | k in st.skipped && st.dhr == Some(k.dh)
      ensures k.n < st.nr
    {
      assert OnKnownChain(h, m, k.dh);
      var e: nat :| ReceivesOn(m, e) && k.dh == h.keys[e + 1];
      assert SlotInv(h, st, acc, m, e, k.n);
    }
  }

  // What a message on the current chain leaves.
  lemma CurrentFields(st: State, w: Wire, q: SkipKey)
    requires st.Valid() && st.dhr == Some(w.header.dh) && st.ckr.Some? && w.header.n <= st.nr + MAX_SKIP < U32_MAX
    ensures var t := AfterReceive(st, w).0;
            var to := if w.header.n < st.nr then st.nr else w.header.n;
            var fromOld := q.dh == w.header.dh && st.nr <= q.n < to;
            && t.dhr == st.dhr && t.dhs == st.dhs && t.rk == st.rk && t.nr == to + 1
            && t.ckr == Some(Advance(st.ckr.value, to + 1 - st.nr))
            && (q in t.skipped <==> fromOld || q in st.skipped)
            && (q in t.skipped ==>
                  t.skipped[q] == if fromOld then Message(Advance(st.ckr.value, q.n - st.nr)) else st.skipped[q])
  {
    ChainSliceHas(w.header.dh, st.ckr.value, st.nr, w.header.n, q);
  }

  lemma CurrentKeepsReady(st: State, w: Wire, g: Header, c: Key)
    requires st.Valid() && Settled(st) && st.nr + MAX_SKIP < U32_MAX && Ready(st, g, c)
    requires st.dhr == Some(w.header.dh) && SkipKey(w.header.dh, w.header.n) !in st.skipped
    requires !Spoils(st, w.header, g)
    ensures Ready(AfterReceive(st, w).0, g, c)
  {
    var a, s := w.header, SkipKey(g.dh, g.n);
    if st.ckr.Some? && a.n <= st.nr + MAX_SKIP {
      CurrentFields(st, w, s);
      hide AfterReceive;
      if st.dhr == Some(g.dh) && s !in st.skipped {
        var to := if a.n < st.nr then st.nr else a.n;
        AdvanceAdd(c, st.nr, to + 1 - st.nr);
        if g.n < to {
          AdvanceAdd(c, st.nr, g.n - st.nr);
        }
      }
    }
  }

  lemma NewChainKeepsReady(st: State, w: Wire, gen: nat, g: Header, c: Key)
    requires st.Valid() && Settled(st) && Ready(st, g, c)
    requires st.dhr != Some(w.header.dh) && SkipKey(w.header.dh, w.header.n) !in st.skipped
    requires w.header.pn <= st.nr + MAX_SKIP && !Spoils(st, w.header, g)
    ensures AfterSkip(st, w.header.pn).1.None?
    ensures Ready(AfterReceive(AfterDhRatchet(AfterSkip(st, w.header.pn).0, w.header.dh, gen), w).0, g, c)
  {
    var a, s := w.header, SkipKey(g.dh, g.n);
    NewChainFields(st, w, gen);
    NewChainCache(st, w, gen, s);
    if st.dhr == Some(g.dh) && s !in st.skipped {
      AdvanceAdd(c, st.nr, g.n - st.nr);
    }
  }

  lemma KeepsReady(st: State, w: Wire, gen: nat, g: Header, c: Key)
    requires st.Valid() && Settled(st) && st.nr + MAX_SKIP < U32_MAX && Ready(st, g, c)
    requires !Spoils(st, w.header, g)
    ensures Ready(AfterDecrypt(st, w, gen).0, g, c)
  {
    var a := w.header;
    if SkipKey(a.dh, a.n) in st.skipped {
    } else if st.dhr == Some(a.dh) {
      CurrentKeepsReady(st, w, g, c);
    } else if a.pn <= st.nr + MAX_SKIP {
      NewChainKeepsReady(st, w, gen, g, c);
    }
  }

  // ---------------------------------------------------------------------------------------------

  // A message of the peer that could be delivered now: not accepted, and within the limit.
  predicate Deliverable(s: System, p: nat, i: nat) {
    && p < |s.st| && p < |s.acc| && i < |s.log| && s.log[i].chain % 2 != p
    && !Accepted(s, p, s.log[i].wire.header) && WithinSkip(s.st[p], s.log[i].wire.header)
  }

  // `Inv` below holds in every state of a run (`RunInv`).

  // Spoilt for good.  Once anything whose header spoils it has been decrypted, opened or not, a genuine
  // message fails after any further decryptions without rollback.
  lemma SpoiltForGood(trace: seq<System>, actions: seq<Action>, j: nat, p: nat, i: nat, w: Wire, gen: nat,
                      more: seq<(Wire, nat)>, gen2: nat)
    requires Run(trace, actions) && j < |trace| && p < 2 && Inv(trace[j]) && Deliverable(trace[j], p, i)
    requires Spoils(trace[j].st[p], w.header, trace[j].log[i].wire.header)
    ensures DecryptOn(Mutated(AfterDecrypt(trace[j].st[p], w, gen).0, more), trace[j].log[i].wire, gen2).Err?
  {
    var s, x := trace[j], trace[j].log[i];
    var m := s.h.SendChain(p);
    assert PartyInv(s.h, s.st[p], s.acc[p], m) && EntryInv(s.h, x);
    PeerParity(s.h, p, x.chain);
    SpoiltClear(s.h, s.st[p], s.acc[p], m, x, w, gen);
    ClearNeverOpens(s.h, x, AfterDecrypt(s.st[p], w, gen).0, more, gen2);
  }

  // Otherwise it opens, to its plaintext, as if nothing had happened.
  lemma UnspoiltOpens(trace: seq<System>, actions: seq<Action>, j: nat, p: nat, i: nat, w: Wire, gen: nat, gen2: nat)
    requires Run(trace, actions) && j < |trace| && p < 2 && Inv(trace[j]) && Deliverable(trace[j], p, i)
    requires !Spoils(trace[j].st[p], w.header, trace[j].log[i].wire.header) && trace[j].st[p].nr + MAX_SKIP < U32_MAX
    ensures var r := DecryptOn(AfterDecrypt(trace[j].st[p], w, gen).0, trace[j].log[i].wire, gen2);
            r.Ok? && r.value.0 == trace[j].log[i].plain
  {
    var s, x := trace[j], trace[j].log[i];
    var m, st := s.h.SendChain(p), s.st[p];
    assert PartyInv(s.h, st, s.acc[p], m) && EntryInv(s.h, x);
    PeerParity(s.h, p, x.chain);
    DeliverableReady(s.h, st, s.acc[p], m, x);
    InvSettled(s.h, st, s.acc[p], m);
    KeepsReady(st, w, gen, x.wire.header, ChainOf(s.h, x.chain));
    ReadyOpens(AfterDecrypt(st, w, gen).0, x.wire, ChainOf(s.h, x.chain), x.plain, gen2);
  }

  // Which headers spoil.  In every reachable state, a message that could be delivered can still be read
  // at some time after a decryption without rollback if and only if that header does not spoil it.
  lemma SpoilsExactly(trace: seq<System>, actions: seq<Action>, j: nat, p: nat, i: nat, w: Wire, gen: nat, gen2: nat)
    requires Run(trace, actions) && j < |trace| && p < 2 && Inv(trace[j]) && Deliverable(trace[j], p, i)
    requires trace[j].st[p].nr + MAX_SKIP < U32_MAX
    ensures Spoils(trace[j].st[p], w.header, trace[j].log[i].wire.header)
            <==> forall more :: DecryptOn(Mutated(AfterDecrypt(trace[j].st[p], w, gen).0, more), trace[j].log[i].wire, gen2).Err?
  {
    var t, x := AfterDecrypt(trace[j].st[p], w, gen).0, trace[j].log[i];
    if Spoils(trace[j].st[p], w.header, x.wire.header) {
      forall more
        ensures DecryptOn(Mutated(t, more), x.wire, gen2).Err?
      {
        SpoiltForGood(trace, actions, j, p, i, w, gen, more, gen2);
      }
    } else {
      UnspoiltOpens(trace, actions, j, p, i, w, gen, gen2);
      assert Mutated(t, []) == t;
    }
  }

  // The rollback is needed.  One altered copy, its header unchanged, makes a message that could be
  // delivered fail for good if the object that failed on it is kept.
  lemma RollbackIsNeeded(trace: seq<System>, actions: seq<Action>, j: nat, p: nat, i: nat, gen: nat,
                         more: seq<(Wire, nat)>, gen2: nat)
    requires Run(trace, actions) && j < |trace| && p < 2 && Inv(trace[j]) && Deliverable(trace[j], p, i)
    ensures var s := trace[j];
            var altered := s.log[i].wire.(ct := Junk(16));
            && AfterDecrypt(s.st[p], altered, gen).1.Err?
            && DecryptOn(Mutated(AfterDecrypt(s.st[p], altered, gen).0, more), s.log[i].wire, gen2).Err?
  {
    var s, x := trace[j], trace[j].log[i];
    var m, st := s.h.SendChain(p), s.st[p];
    assert PartyInv(s.h, st, s.acc[p], m) && EntryInv(s.h, x);
    PeerParity(s.h, p, x.chain);
    DeliverableReady(s.h, st, s.acc[p], m, x);
    SpoiltForGood(trace, actions, j, p, i, x.wire.(ct := Junk(16)), gen, more, gen2);
  }
}
