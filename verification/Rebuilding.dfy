/**
  A responder that starts its session anew from an INIT part, in the middle of a conversation: which
  messages of the conversation open then.
 */
module Rebuilding {
  import opened Symbolic
  import opened DoubleRatchet
  import opened Worker
  import opened TwoParty
  import opened TwoPartyInvariant

  // The responder's first state, in which it knows the shared secret and its prekey.
  function Restarted(h: History): State
    requires h.Valid()
  {
    AfterInitReceiver(h.sk, h.keys[0])
  }

  // The chain the responder derives from its first state and a header with ratchet key `dh`.
  function FirstChain(h: History, dh: nat): Key
    requires h.Valid()
  {
    Chain(h.sk, DhOf(h.keys[0], dh))
  }

  // Only first-chain messages are sealed under keys of the first chain.
  lemma OnFirstChain(h: History, x: Entry, n: nat)
    requires h.Valid() && EntryInv(h, x)
    ensures Message(Advance(FirstChain(h, x.wire.header.dh), n)) == x.wire.ct.key <==> x.chain == 0 && x.n == n
  {
    var c := Chain(RootAt(h.sk, h.keys, x.chain), DhOf(h.keys[x.chain], h.keys[x.chain + 1]));
    if Advance(FirstChain(h, x.wire.header.dh), n) == Advance(c, x.n) {
      AdvanceInjective(FirstChain(h, x.wire.header.dh), n, c, x.n);
      RootDepth(h.sk, h.keys, x.chain);
    }
  }

  // A message opens in the responder's first state if and only if it is on the first chain and within
  // MAX_SKIP of its start, whether or not it has been opened before.
  lemma RestartOpens(s: System, i: nat, gen: nat)
    requires Inv(s) && i < |s.log|
    ensures var r := DecryptOn(Restarted(s.h), s.log[i].wire, gen);
            && (r.Ok? <==> s.log[i].chain == 0 && s.log[i].n <= MAX_SKIP)
            && (r.Ok? ==> r.value.0 == s.log[i].plain)
  {
    var x := s.log[i];
    assert EntryInv(s.h, x);
    OnFirstChain(s.h, x, x.n);
  }

  // The session a message of the first chain leaves behind when the responder starts anew from it.
  function AfterRestart(h: History, x: Entry, gen: nat): State
    requires h.Valid() && EntryInv(h, x)
  {
    var c, dh := FirstChain(h, h.keys[1]), h.keys[1];
    State(gen, Some(dh), Root(Root(h.sk, DhOf(h.keys[0], dh)), DhOf(gen, dh)),
          Some(Chain(Root(h.sk, DhOf(h.keys[0], dh)), DhOf(gen, dh))), Some(Advance(c, x.n + 1)), 0, Increment(x.n), 0,
          ChainSlice(dh, c, 0, x.n))
  }

  lemma RestartLeaves(h: History, x: Entry, gen: nat)
    requires h.Valid() && EntryInv(h, x) && x.chain == 0 && x.n <= MAX_SKIP
    ensures DecryptOn(Restarted(h), x.wire, gen) == Ok((x.plain, AfterRestart(h, x, gen)))
  {
    var s2 := AfterDhRatchet(Restarted(h), h.keys[1], gen);
    var s3 := AfterSkip(s2, x.n).0;
    assert map[] + ChainSlice(h.keys[1], FirstChain(h, h.keys[1]), 0, x.n) == ChainSlice(h.keys[1], FirstChain(h, h.keys[1]), 0, x.n);
    assert s3.ckr == Some(Advance(FirstChain(h, h.keys[1]), x.n)) && s3.nr == x.n;
    assert s3.skipped == ChainSlice(h.keys[1], FirstChain(h, h.keys[1]), 0, x.n);
  }

  // After starting anew from message `x`, exactly the other messages of the first chain up to MAX_SKIP
  // past it open, again whether or not they have been opened before.
  lemma ReopensAfterRestart(s: System, r: nat, i: nat, gen: nat, gen2: nat)
    requires Inv(s) && r < |s.log| && i < |s.log| && gen !in s.h.keys
    requires s.log[r].chain == 0 && s.log[r].n <= MAX_SKIP
    ensures EntryInv(s.h, s.log[r]) && AfterRestart(s.h, s.log[r], gen).Valid()
    ensures var t, x := AfterRestart(s.h, s.log[r], gen), s.log[i];
            var out := DecryptOn(t, x.wire, gen2);
            && (out.Ok? <==> x.chain == 0 && x.n != s.log[r].n && x.n <= s.log[r].n + 1 + MAX_SKIP)
            && (out.Ok? ==> out.value.0 == x.plain)
  {
    var x, t := s.log[i], AfterRestart(s.h, s.log[r], gen);
    assert EntryInv(s.h, x) && EntryInv(s.h, s.log[r]);
    ChainSliceHas(s.h.keys[1], FirstChain(s.h, s.h.keys[1]), 0, s.log[r].n, SkipKey(x.wire.header.dh, x.wire.header.n));
    if x.chain == 0 {
      SameChain(s.h, s.log[r], x, gen, gen2);
    } else {
      assert x.wire.header.dh != s.h.keys[1];
      LaterChain(s.h, s.log[r], x, gen, gen2);
    }
  }

  lemma SameChain(h: History, y: Entry, x: Entry, gen: nat, gen2: nat)
    requires h.Valid() && EntryInv(h, y) && EntryInv(h, x) && y.chain == 0 && y.n <= MAX_SKIP && x.chain == 0
    ensures var out := DecryptOn(AfterRestart(h, y, gen), x.wire, gen2);
            && (out.Ok? <==> x.n != y.n && x.n <= y.n + 1 + MAX_SKIP)
            && (out.Ok? ==> out.value.0 == x.plain)
  {
    var t, c := AfterRestart(h, y, gen), FirstChain(h, h.keys[1]);
    ChainSliceHas(h.keys[1], c, 0, y.n, SkipKey(h.keys[1], x.n));
    if x.n >= y.n {
      var s1 := AfterSkip(t, x.n).0;
      if x.n > y.n + 1 {
        AdvanceAdd(c, y.n + 1, x.n - y.n - 1);
      } else {
        assert s1 == t;
        OnFirstChain(h, x, y.n + 1);
      }
    }
  }

  lemma LaterChain(h: History, y: Entry, x: Entry, gen: nat, gen2: nat)
    requires h.Valid() && EntryInv(h, y) && EntryInv(h, x) && y.chain == 0 && y.n <= MAX_SKIP && x.chain != 0
    requires gen !in h.keys && x.wire.header.dh != h.keys[1]
    ensures DecryptOn(AfterRestart(h, y, gen), x.wire, gen2).Err?
  {
    var t := AfterRestart(h, y, gen);
    ChainSliceHas(h.keys[1], FirstChain(h, h.keys[1]), 0, y.n, SkipKey(x.wire.header.dh, x.n));
    var d := Chain(t.rk, DhOf(gen, x.wire.header.dh));
    var c := Chain(RootAt(h.sk, h.keys, x.chain), DhOf(h.keys[x.chain], h.keys[x.chain + 1]));
    if Message(Advance(d, x.n)) == x.wire.ct.key {
      AdvanceInjective(d, x.n, c, x.n);
      OtherRoot(h, x.chain, gen);
    }
  }

  // The root a restarted responder moves on to is none of the conversation's.
  lemma OtherRoot(h: History, e: nat, gen: nat)
    requires h.Valid() && e <= h.Top() && gen !in h.keys
    ensures RootAt(h.sk, h.keys, e) != Root(Root(h.sk, DhOf(h.keys[0], h.keys[1])), DhOf(gen, h.keys[1]))
  {
    RootDepth(h.sk, h.keys, e);
    if e == 2 {
      assert h.keys[2] in h.keys;
      assert RootAt(h.sk, h.keys, 2) == Root(RootAt(h.sk, h.keys, 1), DhOf(h.keys[1], h.keys[2]));
      assert DhOf(h.keys[1], h.keys[2]) != DhOf(gen, h.keys[1]);
    }
  }
}
