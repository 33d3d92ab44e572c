/**
  One session on its own, whatever it is given to decrypt.

  No assumption is made about the network, the names of keys or the peer.  From its first state on, a
  session's keys hang off its root in a fixed pattern; so a key that has opened a box is out of reach of
  every later state, until the session is started anew.
 */
module OneSession {
  import opened Symbolic
  import opened DoubleRatchet
  import opened Worker
  import opened TwoParty
  import opened ForwardSecrecy
  import opened Spoiling
  import opened Sessions

  // `c` is a key of a chain that started from a root before `rk`: a receiving chain when it is an even
  // number of roots before, a sending chain when it is an odd number.
  predicate OlderChain(c: Key, rk: Key) {
    Base(c).Chain? && RootKey(Base(c).rk) && Depth(c) < Depth(rk) && Origin(c) == Origin(rk)
  }

  predicate Receives(c: Key, rk: Key) {
    OlderChain(c, rk) && Depth(c) % 2 == Depth(rk) % 2
  }

  predicate Sends(c: Key, rk: Key) {
    OlderChain(c, rk) && Depth(c) % 2 != Depth(rk) % 2
  }

  // A message key of a receiving chain, behind the current position when it is on the current one.
  predicate Behind(k: Key, st: State) {
    && k.Message? && Receives(k.ck, st.rk)
    && (st.ckr.Some? && Base(k.ck) == Base(st.ckr.value) ==> Steps(k.ck) < Steps(st.ckr.value))
  }

  predicate Sound(st: State) {
    && st.Valid() && RootKey(st.rk)
    && (st.cks.Some? ==> Sends(st.cks.value, st.rk))
    && (st.ckr.Some? ==> Receives(st.ckr.value, st.rk))
    && (forall j | j in st.skipped :: Behind(st.skipped[j], st))
    && (forall i, j | i in st.skipped && j in st.skipped && st.skipped[i] == st.skipped[j] :: i == j)
  }

  lemma {:induction false} BaseFacts(c: Key)
    ensures Depth(Base(c)) == Depth(c) && Origin(Base(c)) == Origin(c) && !Base(c).Next?
    ensures Advance(Base(c), Steps(c)) == c
    decreases c
  {
    if c.Next? {
      BaseFacts(c.ck);
    }
  }

  lemma {:induction false} AdvanceFacts(c: Key, n: nat)
    ensures Base(Advance(c, n)) == Base(c) && Steps(Advance(c, n)) == Steps(c) + n
    ensures Depth(Advance(c, n)) == Depth(c) && Origin(Advance(c, n)) == Origin(c)
  {
    if n > 0 {
      AdvanceFacts(c, n - 1);
    }
  }

  // ---------------------------------------------------------------------------------------------
  // Every operation keeps the pattern.

  lemma SoundStart(sk: Key, spk: nat, gen: nat)
    requires sk.Seed?
    ensures Sound(AfterInitSender(sk, spk, gen)) && Sound(AfterInitReceiver(sk, spk))
  {
  }

  lemma SlicePositions(st: State, until: u32, j: SkipKey)
    requires Sound(st) && st.ckr.Some? && st.nr < until
    requires j in AfterSkip(st, until).0.skipped && until <= st.nr + MAX_SKIP
    ensures var t, ck := AfterSkip(st, until).0, st.ckr.value;
            if j.dh == st.dhr.value && st.nr <= j.n < until
            then t.skipped[j] == Message(Advance(ck, j.n - st.nr))
            else j in st.skipped && t.skipped[j] == st.skipped[j]
  {
    ChainSliceHas(st.dhr.value, st.ckr.value, st.nr, until, j);
  }

  lemma SoundSkip(st: State, until: u32)
    requires Sound(st)
    ensures Sound(AfterSkip(st, until).0) && AfterSkip(st, until).0.rk == st.rk
  {
    var t := AfterSkip(st, until).0;
    if t != st {
      var ck := st.ckr.value;
      AdvanceFacts(ck, until - st.nr);
      forall j | j in t.skipped
        ensures Behind(t.skipped[j], t)
      {
        SlicePositions(st, until, j);
        if j.dh == st.dhr.value && st.nr <= j.n < until {
          AdvanceFacts(ck, j.n - st.nr);
        } else {
          assert Behind(st.skipped[j], st);
        }
      }
      forall i, j | i in t.skipped && j in t.skipped && t.skipped[i] == t.skipped[j]
        ensures i == j
      {
        SkipDistinct(st, until, i, j);
      }
    }
  }

  lemma SkipDistinct(st: State, until: u32, i: SkipKey, j: SkipKey)
    requires Sound(st) && AfterSkip(st, until).0 != st
    requires var t := AfterSkip(st, until).0; i in t.skipped && j in t.skipped && t.skipped[i] == t.skipped[j]
    ensures i == j
  {
    var ck := st.ckr.value;
    SlicePositions(st, until, i);
    SlicePositions(st, until, j);
    if i.dh == st.dhr.value && st.nr <= i.n < until {
      AdvanceFacts(ck, i.n - st.nr);
    } else {
      assert Behind(st.skipped[i], st);
    }
    if j.dh == st.dhr.value && st.nr <= j.n < until {
      AdvanceFacts(ck, j.n - st.nr);
    } else {
      assert Behind(st.skipped[j], st);
    }
  }

  lemma SoundRatchet(st: State, dhr: nat, gen: nat)
    requires Sound(st)
    ensures Sound(AfterDhRatchet(st, dhr, gen)) && Origin(AfterDhRatchet(st, dhr, gen).rk) == Origin(st.rk)
    ensures Depth(AfterDhRatchet(st, dhr, gen).rk) == Depth(st.rk) + 2
  {
    var t := AfterDhRatchet(st, dhr, gen);
    forall j | j in t.skipped
      ensures Behind(t.skipped[j], t)
    {
      assert Behind(st.skipped[j], st);
      BaseFacts(st.skipped[j].ck);
    }
  }

  // `k` has been taken: it is behind the session's position and not among its cached keys.
  ghost predicate Taken(k: Key, st: State) {
    Behind(k, st) && forall j | j in st.skipped :: st.skipped[j] != k
  }

  lemma SoundReceive(st: State, w: Wire)
    requires Sound(st)
    ensures var (t, r) := AfterReceive(st, w);
            Sound(t) && t.rk == st.rk && (r.Ok? ==> w.ct.Sealed? && Taken(w.ct.key, t))
  {
    SoundSkip(st, w.header.n);
    var s1 := AfterSkip(st, w.header.n).0;
    if AfterSkip(st, w.header.n).1.None? && s1.ckr.Some? {
      var t := AfterReceive(st, w).0;
      forall j | j in t.skipped
        ensures Behind(t.skipped[j], t) && t.skipped[j] != Message(s1.ckr.value)
      {
        assert Behind(s1.skipped[j], s1);
      }
    }
  }

  lemma SoundDecrypt(st: State, w: Wire, gen: nat)
    requires Sound(st)
    ensures var (t, r) := AfterDecrypt(st, w, gen);
            && Sound(t) && Origin(t.rk) == Origin(st.rk) && Depth(t.rk) % 2 == Depth(st.rk) % 2
            && (r.Ok? ==> w.ct.Sealed? && Taken(w.ct.key, t))
  {
    var k := SkipKey(w.header.dh, w.header.n);
    if k in st.skipped {
      var t := AfterDecrypt(st, w, gen).0;
      assert Behind(st.skipped[k], st);
      forall j | j in t.skipped
        ensures Behind(t.skipped[j], t)
      {
        assert Behind(st.skipped[j], st);
      }
    } else if st.dhr == Some(w.header.dh) {
      SoundReceive(st, w);
    } else {
      SoundSkip(st, w.header.pn);
      var s1 := AfterSkip(st, w.header.pn).0;
      SoundRatchet(s1, w.header.dh, gen);
      SoundReceive(AfterDhRatchet(s1, w.header.dh, gen), w);
    }
  }

  // An encryption seals under the current sending key.
  lemma SoundEncrypt(st: State, plain: Bytes, aad: Bytes)
    requires Sound(st)
    ensures var (t, r) := AfterEncrypt(st, plain, aad);
            && Sound(t) && t.rk == st.rk
            && (r.Ok? ==> r.value.ct.Sealed? && r.value.ct.key.Message? && Sends(r.value.ct.key.ck, st.rk))
  {
    var t := AfterEncrypt(st, plain, aad).0;
    forall j | j in t.skipped
      ensures Behind(t.skipped[j], t)
    {
      assert Behind(st.skipped[j], st);
    }
  }

  // ---------------------------------------------------------------------------------------------
  // A taken key is out of reach.

  lemma TakenIsGone(k: Key, st: State)
    requires Sound(st) && Taken(k, st)
    ensures !Within(k, StoredKeys(st))
  {
    var c, n := Base(k.ck), Steps(k.ck);
    BaseFacts(k.ck);
    forall x | x in StoredKeys(st)
      ensures Clear(x, c, n)
    {
      StoredClear(k, st, x);
    }
    ChainClear(c, n, n, StoredKeys(st));
    assert k !in StoredKeys(st) by {
      assert !Clear(k, c, n);
    }
  }

  lemma StoredClear(k: Key, st: State, x: Key)
    requires Sound(st) && Taken(k, st) && x in StoredKeys(st)
    ensures Clear(x, Base(k.ck), Steps(k.ck))
  {
    BaseFacts(k.ck);
    if x in st.skipped.Values {
      var j :| j in st.skipped && st.skipped[j] == x;
      assert Behind(x, st);
    } else if st.ckr == Some(x) {
      BaseFacts(x);
    } else if st.cks == Some(x) {
      BaseFacts(x);
    }
  }

  // ---------------------------------------------------------------------------------------------
  // The saves of one conversation.

  /** Every session starts from a byte string the key agreement returned. */
  predicate Seeded(h: seq<Attempt>) {
    forall i | 0 <= i < |h| :: !h[i].Dec? ==> h[i].sk.Seed?
  }

  lemma ApplySound(a: Attempt, session: Session)
    requires (session.Some? ==> Sound(session.value)) && (!a.Dec? ==> a.sk.Seed?) && Apply(a, session).Some?
    ensures var (out, t) := Apply(a, session).value;
            && Sound(t)
            && (a.Enc? ==>
                  && out.Cipher? && out.wire.ct.Sealed? && out.wire.ct.key.Message?
                  && Sends(out.wire.ct.key.ck, t.rk))
            && (!a.Enc? ==> a.wire.ct.Sealed? && Taken(a.wire.ct.key, t))
  {
    hide Sound, AfterDecrypt, AfterEncrypt, AfterInitSender, AfterInitReceiver;
    match a
    case Enc(plain, sk, _, spk, gen) =>
      SoundStart(sk, spk, gen);
      SoundEncrypt(if session.Some? then session.value else AfterInitSender(sk, spk, gen), plain, []);
    case Dec(w, gen) => SoundDecrypt(session.value, w, gen);
    case InitDec(sk, spk, w, gen) =>
      SoundStart(sk, spk, gen);
      SoundDecrypt(AfterInitReceiver(sk, spk), w, gen);
  }

  lemma ReplayNext(h: seq<Attempt>, n: nat)
    requires n < |h|
    ensures Replay(h[..n + 1]) == match Apply(h[n], Replay(h[..n])) case None => Replay(h[..n]) case Some((_, t)) => Some(t)
  {
    assert h[..n + 1][..n] == h[..n];
  }

  lemma {:induction false} ReplaySound(h: seq<Attempt>, n: nat)
    requires Seeded(h) && n <= |h|
    ensures Replay(h[..n]).Some? ==> Sound(Replay(h[..n]).value)
  {
    if n > 0 {
      hide Sound, Apply, Replay;
      ReplaySound(h, n - 1);
      ReplayNext(h, n - 1);
      if Apply(h[n - 1], Replay(h[..n - 1])).Some? {
        ApplySound(h[n - 1], Replay(h[..n - 1]));
      }
    }
  }

  // The save at `z` starts the session anew from an INIT part.
  predicate Restarts(h: seq<Attempt>, z: nat) {
    z < |h| && h[z].InitDec? && Apply(h[z], Replay(h[..z])).Some?
  }

  lemma ApplyWithin(a: Attempt, st: State, k: Key)
    requires st.Valid() && !a.InitDec? && Apply(a, Some(st)).Some? && k in StoredKeys(Apply(a, Some(st)).value.1)
    ensures Within(k, StoredKeys(st))
  {
    if a.Enc? {
      assert st.cks.value in StoredKeys(st);
      assert k in StoredKeys(st) || k == Next(st.cks.value);
    } else {
      hide AfterDecrypt, StoredKeys;
      DecryptWithin(st, a.wire, a.gen, k);
    }
  }

  // Between restarts nothing comes within reach that was not.
  lemma {:induction false} ReplayWithin(h: seq<Attempt>, x: nat, y: nat, k: Key)
    requires x <= y <= |h| && Replay(h[..x]).Some? && (forall z | x <= z < y :: !Restarts(h, z))
    ensures Replay(h[..y]).Some?
    ensures k in StoredKeys(Replay(h[..y]).value) ==> Within(k, StoredKeys(Replay(h[..x]).value))
    decreases y
  {
    if y > x {
      var s := Replay(h[..y - 1]);
      hide Replay, Apply, StoredKeys;
      ReplayWithin(h, x, y - 1, k);
      ReplayNext(h, y - 1);
      assert !Restarts(h, y - 1);
      if Apply(h[y - 1], s).Some? && k in StoredKeys(Replay(h[..y]).value) {
        ApplyWithin(h[y - 1], s.value, k);
        forall j | j in StoredKeys(s.value)
          ensures Within(j, StoredKeys(Replay(h[..x]).value))
        {
          ReplayWithin(h, x, y - 1, j);
        }
        WithinTransitive(k, StoredKeys(Replay(h[..x]).value), StoredKeys(s.value));
      }
    }
  }

  // Decryption `x` of a conversation succeeds.
  predicate Opens(h: seq<Attempt>, x: nat) {
    x < |h| && !h[x].Enc? && Apply(h[x], Replay(h[..x])).Some?
  }

  // Exactly once, whatever happens in between: a frame that has been opened is opened again only if the
  // session has been started anew since, if only by opening it.
  lemma OpenedAgain(h: seq<Attempt>, x: nat, y: nat)
    requires Seeded(h) && x < y && Opens(h, x) && Opens(h, y) && h[x].wire == h[y].wire
    ensures exists z :: x < z <= y && Restarts(h, z)
  {
    if forall z | x < z <= y :: !Restarts(h, z) {
      var w := h[x].wire;
      ReplaySound(h, x);
      ReplayNext(h, x);
      hide Replay, Sound, Taken, StoredKeys;
      ApplySound(h[x], Replay(h[..x]));
      var s := Replay(h[..x + 1]);
      TakenIsGone(w.ct.key, s.value);
      ReplayWithin(h, x + 1, y, w.ct.key);
      var t := Replay(h[..y]).value;
      assert !Restarts(h, y) && h[y].Dec?;
      DecryptWithin(t, w, h[y].gen, w.ct.key);
      forall j | j in StoredKeys(t)
        ensures Within(j, StoredKeys(s.value))
      {
        ReplayWithin(h, x + 1, y, j);
      }
      WithinTransitive(w.ct.key, StoredKeys(s.value), StoredKeys(t));
    }
  }

  // ---------------------------------------------------------------------------------------------
  // Where a session comes from, and what is sealed and opened in it.

  /** How a session was started, and from which shared secret. */
  datatype Start = Sender(sk: Key) | Receiver(sk: Key)

  // The last start among the saves.
  function StartOf(h: seq<Attempt>): Option<Start> {
    if h == [] then None
    else
      var init, a := h[..|h| - 1], h[|h| - 1];
      if Apply(a, Replay(init)).None? then StartOf(init)
      else match a
        case InitDec(sk, _, _, _) => Some(Receiver(sk))
        case Enc(_, sk, _, _, _) => if Replay(init).None? then Some(Sender(sk)) else StartOf(init)
        case Dec(_, _) => StartOf(init)
  }

  predicate StartedBy(st: State, start: Start) {
    Origin(st.rk) == start.sk && Depth(st.rk) % 2 == if start.Sender? then 1 else 0
  }

  lemma ApplyStart(a: Attempt, session: Session, start: Option<Start>)
    requires (session.Some? ==> Sound(session.value) && start.Some? && StartedBy(session.value, start.value))
    requires (!a.Dec? ==> a.sk.Seed?) && Apply(a, session).Some?
    ensures var t := Apply(a, session).value.1;
            match a
            case InitDec(sk, _, _, _) => StartedBy(t, Receiver(sk))
            case Enc(_, sk, _, _, _) => if session.None? then StartedBy(t, Sender(sk)) else StartedBy(t, start.value)
            case Dec(_, _) => session.Some? && StartedBy(t, start.value)
  {
    hide Sound, AfterDecrypt;
    match a
    case Enc(plain, sk, _, spk, gen) =>
      assert Depth(sk) == 0 && Origin(sk) == sk;
      assert Apply(a, session).value.1.rk == if session.Some? then session.value.rk else AfterInitSender(sk, spk, gen).rk;
    case Dec(w, gen) => SoundDecrypt(session.value, w, gen);
    case InitDec(sk, spk, w, gen) =>
      SoundStart(sk, spk, gen);
      SoundDecrypt(AfterInitReceiver(sk, spk), w, gen);
  }

  lemma StartNext(h: seq<Attempt>, n: nat)
    requires n < |h|
    ensures StartOf(h[..n + 1])
         == if Apply(h[n], Replay(h[..n])).None? then StartOf(h[..n])
            else match h[n]
              case InitDec(sk, _, _, _) => Some(Receiver(sk))
              case Enc(_, sk, _, _, _) => if Replay(h[..n]).None? then Some(Sender(sk)) else StartOf(h[..n])
              case Dec(_, _) => StartOf(h[..n])
  {
    assert h[..n + 1][..n] == h[..n];
  }

  lemma {:induction false} ReplayStart(h: seq<Attempt>, n: nat)
    requires Seeded(h) && n <= |h|
    ensures Replay(h[..n]).Some? ==> StartOf(h[..n]).Some? && StartedBy(Replay(h[..n]).value, StartOf(h[..n]).value)
  {
    if n == 0 {
      assert h[..0] == [];
    } else {
      hide Sound, StartedBy, Apply, Replay, StartOf;
      ReplayStart(h, n - 1);
      ReplaySound(h, n - 1);
      ReplayNext(h, n - 1);
      StartNext(h, n - 1);
      if Apply(h[n - 1], Replay(h[..n - 1])).Some? {
        ApplyStart(h[n - 1], Replay(h[..n - 1]), StartOf(h[..n - 1]));
      }
    }
  }

  // The key of a saved encryption or opening belongs to the session it is saved with: the initiator
  // seals, and the responder opens, an even number of roots from the shared secret.
  lemma KeyParity(h: seq<Attempt>, n: nat)
    requires Seeded(h) && n < |h| && Apply(h[n], Replay(h[..n])).Some?
    ensures StartOf(h[..n + 1]).Some?
    ensures var out, start := Apply(h[n], Replay(h[..n])).value.0, StartOf(h[..n + 1]).value;
            && (h[n].Enc? ==>
                  && out.Cipher? && out.wire.ct.Sealed? && Origin(out.wire.ct.key) == start.sk
                  && Depth(out.wire.ct.key) % 2 == if start.Sender? then 0 else 1)
            && (!h[n].Enc? ==>
                  && h[n].wire.ct.Sealed? && Origin(h[n].wire.ct.key) == start.sk
                  && Depth(h[n].wire.ct.key) % 2 == if start.Sender? then 1 else 0)
  {
    ReplaySound(h, n);
    ReplayStart(h, n + 1);
    ReplayNext(h, n);
    hide Replay, StartOf, Apply, Sound;
    ApplySound(h[n], Replay(h[..n]));
  }

  // ---------------------------------------------------------------------------------------------
  // Two clients.

  // Save `m` put out box `ct`.
  predicate PutsOut(h: seq<Attempt>, m: nat, ct: Symbolic.Cipher) {
    && m < |h| && h[m].Enc? && Apply(h[m], Replay(h[..m])).Some?
    && Apply(h[m], Replay(h[..m])).value.0.Cipher? && Apply(h[m], Replay(h[..m])).value.0.wire.ct == ct
  }

  // Save `m` put out message `w` for `bytes`.
  predicate Sent(h: seq<Attempt>, m: nat, w: Wire, bytes: Bytes) {
    && m < |h| && h[m].Enc? && h[m].plain == bytes && Apply(h[m], Replay(h[..m])).Some?
    && Apply(h[m], Replay(h[..m])).value.0.Cipher? && Apply(h[m], Replay(h[..m])).value.0.wire == w
  }

  ghost predicate WasSent(h: seq<Attempt>, w: Wire, bytes: Bytes) {
    exists m: nat :: Sent(h, m, w, bytes)
  }

  // Boxes under keys that come from `sk` are the clients' own.
  ghost predicate NobodyElse(hs: seq<seq<Attempt>>, sk: Key) {
    forall p: nat, n: nat | p < |hs| && Opens(hs[p], n) && hs[p][n].wire.ct.Sealed? && Origin(hs[p][n].wire.ct.key) == sk ::
      exists q: nat, m: nat :: q < |hs| && PutsOut(hs[q], m, hs[p][n].wire.ct)
  }

  // Under `sk` client 0 only ever starts as the initiator and client 1 as the responder.
  ghost predicate Roles(hs: seq<seq<Attempt>>, sk: Key) {
    && |hs| == 2
    && (forall n: nat | n <= |hs[0]| :: StartOf(hs[0][..n]) != Some(Receiver(sk)))
    && (forall n: nat | n <= |hs[1]| :: StartOf(hs[1][..n]) != Some(Sender(sk)))
  }

  // Authenticity with sessions rebuilt any number of times and INIT parts from anybody: what is opened
  // in a session that comes from `sk` is a message of the peer, unaltered.
  lemma AuthenticOpening(hs: seq<seq<Attempt>>, sk: Key, p: nat, n: nat)
    requires Roles(hs, sk) && NobodyElse(hs, sk) && Seeded(hs[0]) && Seeded(hs[1]) && p < 2 && Opens(hs[p], n)
    requires StartOf(hs[p][..n + 1]).Some? && StartOf(hs[p][..n + 1]).value.sk == sk
    ensures var out := Apply(hs[p][n], Replay(hs[p][..n])).value.0;
            out.Plain? && WasSent(hs[1 - p], hs[p][n].wire, out.bytes)
  {
    hide Apply, StartOf, Replay;
    KeyParity(hs[p], n);
    var w := hs[p][n].wire;
    var q: nat, m: nat :| q < |hs| && PutsOut(hs[q], m, w.ct);
    KeyParity(hs[q], m);
    assert q == 1 - p;
    SentAndOpened(hs[q][m], Replay(hs[q][..m]), hs[p][n], Replay(hs[p][..n]));
    assert Sent(hs[q], m, w, Apply(hs[p][n], Replay(hs[p][..n])).value.0.bytes);
  }

  // A box opens only as the message it was sealed as.
  lemma SentAndOpened(a: Attempt, s: Session, b: Attempt, t: Session)
    requires a.Enc? && Apply(a, s).Some? && !b.Enc? && Apply(b, t).Some?
    requires Apply(a, s).value.0.Cipher? && Apply(a, s).value.0.wire.ct == b.wire.ct
    ensures Apply(b, t).value.0 == Plain(a.plain) && Apply(a, s).value.0.wire == b.wire
  {
    if b.Dec? {
      OpensAs(t.value, b.wire, b.gen);
    } else {
      OpensAs(AfterInitReceiver(b.sk, b.spk), b.wire, b.gen);
    }
  }

  lemma OpensAs(st: State, w: Wire, gen: nat)
    requires st.Valid() && DecryptOn(st, w, gen).Ok?
    ensures w.ct.Sealed? && w.ct.aad == Aad(w.aad, w.header) && DecryptOn(st, w, gen).value.0 == w.ct.plain
  {
  }
}
