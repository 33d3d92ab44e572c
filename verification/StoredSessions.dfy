/** Stored sessions that can be used, and the stored sessions of a run. */
module StoredSessions {
  import opened Symbolic
  import opened ByteCodec
  import opened DoubleRatchet
  import opened Worker
  import opened TwoParty
  import opened TwoPartyInvariant
  import opened RatchetCodec

  // ---------------------------------------------------------------------------------------------
  // A receiving chain without a remote key.

  // Decrypting `w` would skip on a receiving chain whose remote key is missing, which aborts.
  predicate MissesRemoteKey(st: State, w: Wire) {
    && SkipKey(w.header.dh, w.header.n) !in st.skipped && st.ckr.Some? && st.dhr.None?
    && st.nr < w.header.pn <= SaturatingAdd(st.nr, MAX_SKIP)
  }

  // Some message makes decryption abort if and only if there is a receiving chain without a remote key
  // that has not come to its last position.
  lemma AbortsExactly(st: State)
    ensures (exists w :: MissesRemoteKey(st, w)) <==> !st.Valid() && st.nr < U32_MAX
  {
    if !st.Valid() && st.nr < U32_MAX {
      var dh := NewRemote(st.skipped.Keys);
      var w := Wire(Header(dh, st.nr + 1, 0), Junk(0), []);
      assert SkipKey(dh, 0) !in st.skipped.Keys;
      assert MissesRemoteKey(st, w);
    }
  }

  lemma {:induction false} NewRemote(cached: set<SkipKey>) returns (dh: nat)
    ensures forall k | k in cached :: k.dh < dh
    decreases cached
  {
    if cached == {} {
      dh := 0;
    } else {
      var k :| k in cached;
      var rest := NewRemote(cached - {k});
      dh := if k.dh < rest then rest else k.dh + 1;
      forall j | j in cached
        ensures j.dh < dh
      {
        assert j == k || j in cached - {k};
      }
    }
  }

  // The stored form of a session is usable exactly when the session is.
  lemma UsableAsRepresented(emb: Embedding, w: WireState, s: State)
    requires Represents(emb, w, s)
    ensures w.Usable() <==> s.Valid()
  {
  }

  // ---------------------------------------------------------------------------------------------
  // The sessions of a run.

  // Each delivery caches at most twice MAX_SKIP keys.
  lemma {:induction false} CacheOfRun(trace: seq<System>, actions: seq<Action>, j: nat, p: nat)
    requires Run(trace, actions) && j < |trace| && p < 2
    ensures |trace[j].st| == 2 && |trace[j].st[p].skipped| <= 2 * MAX_SKIP * j
    decreases j
  {
    RunInv(trace, actions, j);
    if j > 0 {
      CacheOfRun(trace, actions, j - 1, p);
      CacheStep(trace[j - 1], actions[j - 1], p);
    }
  }

  lemma CacheStep(s: System, a: Action, p: nat)
    requires Enabled(s, a) && p < 2
    ensures |Step(s, a).st| == 2 && |Step(s, a).st[p].skipped| <= |s.st[p].skipped| + 2 * MAX_SKIP
  {
    if a.Deliver? {
      DecryptCacheGrowth(s.st[a.p], a.m, a.gen);
    }
  }

  lemma {:induction false} ImageSize(emb: Embedding, cached: set<SkipKey>, ids: set<SkipId>)
    requires forall id | id in ids :: exists k :: k in cached && IdOf(emb, k) == id
    ensures |ids| <= |cached|
    decreases cached
  {
    if ids != {} {
      var id :| id in ids;
      var k :| k in cached && IdOf(emb, k) == id;
      var others, rest := ids - {id}, cached - {k};
      forall x | x in others
        ensures exists j :: j in rest && IdOf(emb, j) == x
      {
        var j :| j in cached && IdOf(emb, j) == x;
        assert j in rest;
      }
      ImageSize(emb, rest, others);
      assert ids == others + {id} && cached == rest + {k};
    }
  }

  lemma RepresentedFits(emb: Embedding, w: WireState, st: State)
    requires Represents(emb, w, st) && |st.skipped| <= U32_MAX && forall n :: |emb.public(n)| == 32
    ensures w.Fits()
  {
    ImageSize(emb, st.skipped.Keys, w.skipped.Keys);
    assert |st.skipped.Keys| == |st.skipped| && |w.skipped.Keys| == |w.skipped|;
  }

  lemma RunsAreValid(trace: seq<System>, actions: seq<Action>, j: nat, p: nat)
    requires Run(trace, actions) && j < |trace| && p < 2
    ensures |trace[j].st| == 2 && trace[j].st[p].Valid()
  {
    RunInv(trace, actions, j);
    var s := trace[j];
    hide Run, Conserved;
    assert PartyInv(s.h, s.st[p], s.acc[p], s.h.SendChain(p));
  }

  // In every run of at most about two million actions every party's session comes back from its stored
  // form as it was, and can be used.
  lemma ReachableRoundTrips(trace: seq<System>, actions: seq<Action>, j: nat, p: nat, emb: Embedding,
                            w: WireState, order: seq<SkipId>)
    requires Run(trace, actions) && j < |trace| && p < |trace[j].st| && 2 * MAX_SKIP * j <= U32_MAX
    requires w.Valid() && w.Lists(order) && Represents(emb, w, trace[j].st[p]) && forall n :: |emb.public(n)| == 32
    ensures ParseState(ToBytesIn(w, order)) == Ok(w) && w.Usable()
  {
    hide Run, ParseState, ToBytesIn, Represents;
    TwoStates(trace, actions, j);
    RunsAreValid(trace, actions, j, p);
    CacheOfRun(trace, actions, j, p);
    RepresentedFits(emb, w, trace[j].st[p]);
    UsableAsRepresented(emb, w, trace[j].st[p]);
    SerializationRoundTrip(w, order);
  }

  lemma TwoStates(trace: seq<System>, actions: seq<Action>, j: nat)
    requires Run(trace, actions) && j < |trace|
    ensures |trace[j].st| == 2
  {
    RunInv(trace, actions, j);
  }
}
