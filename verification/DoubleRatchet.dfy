/**
  The Double Ratchet (crypto/core/src/double_ratchet.rs).

  `State` is the value of one side's session; the functions on it say what each operation does to
  that value.  `RatchetState` is the mutable object the code works on: every method is proved to
  take its fields from `View()` to the value the corresponding function gives, also when it fails
  half way.
 */
module DoubleRatchet {
  import opened Symbolic

  const MAX_SKIP: nat := 1000

  datatype SkipKey = SkipKey(dh: nat, n: u32)

  datatype State = State(
    dhs: nat,                     // our current ratchet key pair
    dhr: Option<nat>,             // their latest ratchet public key
    rk: Key,
    cks: Option<Key>,
    ckr: Option<Key>,
    ns: u32,
    nr: u32,
    pn: u32,
    skipped: map<SkipKey, Key>)
  {
    // A receiving chain exists only together with the remote key it came from.
    predicate Valid() {
      ckr.Some? ==> dhr.Some?
    }
  }

  /** A ratchet message as it travels: header, ciphertext and the caller's additional data. */
  datatype Wire = Wire(header: Header, ct: Cipher, aad: Bytes)

  function KdfRk(rk: Key, dh: Dh): (Key, Key) { (Root(rk, dh), Chain(rk, dh)) }

  function KdfCk(ck: Key): (Key, Key) { (Next(ck), Message(ck)) }

  // 32-bit counters: the increments wrap around, the skip bound saturates.
  function Increment(n: u32): u32 { if n == U32_MAX then 0 else n + 1 }

  function SaturatingAdd(a: u32, b: nat): u32 { if a + b <= U32_MAX then a + b else U32_MAX }

  function AfterInitSender(sk: Key, bobDhPub: nat, gen: nat): (s: State)
    ensures s.Valid()
  {
    var (rk, cks) := KdfRk(sk, DhOf(gen, bobDhPub));
    State(gen, Some(bobDhPub), rk, Some(cks), None, 0, 0, 0, map[])
  }

  function AfterInitReceiver(sk: Key, ourDhPair: nat): (s: State)
    ensures s.Valid()
  {
    State(ourDhPair, None, sk, None, None, 0, 0, 0, map[])
  }

  function AfterDhRatchet(s: State, dhrNew: nat, gen: nat): (t: State)
    ensures t.Valid() && t.ckr.Some?
  {
    var (rk1, ckr) := KdfRk(s.rk, DhOf(s.dhs, dhrNew));
    var (rk2, cks) := KdfRk(rk1, DhOf(gen, dhrNew));
    State(gen, Some(dhrNew), rk2, Some(cks), Some(ckr), 0, 0, s.ns, s.skipped)
  }

  /** The message keys of positions `from..until` of the chain whose key at `from` is `ck`. */
  function ChainSlice(dh: nat, ck: Key, from: u32, until: u32): map<SkipKey, Key> {
    if until <= from then map[]
    else ChainSlice(dh, ck, from, until - 1)[SkipKey(dh, until - 1) := Message(Advance(ck, until - 1 - from))]
  }

  function AfterSkip(s: State, until: u32): (r: (State, Option<CryptoError>))
    requires s.Valid()
    ensures r.0.Valid()
  {
    if until <= s.nr then (s, None)
    else if SaturatingAdd(s.nr, MAX_SKIP) < until then (s, Some(SkipLimitExceeded))
    else match s.ckr
      case None => (s, None)
      case Some(ck) =>
        (s.(ckr := Some(Advance(ck, until - s.nr)), nr := until,
            skipped := s.skipped + ChainSlice(s.dhr.value, ck, s.nr, until)), None)
  }

  function AfterEncrypt(s: State, plain: Bytes, aad: Bytes): (r: (State, Result<Wire>))
    requires s.Valid()
    ensures r.0.Valid()
  {
    match s.cks
    case None => (s, Err(InvalidKey))
    case Some(ck) =>
      var (newCk, mk) := KdfCk(ck);
      var header := Header(s.dhs, s.pn, s.ns);
      (s.(cks := Some(newCk), ns := Increment(s.ns)),
       Ok(Wire(header, Sealed(mk, header.n, plain, Aad(aad, header)), aad)))
  }

  function OpenWith(mk: Key, m: Wire): Result<Bytes> {
    AeadOpen(mk, m.header.n, m.ct, Aad(m.aad, m.header))
  }

  /** The last stage of decrypt, once the receiving chain is the right one. */
  function AfterReceive(s: State, m: Wire): (r: (State, Result<Bytes>))
    requires s.Valid()
    ensures r.0.Valid()
  {
    var (s1, e) := AfterSkip(s, m.header.n);
    if e.Some? then (s1, Err(e.value))
    else match s1.ckr
      case None => (s1, Err(InvalidKey))
      case Some(ck) =>
        var (newCk, mk) := KdfCk(ck);
        (s1.(ckr := Some(newCk), nr := Increment(s1.nr)), OpenWith(mk, m))
  }

  /** What decrypt leaves behind and returns.  The state changes even when the result is an error. */
  function AfterDecrypt(s: State, m: Wire, gen: nat): (r: (State, Result<Bytes>))
    requires s.Valid()
    ensures r.0.Valid()
  {
    var k := SkipKey(m.header.dh, m.header.n);
    if k in s.skipped then (s.(skipped := s.skipped - {k}), OpenWith(s.skipped[k], m))
    else if s.dhr == Some(m.header.dh) then AfterReceive(s, m)
    else
      var (s1, e) := AfterSkip(s, m.header.pn);
      if e.Some? then (s1, Err(e.value)) else AfterReceive(AfterDhRatchet(s1, m.header.dh, gen), m)
  }

  class RatchetState {
    var dhs: nat
    var dhr: Option<nat>
    var rk: Key
    var cks: Option<Key>
    var ckr: Option<Key>
    var ns: u32
    var nr: u32
    var pn: u32
    var mkskipped: map<SkipKey, Key>

    function View(): State
      reads this
    {
      State(dhs, dhr, rk, cks, ckr, ns, nr, pn, mkskipped)
    }

    ghost predicate Valid()
      reads this
    {
      View().Valid()
    }

    // `gen` is the name of the key pair the random generator returns.
    constructor InitSender(sk: Key, bobDhPub: nat, gen: nat)
      ensures View() == AfterInitSender(sk, bobDhPub, gen)
    {
      var (newRk, newCks) := KdfRk(sk, DhOf(gen, bobDhPub));
      dhs, dhr, rk := gen, Some(bobDhPub), newRk;
      cks, ckr := Some(newCks), None;
      ns, nr, pn := 0, 0, 0;
      mkskipped := map[];
    }

    constructor InitReceiver(sk: Key, ourDhPair: nat)
      ensures View() == AfterInitReceiver(sk, ourDhPair)
    {
      dhs, dhr, rk := ourDhPair, None, sk;
      cks, ckr := None, None;
      ns, nr, pn := 0, 0, 0;
      mkskipped := map[];
    }

    constructor FromValue(s: State)
      ensures View() == s
    {
      dhs, dhr, rk, cks, ckr := s.dhs, s.dhr, s.rk, s.cks, s.ckr;
      ns, nr, pn := s.ns, s.nr, s.pn;
      mkskipped := s.skipped;
    }

    method DhRatchet(dhrNew: nat, gen: nat)
      requires Valid()
      modifies this
      ensures View() == AfterDhRatchet(old(View()), dhrNew, gen)
    {
      pn := ns;
      ns := 0;
      nr := 0;
      dhr := Some(dhrNew);

      var (rk1, newCkr) := KdfRk(rk, DhOf(dhs, dhrNew));
      rk := rk1;
      ckr := Some(newCkr);

      dhs := gen;
      var (rk2, newCks) := KdfRk(rk, DhOf(dhs, dhrNew));
      rk := rk2;
      cks := Some(newCks);
    }

    method SkipMessageKeys(until: u32) returns (e: Option<CryptoError>)
      requires Valid()
      modifies this
      ensures (View(), e) == AfterSkip(old(View()), until)
    {
      if until <= nr {
        return None;
      }
      if SaturatingAdd(nr, MAX_SKIP) < until {
        return Some(SkipLimitExceeded);
      }
      if ckr == None {
        return None;
      }
      var ck := ckr.value;
      var dhrKey := dhr.value;
      ghost var s0 := View();
      while nr < until
        invariant s0.nr <= nr <= until
        invariant ck == Advance(s0.ckr.value, nr - s0.nr)
        invariant mkskipped == s0.skipped + ChainSlice(dhrKey, s0.ckr.value, s0.nr, nr)
        invariant View() == s0.(nr := nr, skipped := mkskipped)
      {
        var (newCk, mk) := KdfCk(ck);
        ck := newCk;
        mkskipped := mkskipped[SkipKey(dhrKey, nr) := mk];
        nr := nr + 1;
      }
      ckr := Some(ck);
      return None;
    }

    method Encrypt(plain: Bytes, aad: Bytes) returns (r: Result<Wire>)
      requires Valid()
      modifies this
      ensures (View(), r) == AfterEncrypt(old(View()), plain, aad)
    {
      if cks == None {
        return Err(InvalidKey);
      }
      var (newCks, mk) := KdfCk(cks.value);
      cks := Some(newCks);
      var header := Header(dhs, pn, ns);
      ns := Increment(ns);
      return Ok(Wire(header, Sealed(mk, header.n, plain, Aad(aad, header)), aad));
    }

    method Decrypt(m: Wire, gen: nat) returns (r: Result<Bytes>)
      requires Valid()
      modifies this
      ensures (View(), r) == AfterDecrypt(old(View()), m, gen)
    {
      var cacheKey := SkipKey(m.header.dh, m.header.n);
      if cacheKey in mkskipped {
        var mk := mkskipped[cacheKey];
        mkskipped := mkskipped - {cacheKey};
        return OpenWith(mk, m);
      }
      if dhr != Some(m.header.dh) {
        var e := SkipMessageKeys(m.header.pn);
        if e.Some? {
          return Err(e.value);
        }
        DhRatchet(m.header.dh, gen);
      }
      var e := SkipMessageKeys(m.header.n);
      if e.Some? {
        return Err(e.value);
      }
      if ckr == None {
        return Err(InvalidKey);
      }
      var (newCkr, mk) := KdfCk(ckr.value);
      ckr := Some(newCkr);
      nr := Increment(nr);
      r := OpenWith(mk, m);
    }
  }

  // ---------------------------------------------------------------------------------------------
  // The skip cache.

  lemma {:induction false} ChainSliceHas(dh: nat, ck: Key, from: u32, until: u32, k: SkipKey)
    ensures k in ChainSlice(dh, ck, from, until) <==> k.dh == dh && from <= k.n < until
    ensures k in ChainSlice(dh, ck, from, until) ==>
              ChainSlice(dh, ck, from, until)[k] == Message(Advance(ck, k.n - from))
    decreases until
  {
    if from < until {
      ChainSliceHas(dh, ck, from, until - 1, k);
    }
  }

  lemma {:induction false} ChainSliceSize(dh: nat, ck: Key, from: u32, until: u32)
    requires from <= until
    ensures |ChainSlice(dh, ck, from, until)| == until - from
    decreases until
  {
    if from < until {
      var rest := ChainSlice(dh, ck, from, until - 1);
      ChainSliceSize(dh, ck, from, until - 1);
      ChainSliceHas(dh, ck, from, until - 1, SkipKey(dh, until - 1));
    }
  }

  lemma MapUnionSize<K, V>(a: map<K, V>, b: map<K, V>)
    ensures |a + b| <= |a| + |b|
  {
    assert (a + b).Keys == a.Keys + b.Keys;
    assert |a.Keys + b.Keys| == |a.Keys| + |b.Keys| - |a.Keys * b.Keys|;
    assert |a + b| == |(a + b).Keys|;
  }

  lemma SkipGrowth(s: State, until: u32)
    requires s.Valid()
    ensures |AfterSkip(s, until).0.skipped| <= |s.skipped| + MAX_SKIP
  {
    if s.nr < until <= SaturatingAdd(s.nr, MAX_SKIP) && s.ckr.Some? {
      var slice := ChainSlice(s.dhr.value, s.ckr.value, s.nr, until);
      ChainSliceSize(s.dhr.value, s.ckr.value, s.nr, until);
      MapUnionSize(s.skipped, slice);
    }
  }

  // One decrypt caches at most 2 * MAX_SKIP new keys, whatever the header claims.
  lemma DecryptCacheGrowth(s: State, m: Wire, gen: nat)
    requires s.Valid()
    ensures |AfterDecrypt(s, m, gen).0.skipped| <= |s.skipped| + 2 * MAX_SKIP
  {
    var k := SkipKey(m.header.dh, m.header.n);
    if k in s.skipped {
      var rest := s.skipped - {k};
      assert rest.Keys == s.skipped.Keys - {k};
      assert |rest| == |rest.Keys|;
    } else if s.dhr == Some(m.header.dh) {
      SkipGrowth(s, m.header.n);
    } else {
      SkipGrowth(s, m.header.pn);
      var (s1, e) := AfterSkip(s, m.header.pn);
      if e.None? {
        SkipGrowth(AfterDhRatchet(s1, m.header.dh, gen), m.header.n);
      }
    }
  }

  // Why a message is refused.  The skip limit counts from the position of the chain that is skipped on; a
  // chain that is expected may be missing; anything else is the box itself.
  lemma RefusalsExactly(s: State, m: Wire, gen: nat)
    requires s.Valid()
    ensures var cached, current := SkipKey(m.header.dh, m.header.n) in s.skipped, s.dhr == Some(m.header.dh);
            var r := AfterDecrypt(s, m, gen).1;
            && (r == Err(SkipLimitExceeded)
                <==> !cached && if current then m.header.n > s.nr + 1000 else m.header.pn > s.nr + 1000 || m.header.n > 1000)
            && (r == Err(InvalidKey) <==> !cached && current && s.ckr.None? && m.header.n <= s.nr + 1000)
            && (r == Err(InvalidCiphertext) ==> m.ct.Junk? && m.ct.len < 16)
            && (r.Err? && r != Err(SkipLimitExceeded) && r != Err(InvalidKey) ==>
                  r == Err(if m.ct.Junk? && m.ct.len < 16 then InvalidCiphertext else DecryptionFailed))
  {
  }

  // Encryption is refused exactly without a sending chain, and then changes nothing.  Counters are 32 bits
  // wide: after the last number the next message has number 0 again.
  lemma EncryptNumbers(s: State, plain: Bytes, aad: Bytes)
    requires s.Valid()
    ensures var (t, r) := AfterEncrypt(s, plain, aad);
            && (r.Ok? <==> s.cks.Some?)
            && (r.Err? ==> r == Err(InvalidKey) && t == s)
            && (r.Ok? ==> r.value.header == Header(s.dhs, s.pn, s.ns) && t.ns == (s.ns + 1) % 0x1_0000_0000)
  {
  }

  lemma ReceiveNumbers(s: State, m: Wire)
    requires s.Valid() && AfterReceive(s, m).1.Ok?
    ensures AfterReceive(s, m).0.nr == ((if m.header.n > s.nr then m.header.n else s.nr) + 1) % 0x1_0000_0000
  {
  }
}
