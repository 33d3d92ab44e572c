/**
  `drEncrypt` and `drDecrypt` over the stored sessions (client/src/hooks/useE2E.ts): concurrent
  calls, each under the lock of its conversation, loading the session, running the ratchet in the
  worker and saving the result before anything is returned.  Loads and saves may fail; a failed save
  may or may not have reached the store.
 */
module Sessions {
  import opened Symbolic
  import opened DoubleRatchet
  import opened Worker

  /** A call.  The key agreement's results and the names of generated keys are parameters. */
  datatype Op =
    | Encrypt(plain: Bytes, sk: Key, initMsg: Bytes, spk: nat, gen: nat)
    | Decrypt(init: Option<Key>, wire: Wire, spk: nat, gen: nat, gen2: nat)

  datatype Output =
    | Cipher(init: Option<Bytes>, wire: Wire)
    | Plain(bytes: Bytes)

  /** One run of the ratchet: encrypt, decrypt with the stored session, or start a session and decrypt. */
  datatype Attempt =
    | Enc(plain: Bytes, sk: Key, initMsg: Bytes, spk: nat, gen: nat)
    | Dec(wire: Wire, gen: nat)
    | InitDec(sk: Key, spk: nat, wire: Wire, gen: nat)

  type Session = o: Option<State> | o.Some? ==> o.value.Valid() witness None

  function Decrypted(s: State, w: Wire, gen: nat): (r: Option<(Output, State)>)
    requires s.Valid()
    ensures r.Some? ==> r.value.1.Valid()
  {
    match DecryptOn(s, w, gen)
    case Ok((plain, t)) => Some((Plain(plain), t))
    case Err(_) => None
  }

  // What an attempt returns and saves; None when it throws.
  function Apply(a: Attempt, session: Session): (r: Option<(Output, State)>)
    ensures r.Some? ==> r.value.1.Valid()
  {
    match a
    case Enc(plain, sk, initMsg, spk, gen) =>
      (var s := if session.Some? then session.value else AfterInitSender(sk, spk, gen);
       match EncryptOn(s, plain, [])
       case Ok((w, t)) => Some((Cipher(if session.Some? then None else Some(initMsg), w), t))
       case Err(_) => None)
    case Dec(w, gen) => if session.Some? then Decrypted(session.value, w, gen) else None
    case InitDec(sk, spk, w, gen) => Decrypted(AfterInitReceiver(sk, spk), w, gen)
  }

  // The attempts a call makes, given the loaded session; the second only if the first one fails.
  // An ordinary frame without a session is answered with null.
  function Attempts(op: Op, loaded: Session): seq<Attempt> {
    match op
    case Encrypt(plain, sk, initMsg, spk, gen) => [Enc(plain, sk, initMsg, spk, gen)]
    case Decrypt(init, w, spk, gen, gen2) =>
      (if loaded.Some? then [Dec(w, gen)] else [])
      + (if init.Some? then [InitDec(init.value, spk, w, gen2)] else [])
  }

  // The attempts an operation can make at all.
  predicate AttemptOf(op: Op, a: Attempt) {
    match op
    case Encrypt(plain, sk, initMsg, spk, gen) => a == Enc(plain, sk, initMsg, spk, gen)
    case Decrypt(init, w, spk, gen, gen2) =>
      a == Dec(w, gen) || (init.Some? && a == InitDec(init.value, spk, w, gen2))
  }

  // The first attempt that succeeds.
  function FirstSuccess(attempts: seq<Attempt>, loaded: Session): (r: Option<(Output, State)>)
    ensures r.Some? ==> r.value.1.Valid()
  {
    if attempts == [] then None
    else if Apply(attempts[0], loaded).Some? then Apply(attempts[0], loaded)
    else FirstSuccess(attempts[1..], loaded)
  }

  lemma FirstOfOne(a: Attempt, loaded: Session)
    ensures FirstSuccess([a], loaded) == Apply(a, loaded)
  {
    assert [a][1..] == [];
  }

  // A decryption tries the loaded session first, then the session the INIT part starts.
  lemma FirstOfDecrypt(init: Option<Key>, w: Wire, spk: nat, gen: nat, gen2: nat, loaded: Session)
    ensures FirstSuccess(Attempts(Decrypt(init, w, spk, gen, gen2), loaded), loaded)
         == if Apply(Dec(w, gen), loaded).Some? then Apply(Dec(w, gen), loaded)
            else if init.Some? then Apply(InitDec(init.value, spk, w, gen2), loaded) else None
  {
    var first := Dec(w, gen);
    FirstOfOne(first, loaded);
    if init.Some? {
      var second := InitDec(init.value, spk, w, gen2);
      FirstOfOne(second, loaded);
      assert [first] + [second] == [first, second] && [first, second][1..] == [second] && [] + [second] == [second];
    } else {
      assert [first] + [] == [first];
    }
  }

  datatype CallResult = Returns(out: Output) | ReturnsNull | Throws

  // A call on its own, with nothing failing but the ratchet: its result, and the session it saves.
  function Alone(op: Op, loaded: Session): (CallResult, Session) {
    var attempts := Attempts(op, loaded);
    if attempts == [] then (ReturnsNull, loaded)
    else match FirstSuccess(attempts, loaded)
      case None => (Throws, loaded)
      case Some((out, t)) => (Returns(out), Some(t))
  }

  /** The two operations between taking and releasing the lock of conversation `key`. */
  class RatchetStore {
    var sessions: map<string, State>

    ghost predicate Valid()
      reads this
    {
      forall k | k in sessions :: sessions[k].Valid()
    }

    function Loaded(key: string): Session
      requires Valid()
      reads this
    {
      if key in sessions then Some(sessions[key]) else None
    }

    constructor ()
      ensures Valid() && sessions == map[]
    {
      sessions := map[];
    }

    method DrEncrypt(key: string, plain: Bytes, sk: Key, initMsg: Bytes, spk: nat, gen: nat) returns (r: CallResult)
      requires Valid()
      modifies this
      ensures Valid() && (r, Loaded(key)) == Alone(Encrypt(plain, sk, initMsg, spk, gen), old(Loaded(key)))
      ensures sessions - {key} == old(sessions) - {key}
    {
      FirstOfOne(Enc(plain, sk, initMsg, spk, gen), Loaded(key));
      var session: State, init: Option<Bytes>;
      if key in sessions {
        session, init := sessions[key], None;
      } else {
        var s := new RatchetState.InitSender(sk, spk, gen);
        session, init := s.View(), Some(initMsg);
      }
      var sealed := RatchetEncrypt(session, plain, []);
      if sealed.Err? {
        return Throws;
      }
      sessions := sessions[key := sealed.value.1];
      return Returns(Cipher(init, sealed.value.0));
    }

    method DrDecrypt(key: string, init: Option<Key>, wire: Wire, spk: nat, gen: nat, gen2: nat) returns (r: CallResult)
      requires Valid()
      modifies this
      ensures Valid() && (r, Loaded(key)) == Alone(Decrypt(init, wire, spk, gen, gen2), old(Loaded(key)))
      ensures sessions - {key} == old(sessions) - {key}
    {
      FirstOfDecrypt(init, wire, spk, gen, gen2, Loaded(key));
      if init.Some? {
        if key in sessions {
          var first := RatchetDecrypt(sessions[key], wire, gen);
          if first.Ok? {
            sessions := sessions[key := first.value.1];
            return Returns(Plain(first.value.0));
          }
        }
        var s := new RatchetState.InitReceiver(init.value, spk);
        var second := RatchetDecrypt(s.View(), wire, gen2);
        if second.Err? {
          return Throws;
        }
        sessions := sessions[key := second.value.1];
        return Returns(Plain(second.value.0));
      }
      if key !in sessions {
        return ReturnsNull;
      }
      var second := RatchetDecrypt(sessions[key], wire, gen);
      if second.Err? {
        return Throws;
      }
      sessions := sessions[key := second.value.1];
      return Returns(Plain(second.value.0));
    }
  }

  // ---------------------------------------------------------------------------------------------
  // Sequential meaning: the sessions after a sequence of saves.

  function Replay(h: seq<Attempt>): Session {
    if h == [] then None
    else match Apply(h[|h| - 1], Replay(h[..|h| - 1]))
      case None => Replay(h[..|h| - 1])
      case Some((_, t)) => Some(t)
  }

  /** A save that reached the store: its conversation, the call that made it, and what it ran. */
  datatype Saved = Saved(key: string, task: nat, a: Attempt)

  // The attempts of one conversation, in the order of their saves.
  function On(log: seq<Saved>, key: string): seq<Attempt> {
    if log == [] then []
    else
      var before, x := On(log[..|log| - 1], key), log[|log| - 1];
      if x.key == key then before + [x.a] else before
  }

  function SessionOf(log: seq<Saved>, key: string): Session {
    Replay(On(log, key))
  }

  // What the attempt of a save returns.
  function OutputOf(log: seq<Saved>, i: nat): Option<Output>
    requires i < |log|
  {
    match Apply(log[i].a, SessionOf(log[..i], log[i].key))
    case None => None
    case Some((out, _)) => Some(out)
  }

  function Names(a: Attempt): set<nat> {
    match a
    case Enc(_, _, _, spk, gen) => {spk, gen}
    case Dec(w, gen) => {w.header.dh, gen}
    case InitDec(_, spk, w, gen) => {spk, w.header.dh, gen}
  }

  function NamesIn(log: seq<Saved>): set<nat> {
    set i, x | 0 <= i < |log| && x in Names(log[i].a) :: x
  }

  // Every generated key is new: it differs from every name that occurred before, in any conversation.
  ghost predicate FreshKeys(log: seq<Saved>) {
    forall i | 0 <= i < |log| :: log[i].a.gen !in NamesIn(log[..i])
  }

  lemma SessionAppend(log: seq<Saved>, x: Saved, key: string)
    ensures SessionOf(log + [x], key)
         == if key != x.key then SessionOf(log, key)
            else match Apply(x.a, SessionOf(log, key)) case None => SessionOf(log, key) case Some((_, t)) => Some(t)
  {
    assert (log + [x])[..|log|] == log;
    assert (On(log, key) + [x.a])[..|On(log, key)|] == On(log, key);
  }

  lemma OutputAppend(log: seq<Saved>, x: Saved, i: nat)
    requires i <= |log|
    ensures i < |log| ==> OutputOf(log + [x], i) == OutputOf(log, i)
    ensures i == |log| ==>
              OutputOf(log + [x], i) == match Apply(x.a, SessionOf(log, x.key)) case None => None case Some((out, _)) => Some(out)
  {
    assert (log + [x])[..i] == log[..i];
    assert log[..|log|] == log;
  }

  lemma NamesGrow(log: seq<Saved>, x: Saved)
    ensures NamesIn(log + [x]) == NamesIn(log) + Names(x.a)
  {
    var g := log + [x];
    forall n | n in NamesIn(log) + Names(x.a)
      ensures n in NamesIn(g)
    {
      if n in Names(x.a) {
        assert n in Names(g[|log|].a);
      } else {
        var i :| 0 <= i < |log| && n in Names(log[i].a);
        assert n in Names(g[i].a);
      }
    }
  }

  // ---------------------------------------------------------------------------------------------
  // Sending chains.

  function Sending(s: Session): Option<Key> {
    if s.Some? then s.value.cks else None
  }

  // A sending chain is derived from names that occurred.
  predicate ChainOver(ck: Key, names: set<nat>) {
    Base(ck).Chain? && Base(ck).dh.lo in names && Base(ck).dh.hi in names
  }

  predicate NewOver(ck: Key, names: set<nat>) {
    Base(ck).Chain? && (Base(ck).dh.lo !in names || Base(ck).dh.hi !in names)
  }

  lemma DecryptSendingChain(s: State, w: Wire, gen: nat)
    requires s.Valid()
    ensures var t := AfterDecrypt(s, w, gen).0;
            t.cks == s.cks || (t.cks.Some? && t.cks.value.Chain? && t.cks.value.dh == DhOf(gen, w.header.dh))
  {
  }

  // The session an attempt saves continues the old sending chain, or starts one that is new.
  lemma ApplySendingChain(a: Attempt, s: Session, names: set<nat>)
    requires Sending(s).Some? ==> ChainOver(Sending(s).value, names)
    requires Apply(a, s).Some? && a.gen !in names
    ensures var c := Sending(Some(Apply(a, s).value.1));
            c.Some? ==>
              && ChainOver(c.value, names + Names(a))
              && (NewOver(c.value, names)
                  || (Sending(s).Some? && Base(c.value) == Base(Sending(s).value) && Steps(c.value) >= Steps(Sending(s).value)))
  {
    match a
    case Enc(_, _, _, _, _) =>
    case Dec(w, gen) => DecryptSendingChain(s.value, w, gen);
    case InitDec(sk, spk, w, gen) => DecryptSendingChain(AfterInitReceiver(sk, spk), w, gen);
  }

  // The key an encryption uses lies strictly before the session it saves, on the chain of the session
  // it started from or on a new one.
  lemma EncryptKey(a: Attempt, s: Session, names: set<nat>)
    requires Sending(s).Some? ==> ChainOver(Sending(s).value, names)
    requires a.Enc? && Apply(a, s).Some? && a.gen !in names
    ensures var (out, t) := Apply(a, s).value;
            && out.Cipher? && out.wire.ct.Sealed? && out.wire.ct.key.Message?
            && var c := out.wire.ct.key.ck;
               && ChainOver(c, names + Names(a))
               && t.cks == Some(Next(c))
               && (Sending(s) == Some(c) || NewOver(c, names))
  {
    var c := Apply(a, s).value.0.wire.ct.key.ck;
    if s.None? {
      assert Base(c) == c && c.dh == DhOf(a.gen, a.spk);
    }
  }

  lemma OnlyEncryptSends(a: Attempt, s: Session)
    requires Apply(a, s).Some? && Apply(a, s).value.0.Cipher?
    ensures a.Enc?
  {
  }

  // ---------------------------------------------------------------------------------------------
  // The sending chains of all conversations, and the keys used so far.

  ghost predicate SendingOver(log: seq<Saved>, key: string) {
    Sending(SessionOf(log, key)).Some? ==> ChainOver(Sending(SessionOf(log, key)).value, NamesIn(log))
  }

  // No two conversations send on the same chain.
  ghost predicate Apart(log: seq<Saved>, key: string, other: string) {
    key != other && Sending(SessionOf(log, key)).Some? && Sending(SessionOf(log, other)).Some? ==>
      Base(Sending(SessionOf(log, key)).value) != Base(Sending(SessionOf(log, other)).value)
  }

  // Only `owner` can be on the chain of `c`, and it is past `c`.
  ghost predicate Passed(log: seq<Saved>, c: Key, owner: string, key: string) {
    var s := Sending(SessionOf(log, key));
    s.Some? && Base(s.value) == Base(c) ==> key == owner && Steps(c) < Steps(s.value)
  }

  ghost predicate Used(log: seq<Saved>, i: nat)
    requires i < |log|
  {
    OutputOf(log, i).Some? && OutputOf(log, i).value.Cipher? ==>
      var ct := OutputOf(log, i).value.wire.ct;
      && ct.Sealed? && ct.key.Message? && ChainOver(ct.key.ck, NamesIn(log))
      && (forall key :: Passed(log, ct.key.ck, log[i].key, key))
  }

  ghost predicate LogInv(log: seq<Saved>) {
    && (forall key :: SendingOver(log, key))
    && (forall key, other :: Apart(log, key, other))
    && (forall i | 0 <= i < |log| :: Used(log, i))
  }

  // One more save keeps the chains apart.
  lemma ChainsStep(log: seq<Saved>, x: Saved, key: string, other: string)
    requires LogInv(log) && x.a.gen !in NamesIn(log)
    ensures SendingOver(log + [x], key) && Apart(log + [x], key, other)
  {
    hide Apply;
    NamesGrow(log, x);
    SessionAppend(log, x, key);
    SessionAppend(log, x, other);
    assert SendingOver(log, key) && SendingOver(log, other) && Apart(log, key, other);
    assert SendingOver(log, x.key) && Apart(log, x.key, key) && Apart(log, x.key, other);
    if Apply(x.a, SessionOf(log, x.key)).Some? {
      ApplySendingChain(x.a, SessionOf(log, x.key), NamesIn(log));
    }
  }

  // A key used before stays behind.
  lemma PassedStep(log: seq<Saved>, x: Saved, c: Key, owner: string, key: string)
    requires LogInv(log) && x.a.gen !in NamesIn(log)
    requires ChainOver(c, NamesIn(log)) && Passed(log, c, owner, key)
    ensures Passed(log + [x], c, owner, key)
  {
    hide Apply;
    SessionAppend(log, x, key);
    assert SendingOver(log, key);
    if key == x.key && Apply(x.a, SessionOf(log, key)).Some? {
      ApplySendingChain(x.a, SessionOf(log, key), NamesIn(log));
    }
  }

  // The key of an encryption is passed by the session it saves, and by no other.
  lemma NewKeyPassed(log: seq<Saved>, x: Saved, key: string)
    requires LogInv(log) && x.a.gen !in NamesIn(log)
    requires x.a.Enc? && Apply(x.a, SessionOf(log, x.key)).Some?
    ensures var out := Apply(x.a, SessionOf(log, x.key)).value.0;
            && out.Cipher? && out.wire.ct.Sealed? && out.wire.ct.key.Message?
            && ChainOver(out.wire.ct.key.ck, NamesIn(log + [x]))
            && Passed(log + [x], out.wire.ct.key.ck, x.key, key)
  {
    hide Apply;
    NamesGrow(log, x);
    SessionAppend(log, x, key);
    assert SendingOver(log, x.key) && SendingOver(log, key) && Apart(log, x.key, key);
    EncryptKey(x.a, SessionOf(log, x.key), NamesIn(log));
  }

  lemma UsedStep(log: seq<Saved>, x: Saved, i: nat)
    requires LogInv(log) && x.a.gen !in NamesIn(log) && i <= |log|
    ensures Used(log + [x], i)
  {
    hide Apply, Passed;
    var g := log + [x];
    OutputAppend(log, x, i);
    if OutputOf(g, i).Some? && OutputOf(g, i).value.Cipher? {
      if i < |log| {
        assert Used(log, i);
        NamesGrow(log, x);
        var c := OutputOf(log, i).value.wire.ct.key.ck;
        forall key
          ensures Passed(g, c, g[i].key, key)
        {
          PassedStep(log, x, c, log[i].key, key);
        }
      } else {
        OnlyEncryptSends(x.a, SessionOf(log, x.key));
        NewKeyPassed(log, x, x.key);
        forall key
          ensures Passed(g, OutputOf(g, i).value.wire.ct.key.ck, g[i].key, key)
        {
          NewKeyPassed(log, x, key);
        }
      }
    }
  }

  lemma {:induction false} LogHolds(log: seq<Saved>)
    requires FreshKeys(log)
    ensures LogInv(log)
    decreases |log|
  {
    if log != [] {
      var init, x := log[..|log| - 1], log[|log| - 1];
      assert log == init + [x];
      FreshPrefix(init, x);
      LogHolds(init);
      forall key
        ensures SendingOver(log, key)
      {
        ChainsStep(init, x, key, key);
      }
      forall key, other
        ensures Apart(log, key, other)
      {
        ChainsStep(init, x, key, other);
      }
      forall i: nat | i < |log|
        ensures Used(log, i)
      {
        UsedStep(init, x, i);
      }
    }
  }

  lemma FreshPrefix(log: seq<Saved>, x: Saved)
    requires FreshKeys(log + [x])
    ensures FreshKeys(log) && x.a.gen !in NamesIn(log)
  {
    var g := log + [x];
    assert g[..|log|] == log && g[|log|] == x;
    forall i | 0 <= i < |log|
      ensures log[i].a.gen !in NamesIn(log[..i])
    {
      assert g[i] == log[i] && g[..i] == log[..i];
    }
  }

  lemma FreshTo(log: seq<Saved>, n: nat)
    requires FreshKeys(log) && n <= |log|
    ensures FreshKeys(log[..n])
  {
    var p := log[..n];
    forall k | 0 <= k < |p|
      ensures p[k].a.gen !in NamesIn(p[..k])
    {
      assert p[k] == log[k] && p[..k] == log[..k];
    }
  }

  // In a sequence of saves over any number of conversations, started from nothing, no two encryptions
  // use the same message key, whatever messages are decrypted or sessions rebuilt in between.
  lemma SequentialKeysUnique(log: seq<Saved>, i: nat, j: nat)
    requires FreshKeys(log) && i < j < |log|
    requires OutputOf(log, i).Some? && OutputOf(log, i).value.Cipher?
    requires OutputOf(log, j).Some? && OutputOf(log, j).value.Cipher?
    ensures OutputOf(log, i).value.wire.ct.Sealed? && OutputOf(log, j).value.wire.ct.Sealed?
    ensures OutputOf(log, i).value.wire.ct.key != OutputOf(log, j).value.wire.ct.key
  {
    var p, x := log[..j], log[j];
    FreshTo(log, j);
    LogHolds(p);
    assert p[i] == log[i] && p[..i] == log[..i];
    assert Used(p, i) && SendingOver(p, x.key);
    OnlyEncryptSends(x.a, SessionOf(p, x.key));
    EncryptKey(x.a, SessionOf(p, x.key), NamesIn(p));
    assert Passed(p, OutputOf(p, i).value.wire.ct.key.ck, p[i].key, x.key);
  }
}
