/**
  Two parties talking through the worker over a network that drops, reorders, duplicates and
  injects.

  Ratchet keys are generated in turn: `keys[0]` is Bob's signed prekey, `keys[1]` Alice's first
  ratchet key, and so on.  Chain `e` is derived from `keys[e]` and `keys[e + 1]` and is sent by the
  owner of `keys[e + 1]`: Alice (party 0) sends the even chains, Bob (party 1) the odd ones.  The
  newest chain is `Top`; its owner sends on it and the other party is exactly one chain behind.
 */
module TwoParty {
  import opened Symbolic
  import opened DoubleRatchet
  import opened Worker

  // The root key before chain `e`, and so on down to the shared secret.
  function RootAt(sk: Key, keys: seq<nat>, e: nat): Key
    requires e < |keys|
  {
    if e == 0 then sk else Root(RootAt(sk, keys, e - 1), DhOf(keys[e - 1], keys[e]))
  }

  // The chain key of chain `e` at position `n`.
  function ChainAt(sk: Key, keys: seq<nat>, e: nat, n: nat): Key
    requires e + 1 < |keys|
  {
    Advance(Chain(RootAt(sk, keys, e), DhOf(keys[e], keys[e + 1])), n)
  }

  function MessageKey(sk: Key, keys: seq<nat>, e: nat, n: nat): Key
    requires e + 1 < |keys|
  {
    Message(ChainAt(sk, keys, e, n))
  }

  /** What has been generated and sent so far: `sent[e]` messages on chain `e`. */
  datatype History = History(sk: Key, keys: seq<nat>, sent: seq<u32>)
  {
    predicate Valid() {
      && sk.Seed?
      && |sent| >= 1
      && |keys| == |sent| + 1
      && (forall i, j :: 0 <= i < j < |keys| ==> keys[i] != keys[j])
    }

    function Top(): nat
      requires Valid()
    {
      |sent| - 1
    }

    // The chain party `p` sends on; -1 before Bob's first message arrives.
    function SendChain(p: nat): int
      requires Valid()
    {
      if Top() % 2 == p then Top() else Top() - 1
    }

    // The chain a message sent by `p` is counted on (there is none, and no message, while SendChain is -1).
    function SendIndex(p: nat): nat
      requires Valid()
    {
      if SendChain(p) < 0 then 0 else SendChain(p)
    }

    function Count(e: nat): History
      requires e < |sent|
    {
      this.(sent := sent[e := Increment(sent[e])])
    }

    // The previous-chain length announced on chain `e`.
    function PnOf(e: nat): u32
      requires Valid() && e <= |sent|
    {
      if e >= 2 then sent[e - 2] else 0
    }

    function Slot(e: nat, n: u32): SkipKey
      requires e + 1 < |keys|
    {
      SkipKey(keys[e + 1], n)
    }

    function HeaderOf(e: nat, n: u32): Header
      requires Valid() && e < |sent|
    {
      Header(keys[e + 1], PnOf(e), n)
    }

    function Extend(gen: nat): History {
      History(sk, keys + [gen], sent + [0])
    }
  }

  /** One message handed to the network. */
  datatype Entry = Entry(chain: nat, n: u32, plain: Bytes, wire: Wire)

  // ---------------------------------------------------------------------------------------------
  // The invariant of one party that sends on chain `m` and receives on chain `m - 1`.

  predicate ReceivesOn(m: int, e: nat) {
    e < m && (m - e) % 2 == 1
  }

  // How far the receiver has gone on chain `e`: to `nr` on its current one, to the end on older ones.
  function Passed(h: History, st: State, m: int, e: nat): u32
    requires h.Valid() && m <= h.Top() && ReceivesOn(m, e)
  {
    if e == m - 1 then st.nr else h.sent[e]
  }

  // Conservation at one position: passed means accepted or cached, never both, and a cached key is
  // the sender's key.
  predicate SlotInv(h: History, st: State, acc: set<SkipKey>, m: int, e: nat, n: u32)
    requires h.Valid() && m <= h.Top() && ReceivesOn(m, e)
  {
    var k := h.Slot(e, n);
    && (n < Passed(h, st, m, e) <==> k in acc || k in st.skipped)
    && !(k in acc && k in st.skipped)
    && (k in st.skipped ==> st.skipped[k] == MessageKey(h.sk, h.keys, e, n))
  }

  ghost predicate OnKnownChain(h: History, m: int, dh: nat)
    requires h.Valid() && m <= h.Top()
  {
    exists e: nat :: ReceivesOn(m, e) && dh == h.keys[e + 1]
  }

  ghost predicate Conserved(h: History, st: State, acc: set<SkipKey>, m: int)
    requires h.Valid() && m <= h.Top()
  {
    && (forall e: nat, n: u32 | ReceivesOn(m, e) :: SlotInv(h, st, acc, m, e, n))
    && (forall k | k in acc || k in st.skipped :: OnKnownChain(h, m, k.dh))
  }

  predicate KeysInv(h: History, st: State, m: int)
    requires h.Valid() && -1 <= m <= h.Top()
  {
    && st.dhs == h.keys[m + 1]
    && st.dhr == (if m == -1 then None else Some(h.keys[m]))
    && st.rk == RootAt(h.sk, h.keys, m + 1)
    && st.cks == (if m == -1 then None else Some(ChainAt(h.sk, h.keys, m, st.ns)))
    && st.ckr == (if m < 1 then None else Some(ChainAt(h.sk, h.keys, m - 1, st.nr)))
    && st.ns == (if m == -1 then 0 else h.sent[m])
    && st.nr <= (if m < 1 then 0 else h.sent[m - 1])
    && st.pn == (if m == -1 then 0 else h.PnOf(m))
  }

  ghost predicate PartyInv(h: History, st: State, acc: set<SkipKey>, m: int)
    requires h.Valid() && -1 <= m <= h.Top()
  {
    KeysInv(h, st, m) && Conserved(h, st, acc, m)
  }

  // ---------------------------------------------------------------------------------------------
  // The system.

  datatype System = System(h: History, st: seq<State>, acc: seq<set<SkipKey>>, log: seq<Entry>)

  predicate EntryInv(h: History, x: Entry)
    requires h.Valid()
  {
    && x.chain <= h.Top()
    && x.n < h.sent[x.chain]
    && x.wire.header == h.HeaderOf(x.chain, x.n)
    && x.wire.ct == Sealed(MessageKey(h.sk, h.keys, x.chain, x.n), x.n, x.plain, Aad(x.wire.aad, x.wire.header))
  }

  ghost predicate Inv(s: System) {
    && s.h.Valid()
    && |s.st| == 2 && |s.acc| == 2
    && (forall p: nat | p < 2 :: PartyInv(s.h, s.st[p], s.acc[p], s.h.SendChain(p)))
    && (forall i | 0 <= i < |s.log| :: EntryInv(s.h, s.log[i]))
    && (forall i, j | 0 <= i < j < |s.log| :: s.log[i].chain != s.log[j].chain || s.log[i].n != s.log[j].n)
  }

  predicate Initial(s: System, sk: Key, bobSpk: nat, alice: nat) {
    && sk.Seed? && bobSpk != alice
    && s == System(History(sk, [bobSpk, alice], [0]),
                   [AfterInitSender(sk, bobSpk, alice), AfterInitReceiver(sk, bobSpk)],
                   [{}, {}], [])
  }

  datatype Action =
    | Send(p: nat, plain: Bytes, aad: Bytes)
    | Deliver(p: nat, m: Wire, gen: nat)

  // Nobody but the parties derives keys from the shared secret.  What the network delivers is one of
  // their boxes, junk, or a box sealed under any key that does not come from that secret.
  ghost predicate Unforged(h: History, log: seq<Entry>, ct: Cipher) {
    ct.Sealed? ==> Origin(ct.key) != h.sk || exists i :: 0 <= i < |log| && log[i].wire.ct == ct
  }

  // So the network may seal under every key it can derive from secrets of its own and all
  // Diffie-Hellman secrets there are.
  lemma OwnBoxesAllowed(h: History, log: seq<Entry>, ct: Cipher, seeds: set<Key>, names: set<nat>)
    requires forall s | s in seeds :: Origin(s) != h.sk
    requires ct.Sealed? ==> Derivable(ct.key, seeds, names)
    ensures Unforged(h, log, ct)
  {
    if ct.Sealed? {
      DerivedOrigin(ct.key, seeds, names, h.sk);
    }
  }

  ghost predicate Enabled(s: System, a: Action) {
    && a.p < 2 && |s.st| == 2 && |s.acc| == 2
    && s.h.Valid() && s.st[a.p].Valid()
    && match a
       case Send(p, _, _) => s.st[p].ns < U32_MAX
       case Deliver(p, m, gen) => gen !in s.h.keys && Unforged(s.h, s.log, m.ct)
  }

  // One action.  A failed operation leaves the stored session, hence the system, as it was.
  ghost function Step(s: System, a: Action): System
    requires Enabled(s, a)
  {
    match a
    case Send(p, plain, aad) =>
      (match EncryptOn(s.st[p], plain, aad)
       case Err(_) => s
       case Ok((w, t)) =>
         var e := s.h.SendIndex(p);
         s.(st := s.st[p := t],
            h := s.h.Count(e),
            log := s.log + [Entry(e, w.header.n, plain, w)]))
    case Deliver(p, m, gen) =>
      match DecryptOn(s.st[p], m, gen)
      case Err(_) => s
      case Ok((_, t)) =>
        s.(st := s.st[p := t],
           acc := s.acc[p := s.acc[p] + {SkipKey(m.header.dh, m.header.n)}],
           h := if t.dhs == s.st[p].dhs then s.h else s.h.Extend(t.dhs))
  }

  /** `trace` is a run: it starts from a fresh session and each state follows by an enabled action. */
  ghost predicate Run(trace: seq<System>, actions: seq<Action>) {
    && |trace| == |actions| + 1
    && (exists sk, bobSpk, alice :: Initial(trace[0], sk, bobSpk, alice))
    && (forall i | 0 <= i < |actions| :: Enabled(trace[i], actions[i]) && trace[i + 1] == Step(trace[i], actions[i]))
  }

  // ---------------------------------------------------------------------------------------------
  // Key terms tell chains and positions apart.

  function Depth(k: Key): nat {
    match k
    case Seed(_) => 0
    case Root(rk, _) => Depth(rk) + 1
    case Chain(rk, _) => Depth(rk)
    case Next(ck) => Depth(ck)
    case Message(ck) => Depth(ck)
  }

  lemma {:induction false} RootDepth(sk: Key, keys: seq<nat>, e: nat)
    requires sk.Seed? && e < |keys|
    ensures Depth(RootAt(sk, keys, e)) == e
  {
    if e > 0 {
      RootDepth(sk, keys, e - 1);
    }
  }

  lemma {:induction false} AdvanceDepth(ck: Key, n: nat)
    ensures Depth(Advance(ck, n)) == Depth(ck)
  {
    if n > 0 {
      AdvanceDepth(ck, n - 1);
    }
  }

  // A message key is used at one chain and one position only.
  lemma MessageKeyInjective(sk: Key, keys: seq<nat>, e: nat, n: nat, f: nat, k: nat)
    requires sk.Seed? && e + 1 < |keys| && f + 1 < |keys|
    requires MessageKey(sk, keys, e, n) == MessageKey(sk, keys, f, k)
    ensures e == f && n == k
  {
    var c := Chain(RootAt(sk, keys, e), DhOf(keys[e], keys[e + 1]));
    var d := Chain(RootAt(sk, keys, f), DhOf(keys[f], keys[f + 1]));
    AdvanceInjective(c, n, d, k);
    RootDepth(sk, keys, e);
    RootDepth(sk, keys, f);
  }

  lemma {:induction false} RootOrigin(sk: Key, keys: seq<nat>, e: nat)
    requires sk.Seed? && e < |keys|
    ensures Origin(RootAt(sk, keys, e)) == sk
  {
    if e > 0 {
      RootOrigin(sk, keys, e - 1);
    }
  }

  lemma MessageKeyOrigin(sk: Key, keys: seq<nat>, e: nat, n: nat)
    requires sk.Seed? && e + 1 < |keys|
    ensures Origin(ChainAt(sk, keys, e, n)) == Origin(MessageKey(sk, keys, e, n)) == sk
  {
    RootOrigin(sk, keys, e);
    AdvanceOrigin(Chain(RootAt(sk, keys, e), DhOf(keys[e], keys[e + 1])), n);
  }

  lemma {:induction false} RootPrefix(sk: Key, keys: seq<nat>, gen: nat, e: nat)
    requires e < |keys|
    ensures RootAt(sk, keys + [gen], e) == RootAt(sk, keys, e)
  {
    if e > 0 {
      RootPrefix(sk, keys, gen, e - 1);
    }
  }

  lemma ChainPrefix(sk: Key, keys: seq<nat>, gen: nat, e: nat, n: nat)
    requires e + 1 < |keys|
    ensures ChainAt(sk, keys + [gen], e, n) == ChainAt(sk, keys, e, n)
  {
    RootPrefix(sk, keys, gen, e);
  }
}
