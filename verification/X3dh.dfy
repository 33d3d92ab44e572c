/**
  X3DH key agreement (crypto/core/src/x3dh.rs) through the byte layouts of the WASM bindings
  (crypto/wasm/src/lib.rs) and the bundle built by the client (client/src/hooks/useE2E.ts).
 */
module X3dh {
  import opened Symbolic
  import opened ByteCodec

  /** The curve and KDF operations, on byte strings. */
  datatype Primitives = Primitives(
    dhPub: Bytes -> Bytes,
    dh: (Bytes, Bytes) -> Bytes,
    signPub: Bytes -> Bytes,
    sign: (Bytes, Bytes) -> Bytes,
    verify: (Bytes, Bytes, Bytes) -> bool,
    hkdf: (Bytes, Bytes, Bytes) -> Bytes)
  {
    // Lengths; both sides of a Diffie-Hellman exchange agree; honest signatures verify.
    ghost predicate Lawful() {
      && (forall a :: |dhPub(a)| == 32)
      && (forall a :: |signPub(a)| == 32)
      && (forall a, m :: |sign(a, m)| == 64)
      && (forall s, k, i :: |hkdf(s, k, i)| == 32)
      && (forall a, b :: dh(a, dhPub(b)) == dh(b, dhPub(a)))
      && (forall a, m :: verify(signPub(a), m, sign(a, m)))
    }
  }

  datatype Bundle = Bundle(ikSign: Bytes, ikDh: Bytes, spk: Bytes, spkSig: Bytes, opk: Option<Bytes>)

  /** A user's secrets; the one-time prekey may be absent. */
  datatype Identity = Identity(signSeed: Bytes, ikDh: Bytes, spk: Bytes, opk: Option<Bytes>)

  const INFO: Bytes := [0x58, 0x33, 0x44, 0x48]

  function Zeros(): Bytes { seq(32, _ => 0) }

  function Ones(): Bytes { seq(32, _ => 0xFF) }

  function Flatten(parts: seq<Bytes>): Bytes {
    if parts == [] then [] else Flatten(parts[..|parts| - 1]) + parts[|parts| - 1]
  }

  function SharedKey(prim: Primitives, dhs: seq<Bytes>): Bytes {
    prim.hkdf(Zeros(), Ones() + Flatten(dhs), INFO)
  }

  method DeriveSk(prim: Primitives, dhs: seq<Bytes>) returns (sk: Bytes)
    ensures sk == SharedKey(prim, dhs)
  {
    var ikm := Ones();
    for i := 0 to |dhs|
      invariant ikm == Ones() + Flatten(dhs[..i])
    {
      assert dhs[..i + 1][..i] == dhs[..i];
      ikm := ikm + dhs[i];
    }
    assert dhs[..|dhs|] == dhs;
    sk := prim.hkdf(Zeros(), ikm, INFO);
  }

  // The bundle a user publishes: 161 bytes, followed by the one-time prekey if there is one.
  function BundleBytes(prim: Primitives, k: Identity): Bytes {
    prim.signPub(k.signSeed) + prim.dhPub(k.ikDh) + prim.dhPub(k.spk) + prim.sign(k.signSeed, prim.dhPub(k.spk))
    + (match k.opk case None => [0] case Some(o) => [1] + prim.dhPub(o))
  }

  // The client publishes no one-time prekey.
  method BuildBundle(ikSignPub: Bytes, ikDhPub: Bytes, spkPub: Bytes, spkSig: Bytes) returns (b: array<u8>)
    requires |ikSignPub| == |ikDhPub| == |spkPub| == 32 && |spkSig| == 64
    ensures fresh(b) && b[..] == ikSignPub + ikDhPub + spkPub + spkSig + [0]
  {
    b := new u8[161](_ => 0);
    SetBytes(b, ikSignPub, 0);
    SetBytes(b, ikDhPub, 32);
    SetBytes(b, spkPub, 64);
    assert b[..96] == ikSignPub + ikDhPub + spkPub by {
      assert b[..96] == b[..64] + b[64..96];
    }
    SetBytes(b, spkSig, 96);
    b[160] := 0;
    assert b[..] == b[..96] + b[96..160] + b[160..];
  }

  function ParseBundle(b: Bytes): Result<Bundle> {
    if |b| < 161 then Err(MalformedInput)
    else if b[160] == 0 then Ok(Bundle(b[..32], b[32..64], b[64..96], b[96..160], None))
    else if |b| < 193 then Err(MalformedInput)
    else Ok(Bundle(b[..32], b[32..64], b[64..96], b[96..160], Some(b[161..193])))
  }

  function SenderDhs(prim: Primitives, ik: Bytes, ek: Bytes, bundle: Bundle): seq<Bytes> {
    [prim.dh(ik, bundle.spk), prim.dh(ek, bundle.ikDh), prim.dh(ek, bundle.spk)]
    + (match bundle.opk case None => [] case Some(o) => [prim.dh(ek, o)])
  }

  // `ek` is the ephemeral secret the generator returns.  Result: sk || ik_dh || ek || opk_used.
  function Send(prim: Primitives, ik: Bytes, bundleBytes: Bytes, ek: Bytes): Result<Bytes> {
    if |ik| != 32 then Err(MalformedInput)
    else
      var bundle :- ParseBundle(bundleBytes);
      if !prim.verify(bundle.ikSign, bundle.spk, bundle.spkSig) then Err(SignatureVerification)
      else
        Ok(SharedKey(prim, SenderDhs(prim, ik, ek, bundle)) + prim.dhPub(ik) + prim.dhPub(ek)
           + [if bundle.opk.Some? then 1 else 0])
  }

  function ReceiverDhs(prim: Primitives, ik: Bytes, spk: Bytes, opk: Option<Bytes>, ikDh: Bytes, ek: Bytes): seq<Bytes> {
    [prim.dh(spk, ikDh), prim.dh(ik, ek), prim.dh(spk, ek)]
    + (match opk case None => [] case Some(o) => [prim.dh(o, ek)])
  }

  // An empty `opk` means none.
  function Receive(prim: Primitives, ik: Bytes, spk: Bytes, opk: Bytes, init: Bytes): Result<Bytes> {
    if |init| < 65 || |ik| != 32 || |spk| != 32 || (opk != [] && |opk| != 32) then Err(MalformedInput)
    else
      var ourOpk := if opk == [] then None else Some(opk);
      if (init[64] != 0) != ourOpk.Some? then Err(InvalidKey)
      else Ok(SharedKey(prim, ReceiverDhs(prim, ik, spk, ourOpk, init[..32], init[32..64])))
  }

  lemma BundleParses(prim: Primitives, k: Identity)
    requires prim.Lawful()
    ensures |BundleBytes(prim, k)| == if k.opk.Some? then 193 else 161
    ensures ParseBundle(BundleBytes(prim, k))
         == Ok(Bundle(prim.signPub(k.signSeed), prim.dhPub(k.ikDh), prim.dhPub(k.spk),
                      prim.sign(k.signSeed, prim.dhPub(k.spk)),
                      if k.opk.Some? then Some(prim.dhPub(k.opk.value)) else None))
  {
    var a, b, c := prim.signPub(k.signSeed), prim.dhPub(k.ikDh), prim.dhPub(k.spk);
    var d := prim.sign(k.signSeed, c);
    var e := match k.opk case None => [0 as u8] case Some(o) => [1 as u8] + prim.dhPub(o);
    var x := a + b + c + d + e;
    assert x[..32] == a && x[32..64] == b && x[64..96] == c && x[96..160] == d && x[160..] == e;
    if k.opk.Some? {
      assert x[161..193] == e[1..];
    }
  }

  // A one-time prekey secret as the receiver passes it: empty when there is none.
  function OpkArgument(k: Identity): Bytes {
    if k.opk.Some? then k.opk.value else []
  }

  // For every identity, its published bundle and the 97-byte result of the sender give the receiver,
  // from the last 65 bytes, the key in the first 32.
  lemma Agreement(prim: Primitives, alice: Bytes, ek: Bytes, bob: Identity)
    requires prim.Lawful()
    requires |alice| == |bob.ikDh| == |bob.spk| == 32 && (bob.opk.Some? ==> |bob.opk.value| == 32)
    ensures var out := Send(prim, alice, BundleBytes(prim, bob), ek);
            && out.Ok? && |out.value| == 97
            && Receive(prim, bob.ikDh, bob.spk, OpkArgument(bob), out.value[32..97]) == Ok(out.value[..32])
  {
    BundleParses(prim, bob);
    var bundle := ParseBundle(BundleBytes(prim, bob)).value;
    var sent := SenderDhs(prim, alice, ek, bundle);
    var received := ReceiverDhs(prim, bob.ikDh, bob.spk, bob.opk, prim.dhPub(alice), prim.dhPub(ek));
    assert sent == received;
    var out := Send(prim, alice, BundleBytes(prim, bob), ek).value;
    var sk, ikA, ekA := SharedKey(prim, sent), prim.dhPub(alice), prim.dhPub(ek);
    assert |sk| == |ikA| == |ekA| == 32;
    var flag: Bytes := [if bundle.opk.Some? then 1 else 0];
    assert out == sk + ikA + ekA + flag;
    var init := out[32..97];
    assert out[..32] == sk;
    assert init == ikA + ekA + flag;
    assert init[..32] == ikA && init[32..64] == ekA && init[64] == flag[0];
  }

  // A bundle is used exactly when it parses and its prekey signature verifies.
  lemma SendAccepts(prim: Primitives, ik: Bytes, b: Bytes, ek: Bytes)
    ensures Send(prim, ik, b, ek).Ok? <==>
              && |ik| == 32 && |b| >= 161 && (b[160] != 0 ==> |b| >= 193)
              && prim.verify(b[..32], b[64..96], b[96..160])
    ensures Send(prim, ik, b, ek) == Err(SignatureVerification) <==>
              && |ik| == 32 && |b| >= 161 && (b[160] != 0 ==> |b| >= 193)
              && !prim.verify(b[..32], b[64..96], b[96..160])
    ensures Send(prim, ik, b, ek).Err? ==> Send(prim, ik, b, ek).error in {MalformedInput, SignatureVerification}
  {
  }

  // INIT bytes are used exactly when the lengths are right and the flag agrees with the one-time prekey.
  lemma ReceiveAccepts(prim: Primitives, ik: Bytes, spk: Bytes, opk: Bytes, init: Bytes)
    ensures Receive(prim, ik, spk, opk, init) == Err(MalformedInput) <==>
              |init| < 65 || |ik| != 32 || |spk| != 32 || |opk| !in {0, 32}
    ensures Receive(prim, ik, spk, opk, init).Ok? <==>
              |init| >= 65 && |ik| == 32 && |spk| == 32 && |opk| == if init[64] == 0 then 0 else 32
    ensures Receive(prim, ik, spk, opk, init).Err? ==> Receive(prim, ik, spk, opk, init).error in {MalformedInput, InvalidKey}
  {
  }

  // Receiver and sender must agree on the use of a one-time prekey.
  lemma OpkMismatchRefused(prim: Primitives, alice: Bytes, ek: Bytes, bob: Identity, opk: Bytes)
    requires prim.Lawful()
    requires |alice| == |bob.ikDh| == |bob.spk| == 32 && (opk == [] || |opk| == 32)
    ensures var out := Send(prim, alice, BundleBytes(prim, bob), ek);
            && out.Ok? && |out.value| == 97
            && var r := Receive(prim, bob.ikDh, bob.spk, opk, out.value[32..97]);
               && (r.Ok? <==> (bob.opk.Some? <==> opk != []))
               && (r.Err? ==> r == Err(InvalidKey))
  {
    BundleParses(prim, bob);
  }

  // ---------------------------------------------------------------------------------------------
  // What the agreed key depends on.

  // The key material of the specification: 32 bytes 0xFF and the exchanged secrets in order.
  function Material(a: Bytes, b: Bytes, c: Bytes, d: Option<Bytes>): Bytes {
    Ones() + a + b + c + (if d.Some? then d.value else [])
  }

  // The sender's material, by the places of the keys in the bundle.
  function SentMaterial(prim: Primitives, ik: Bytes, b: Bytes, ek: Bytes): Bytes
    requires |b| >= 161 && (b[160] != 0 ==> |b| >= 193)
  {
    Material(prim.dh(ik, b[64..96]), prim.dh(ek, b[32..64]), prim.dh(ek, b[64..96]),
             if b[160] != 0 then Some(prim.dh(ek, b[161..193])) else None)
  }

  // The receiver's, by the places of the sender's keys in the INIT bytes.
  function ReceivedMaterial(prim: Primitives, ik: Bytes, spk: Bytes, opk: Bytes, init: Bytes): Bytes
    requires |init| >= 65
  {
    Material(prim.dh(spk, init[..32]), prim.dh(ik, init[32..64]), prim.dh(spk, init[32..64]),
             if opk != [] then Some(prim.dh(opk, init[32..64])) else None)
  }

  lemma FlattenThree(a: Bytes, b: Bytes, c: Bytes)
    ensures Flatten([a, b, c]) == a + b + c
  {
    assert [a, b, c][..2] == [a, b] && [a, b][..1] == [a] && [a][..0] == [];
    assert Flatten([a]) == a;
    assert Flatten([a, b]) == a + b;
  }

  lemma FlattenIs(a: Bytes, b: Bytes, c: Bytes, d: Option<Bytes>)
    ensures Ones() + Flatten([a, b, c] + (match d case None => [] case Some(x) => [x])) == Material(a, b, c, d)
  {
    FlattenThree(a, b, c);
    if d.Some? {
      assert ([a, b, c] + [d.value])[..3] == [a, b, c];
    } else {
      assert [a, b, c] + [] == [a, b, c];
    }
  }

  // The sender's result: the key derived from its material, and the INIT bytes.
  lemma SendGives(prim: Primitives, ik: Bytes, b: Bytes, ek: Bytes)
    requires Send(prim, ik, b, ek).Ok?
    ensures |b| >= 161 && (b[160] != 0 ==> |b| >= 193)
    ensures Send(prim, ik, b, ek).value
         == prim.hkdf(Zeros(), SentMaterial(prim, ik, b, ek), INFO) + prim.dhPub(ik) + prim.dhPub(ek)
            + [if b[160] != 0 then 1 else 0]
  {
    var bundle := ParseBundle(b).value;
    FlattenIs(prim.dh(ik, bundle.spk), prim.dh(ek, bundle.ikDh), prim.dh(ek, bundle.spk),
              if bundle.opk.Some? then Some(prim.dh(ek, bundle.opk.value)) else None);
  }

  lemma ReceiveGives(prim: Primitives, ik: Bytes, spk: Bytes, opk: Bytes, init: Bytes)
    requires Receive(prim, ik, spk, opk, init).Ok?
    ensures |init| >= 65
    ensures Receive(prim, ik, spk, opk, init).value == prim.hkdf(Zeros(), ReceivedMaterial(prim, ik, spk, opk, init), INFO)
  {
    FlattenIs(prim.dh(spk, init[..32]), prim.dh(ik, init[32..64]), prim.dh(spk, init[32..64]),
              if opk != [] then Some(prim.dh(opk, init[32..64])) else None);
  }

  // The fixed inputs of the derivation: 32 bytes 0xFF in front, a salt of 32 zero bytes, "X3DH" as info.
  lemma FixedInputs(a: Bytes, b: Bytes, c: Bytes, d: Option<Bytes>)
    ensures |Material(a, b, c, d)| >= 32 && |Zeros()| == 32
    ensures forall i | 0 <= i < 32 :: Material(a, b, c, d)[i] == 255 && Zeros()[i] == 0
    ensures INFO == [0x58, 0x33, 0x44, 0x48]
  {
    assert Material(a, b, c, d)[..32] == Ones();
  }

  /** These two key materials are different and give one key. */
  predicate Collide(prim: Primitives, x: Bytes, y: Bytes) {
    x != y && prim.hkdf(Zeros(), x, INFO) == prim.hkdf(Zeros(), y, INFO)
  }

  /** Exchanged secrets are 32 bytes, and one secret gives different ones with different public keys. */
  ghost predicate Exchanges(prim: Primitives) {
    && (forall a, p :: |prim.dh(a, p)| == 32)
    && (forall a, p, q | |p| == |q| == 32 && prim.dh(a, p) == prim.dh(a, q) :: p == q)
  }

  // Equal material comes from equal exchanged secrets, in number and order.
  lemma MaterialBinds(a: Bytes, b: Bytes, c: Bytes, d: Option<Bytes>, a': Bytes, b': Bytes, c': Bytes, d': Option<Bytes>)
    requires |a| == |b| == |c| == 32 && |a'| == |b'| == |c'| == 32
    requires (d.Some? ==> |d.value| == 32) && (d'.Some? ==> |d'.value| == 32)
    requires Material(a, b, c, d) == Material(a', b', c', d')
    ensures a == a' && b == b' && c == c' && d == d'
  {
    var x, y := Material(a, b, c, d), Material(a', b', c', d');
    assert x[32..64] == a && x[64..96] == b && x[96..128] == c && x[128..] == if d.Some? then d.value else [];
    assert y[32..64] == a' && y[64..96] == b' && y[96..128] == c' && y[128..] == if d'.Some? then d'.value else [];
  }

  // The responder's key determines both keys of the initiator: the same key from other INIT bytes is a
  // collision of the key derivation function on exactly these materials.
  lemma KeyBindsInitiator(prim: Primitives, ik: Bytes, spk: Bytes, opk: Bytes, init: Bytes, init': Bytes)
    requires prim.Lawful() && Exchanges(prim)
    requires Receive(prim, ik, spk, opk, init).Ok? && Receive(prim, ik, spk, opk, init') == Receive(prim, ik, spk, opk, init)
    ensures |init| >= 65 && |init'| >= 65
    ensures init[..64] == init'[..64]
            || Collide(prim, ReceivedMaterial(prim, ik, spk, opk, init), ReceivedMaterial(prim, ik, spk, opk, init'))
  {
    ReceiveGives(prim, ik, spk, opk, init);
    ReceiveGives(prim, ik, spk, opk, init');
    hide Receive, Material;
    if ReceivedMaterial(prim, ik, spk, opk, init) == ReceivedMaterial(prim, ik, spk, opk, init') {
      MaterialBinds(prim.dh(spk, init[..32]), prim.dh(ik, init[32..64]), prim.dh(spk, init[32..64]),
                    if opk != [] then Some(prim.dh(opk, init[32..64])) else None,
                    prim.dh(spk, init'[..32]), prim.dh(ik, init'[32..64]), prim.dh(spk, init'[32..64]),
                    if opk != [] then Some(prim.dh(opk, init'[32..64])) else None);
      assert init[..64] == init[..32] + init[32..64] && init'[..64] == init'[..32] + init'[32..64];
    }
  }

  // The same parts of two bundles: identity key and prekey, whether there is a one-time prekey, and which.
  predicate SameKeys(b: Bytes, b': Bytes) {
    && |b| >= 161 && |b'| >= 161 && (b[160] != 0 ==> |b| >= 193) && (b'[160] != 0 ==> |b'| >= 193)
    && b[32..96] == b'[32..96] && (b[160] != 0 <==> b'[160] != 0) && (b[160] != 0 ==> b[161..193] == b'[161..193])
  }

  lemma SentMaterialBinds(prim: Primitives, ik: Bytes, ek: Bytes, b: Bytes, b': Bytes)
    requires Exchanges(prim) && |b| >= 161 && |b'| >= 161 && (b[160] != 0 ==> |b| >= 193) && (b'[160] != 0 ==> |b'| >= 193)
    requires SentMaterial(prim, ik, b, ek) == SentMaterial(prim, ik, b', ek)
    ensures SameKeys(b, b')
  {
    hide Material;
    var d := if b[160] != 0 then Some(prim.dh(ek, b[161..193])) else None;
    var d' := if b'[160] != 0 then Some(prim.dh(ek, b'[161..193])) else None;
    MaterialBinds(prim.dh(ik, b[64..96]), prim.dh(ek, b[32..64]), prim.dh(ek, b[64..96]), d,
                  prim.dh(ik, b'[64..96]), prim.dh(ek, b'[32..64]), prim.dh(ek, b'[64..96]), d');
    assert b[32..96] == b[32..64] + b[64..96] && b'[32..96] == b'[32..64] + b'[64..96];
  }

  // The initiator's key determines the responder's keys in the bundle.
  lemma KeyBindsBundle(prim: Primitives, ik: Bytes, ek: Bytes, b: Bytes, b': Bytes)
    requires prim.Lawful() && Exchanges(prim)
    requires Send(prim, ik, b, ek).Ok? && Send(prim, ik, b', ek).Ok?
    ensures |Send(prim, ik, b, ek).value| == |Send(prim, ik, b', ek).value| == 97
    ensures |b| >= 161 && (b[160] != 0 ==> |b| >= 193) && |b'| >= 161 && (b'[160] != 0 ==> |b'| >= 193)
    ensures Send(prim, ik, b, ek).value[..32] == Send(prim, ik, b', ek).value[..32] ==>
              SameKeys(b, b') || Collide(prim, SentMaterial(prim, ik, b, ek), SentMaterial(prim, ik, b', ek))
  {
    SendGives(prim, ik, b, ek);
    SendGives(prim, ik, b', ek);
    hide Send, Material, SentMaterial, SameKeys, Zeros;
    FirstPart(prim.hkdf(Zeros(), SentMaterial(prim, ik, b, ek), INFO), prim.dhPub(ik), prim.dhPub(ek), if b[160] != 0 then 1 else 0);
    FirstPart(prim.hkdf(Zeros(), SentMaterial(prim, ik, b', ek), INFO), prim.dhPub(ik), prim.dhPub(ek), if b'[160] != 0 then 1 else 0);
    if SentMaterial(prim, ik, b, ek) == SentMaterial(prim, ik, b', ek) {
      SentMaterialBinds(prim, ik, ek, b, b');
    }
  }

  lemma FirstPart(sk: Bytes, a: Bytes, b: Bytes, flag: u8)
    requires |sk| == |a| == |b| == 32
    ensures |sk + a + b + [flag]| == 97 && (sk + a + b + [flag])[..32] == sk
  {
  }

  /** The public keys of two responders that take part in the agreement. */
  predicate SamePublicKeys(prim: Primitives, x: Identity, y: Identity) {
    && prim.dhPub(x.ikDh) == prim.dhPub(y.ikDh) && prim.dhPub(x.spk) == prim.dhPub(y.spk)
    && (OpkArgument(x) == [] <==> OpkArgument(y) == []) && prim.dhPub(OpkArgument(x)) == prim.dhPub(OpkArgument(y))
  }

  // A key two responders derive from one initiator's INIT bytes belongs to one set of public keys.
  lemma KeyBindsResponder(prim: Primitives, alice: Bytes, ek: Bytes, init: Bytes, bob: Identity, bob': Identity)
    requires prim.Lawful() && Exchanges(prim) && |init| == 65 && init[..32] == prim.dhPub(alice) && init[32..64] == prim.dhPub(ek)
    requires Receive(prim, bob.ikDh, bob.spk, OpkArgument(bob), init).Ok?
    requires Receive(prim, bob'.ikDh, bob'.spk, OpkArgument(bob'), init) == Receive(prim, bob.ikDh, bob.spk, OpkArgument(bob), init)
    ensures SamePublicKeys(prim, bob, bob')
            || Collide(prim, ReceivedMaterial(prim, bob.ikDh, bob.spk, OpkArgument(bob), init),
                       ReceivedMaterial(prim, bob'.ikDh, bob'.spk, OpkArgument(bob'), init))
  {
    var o, o' := OpkArgument(bob), OpkArgument(bob');
    ReceiveGives(prim, bob.ikDh, bob.spk, o, init);
    ReceiveGives(prim, bob'.ikDh, bob'.spk, o', init);
    hide Receive, Material, OpkArgument;
    if ReceivedMaterial(prim, bob.ikDh, bob.spk, o, init) == ReceivedMaterial(prim, bob'.ikDh, bob'.spk, o', init) {
      MaterialBinds(prim.dh(bob.spk, init[..32]), prim.dh(bob.ikDh, init[32..64]), prim.dh(bob.spk, init[32..64]),
                    if o != [] then Some(prim.dh(o, init[32..64])) else None,
                    prim.dh(bob'.spk, init[..32]), prim.dh(bob'.ikDh, init[32..64]), prim.dh(bob'.spk, init[32..64]),
                    if o' != [] then Some(prim.dh(o', init[32..64])) else None);
      assert prim.dh(bob.spk, prim.dhPub(ek)) == prim.dh(ek, prim.dhPub(bob.spk));
      assert prim.dh(bob.ikDh, prim.dhPub(ek)) == prim.dh(ek, prim.dhPub(bob.ikDh));
      assert prim.dh(o, prim.dhPub(ek)) == prim.dh(ek, prim.dhPub(o));
    }
  }
}
