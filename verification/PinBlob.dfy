/**
  PIN-protected keys (crypto/core/src/pin_key.rs): the stored blob, whose first 29 bytes are the
  additional data its ciphertext is bound to.
 */
module PinBlob {
  import opened Symbolic
  import opened ByteCodec

  const BLOB_VERSION: u8 := 1
  const HEADER_LEN: nat := 29
  const NONCE_END: nat := 41
  const MIN_CIPHERTEXT_LEN: nat := 16

  datatype EncryptParams = EncryptParams(mCost: u32, tCost: u32, pCost: u32)

  datatype Blob = Blob(params: EncryptParams, salt: Bytes, nonce: Bytes, ciphertext: Bytes) {
    // The array sizes of the fields.
    predicate Sized() {
      |salt| == 16 && |nonce| == 12
    }

    predicate NeedsUpgrade(target: EncryptParams) {
      params.mCost < target.mCost || params.tCost < target.tCost || params.pCost < target.pCost
    }
  }

  /** Argon2id, which refuses some parameters, and AES-256-GCM. */
  datatype Primitives = Primitives(
    kdf: (Bytes, Bytes, EncryptParams) -> Option<Bytes>,
    seal: (Bytes, Bytes, Bytes, Bytes) -> Option<Bytes>,
    open: (Bytes, Bytes, Bytes, Bytes) -> Option<Bytes>)
  {
    // What is sealed opens, and carries a 16-byte tag.
    ghost predicate Lawful() {
      forall key, nonce, plain, aad :: seal(key, nonce, plain, aad).Some? ==>
        var c := seal(key, nonce, plain, aad).value;
        |c| == |plain| + 16 && open(key, nonce, c, aad) == Some(plain)
    }

    // The ciphertext opens only under this key, nonce and additional data.
    ghost predicate Binds(c: Bytes, key: Bytes, nonce: Bytes, aad: Bytes) {
      forall k, n, a :: open(k, n, c, a).Some? ==> k == key && n == nonce && a == aad
    }
  }

  function HeaderBytes(p: EncryptParams, salt: Bytes): Bytes {
    [BLOB_VERSION] + U32Be(p.mCost) + U32Be(p.tCost) + U32Be(p.pCost) + salt
  }

  method BuildAad(p: EncryptParams, salt: Bytes) returns (aad: array<u8>)
    requires |salt| == 16
    ensures fresh(aad) && aad[..] == HeaderBytes(p, salt)
  {
    hide U32Be;
    aad := new u8[29](_ => 0);
    aad[0] := BLOB_VERSION;
    SetBytes(aad, U32Be(p.mCost), 1);
    assert aad[..5] == [BLOB_VERSION] + U32Be(p.mCost);
    SetBytes(aad, U32Be(p.tCost), 5);
    assert aad[..9] == aad[..5] + aad[5..9];
    SetBytes(aad, U32Be(p.pCost), 9);
    assert aad[..13] == aad[..9] + aad[9..13];
    SetBytes(aad, salt, 13);
    assert aad[..] == aad[..13] + aad[13..29];
  }

  function Serialize(b: Blob): Bytes {
    HeaderBytes(b.params, b.salt) + b.nonce + b.ciphertext
  }

  method SerializeBlob(b: Blob) returns (out: Bytes)
    requires b.Sized()
    ensures out == Serialize(b)
  {
    var aad := BuildAad(b.params, b.salt);
    out := aad[..];
    out := out + b.nonce;
    out := out + b.ciphertext;
  }

  function Deserialize(data: Bytes): Result<Blob> {
    if |data| < HEADER_LEN + 12 + MIN_CIPHERTEXT_LEN then Err(InvalidCiphertext)
    else if data[0] != BLOB_VERSION then Err(InvalidKey)
    else
      var params := EncryptParams(FromU32Be(data[1..5]), FromU32Be(data[5..9]), FromU32Be(data[9..13]));
      Ok(Blob(params, data[13..29], data[29..41], data[41..]))
  }

  // `salt` and `nonce` are what the generator returns.
  function Encrypt(prim: Primitives, key: Bytes, pin: Bytes, params: EncryptParams, salt: Bytes, nonce: Bytes): Result<Blob> {
    match prim.kdf(pin, salt, params)
    case None => Err(KeyDerivation)
    case Some(aes) =>
      match prim.seal(aes, nonce, key, HeaderBytes(params, salt))
      case None => Err(DecryptionFailed)
      case Some(c) => Ok(Blob(params, salt, nonce, c))
  }

  function Decrypt(prim: Primitives, b: Blob, pin: Bytes): Result<Bytes> {
    if |b.ciphertext| < MIN_CIPHERTEXT_LEN then Err(InvalidCiphertext)
    else
      match prim.kdf(pin, b.salt, b.params)
      case None => Err(KeyDerivation)
      case Some(aes) =>
        match prim.open(aes, b.nonce, b.ciphertext, HeaderBytes(b.params, b.salt))
        case None => Err(DecryptionFailed)
        case Some(key) => Ok(key)
  }

  // The bindings decrypt a stored byte string.
  function DecryptBytes(prim: Primitives, data: Bytes, pin: Bytes): Result<Bytes> {
    var blob :- Deserialize(data);
    Decrypt(prim, blob, pin)
  }

  // ---------------------------------------------------------------------------------------------

  lemma HeaderFields(p: EncryptParams, salt: Bytes)
    requires |salt| == 16
    ensures var h := HeaderBytes(p, salt);
            && |h| == HEADER_LEN && h[0] == BLOB_VERSION && h[13..29] == salt
            && FromU32Be(h[1..5]) == p.mCost && FromU32Be(h[5..9]) == p.tCost && FromU32Be(h[9..13]) == p.pCost
  {
    var m, t, q := U32Be(p.mCost), U32Be(p.tCost), U32Be(p.pCost);
    U32Inverse(p.mCost, m);
    U32Inverse(p.tCost, t);
    U32Inverse(p.pCost, q);
    hide U32Be, FromU32Be;
    var h := HeaderBytes(p, salt);
    assert h == [BLOB_VERSION] + m + t + q + salt;
    assert h[1..5] == m && h[5..9] == t && h[9..13] == q && h[13..29] == salt;
  }

  // The blobs with at least a tag of ciphertext are read back.
  lemma DeserializeInverse(b: Blob)
    requires b.Sized()
    ensures Deserialize(Serialize(b)) == if |b.ciphertext| >= MIN_CIPHERTEXT_LEN then Ok(b) else Err(InvalidCiphertext)
  {
    HeaderFields(b.params, b.salt);
    hide U32Be, FromU32Be, HeaderBytes;
    var h, d := HeaderBytes(b.params, b.salt), Serialize(b);
    assert d == h + (b.nonce + b.ciphertext);
    assert d[..29] == h;
    if |b.ciphertext| >= MIN_CIPHERTEXT_LEN {
      assert d[1..5] == h[1..5] && d[5..9] == h[5..9] && d[9..13] == h[9..13] && d[13..29] == h[13..29];
      assert d[29..41] == b.nonce && d[41..] == b.ciphertext;
    }
  }

  // What is accepted, and that it is written back unchanged: its first 29 bytes are the additional data.
  lemma SerializeInverse(data: Bytes)
    ensures Deserialize(data).Ok? <==> |data| >= 57 && data[0] == BLOB_VERSION
    ensures Deserialize(data).Ok? ==>
              var b := Deserialize(data).value;
              && b.Sized() && |b.ciphertext| >= MIN_CIPHERTEXT_LEN
              && Serialize(b) == data && HeaderBytes(b.params, b.salt) == data[..HEADER_LEN]
  {
    if |data| >= 57 && data[0] == BLOB_VERSION {
      var b := Deserialize(data).value;
      U32Inverse(0, data[1..5]);
      U32Inverse(0, data[5..9]);
      U32Inverse(0, data[9..13]);
      hide U32Be, FromU32Be;
      assert HeaderBytes(b.params, b.salt) == data[..1] + data[1..5] + data[5..9] + data[9..13] + data[13..29];
      assert HeaderBytes(b.params, b.salt) == data[..29];
      assert data == data[..29] + data[29..41] + data[41..];
    }
  }

  // A stored blob opens under its PIN, whatever is in it.
  lemma StoredKeyOpens(prim: Primitives, key: Bytes, pin: Bytes, params: EncryptParams, salt: Bytes, nonce: Bytes)
    requires prim.Lawful() && |salt| == 16 && |nonce| == 12
    requires Encrypt(prim, key, pin, params, salt, nonce).Ok?
    ensures DecryptBytes(prim, Serialize(Encrypt(prim, key, pin, params, salt, nonce).value), pin) == Ok(key)
  {
    hide HeaderBytes;
    var b := Encrypt(prim, key, pin, params, salt, nonce).value;
    var aes := prim.kdf(pin, salt, params).value;
    assert prim.seal(aes, nonce, key, HeaderBytes(params, salt)).Some?;
    DeserializeInverse(b);
  }

  // Tampering.  Of the byte strings that end in a produced ciphertext, exactly those decrypt that have
  // the produced header and nonce in front, under a PIN that derives the same key.
  lemma TamperingFails(prim: Primitives, key: Bytes, pin: Bytes, b: Blob, data: Bytes, pin': Bytes)
    requires prim.Lawful() && b.Sized() && Encrypt(prim, key, pin, b.params, b.salt, b.nonce) == Ok(b)
    requires prim.Binds(b.ciphertext, prim.kdf(pin, b.salt, b.params).value, b.nonce, HeaderBytes(b.params, b.salt))
    requires |data| >= NONCE_END && data[NONCE_END..] == b.ciphertext
    ensures DecryptBytes(prim, data, pin').Ok?
            <==> data[..NONCE_END] == Serialize(b)[..NONCE_END]
                 && prim.kdf(pin', b.salt, b.params) == prim.kdf(pin, b.salt, b.params)
  {
    HeaderFields(b.params, b.salt);
    hide U32Be, FromU32Be, HeaderBytes;
    var aes := prim.kdf(pin, b.salt, b.params).value;
    var h := HeaderBytes(b.params, b.salt);
    assert prim.seal(aes, b.nonce, key, h) == Some(b.ciphertext);
    assert Serialize(b)[..NONCE_END] == h + b.nonce;
    SerializeInverse(data);
    DeserializeInverse(b);
    if DecryptBytes(prim, data, pin').Ok? {
      var c := Deserialize(data).value;
      assert prim.open(prim.kdf(pin', c.salt, c.params).value, c.nonce, c.ciphertext, HeaderBytes(c.params, c.salt)).Some?;
      assert data[..NONCE_END] == data[..HEADER_LEN] + data[HEADER_LEN..NONCE_END];
    }
    if data[..NONCE_END] == h + b.nonce {
      assert data == data[..NONCE_END] + data[NONCE_END..];
      assert data == Serialize(b);
    }
  }

  // Changing any of the first 29 bytes of a produced blob makes it useless, under any PIN.
  lemma HeaderIsAuthenticated(prim: Primitives, key: Bytes, pin: Bytes, b: Blob, i: nat, v: u8, pin': Bytes)
    requires prim.Lawful() && b.Sized() && Encrypt(prim, key, pin, b.params, b.salt, b.nonce) == Ok(b)
    requires prim.Binds(b.ciphertext, prim.kdf(pin, b.salt, b.params).value, b.nonce, HeaderBytes(b.params, b.salt))
    requires i < HEADER_LEN <= |Serialize(b)| && Serialize(b)[i] != v
    ensures DecryptBytes(prim, Serialize(b)[i := v], pin').Err?
  {
    HeaderFields(b.params, b.salt);
    hide U32Be, FromU32Be, HeaderBytes;
    var d := Serialize(b);
    var e := d[i := v];
    assert d[NONCE_END..] == b.ciphertext && e[NONCE_END..] == d[NONCE_END..];
    assert e[..NONCE_END][i] == v && d[..NONCE_END][i] != v;
    TamperingFails(prim, key, pin, b, e, pin');
  }

  // A blob encrypted under the target's parameters, stored and read back, needs no upgrade.
  lemma UpgradeSettles(prim: Primitives, key: Bytes, pin: Bytes, target: EncryptParams, salt: Bytes, nonce: Bytes)
    requires |salt| == 16 && |nonce| == 12 && prim.Lawful()
    requires Encrypt(prim, key, pin, target, salt, nonce).Ok?
    ensures var stored := Deserialize(Serialize(Encrypt(prim, key, pin, target, salt, nonce).value));
            stored.Ok? && !stored.value.NeedsUpgrade(target)
  {
    var aes := prim.kdf(pin, salt, target).value;
    assert prim.seal(aes, nonce, key, HeaderBytes(target, salt)).Some?;
    DeserializeInverse(Encrypt(prim, key, pin, target, salt, nonce).value);
  }

  // A stored blob needs an upgrade exactly when one of the three costs written in it is below the target's.
  lemma UpgradeFromBytes(data: Bytes, target: EncryptParams)
    requires Deserialize(data).Ok?
    ensures |data| >= 57 && data[0] == 1
    ensures Deserialize(data).value.NeedsUpgrade(target)
            <==> || FromU32Be(data[1..5]) < target.mCost || FromU32Be(data[5..9]) < target.tCost
                 || FromU32Be(data[9..13]) < target.pCost
  {
  }

  // Why a stored string gives no key: too short, of another version, parameters the derivation refuses, or
  // a ciphertext that does not open.
  lemma RefusalsExactly(prim: Primitives, data: Bytes, pin: Bytes)
    ensures var r := DecryptBytes(prim, data, pin);
            && (r == Err(InvalidCiphertext) <==> |data| < 57)
            && (r == Err(InvalidKey) <==> |data| >= 57 && data[0] != 1)
            && (r == Err(KeyDerivation) <==>
                  && |data| >= 57 && data[0] == 1
                  && prim.kdf(pin, data[13..29], EncryptParams(FromU32Be(data[1..5]), FromU32Be(data[5..9]),
                                                               FromU32Be(data[9..13]))).None?)
            && (r.Err? ==> r.error in {InvalidCiphertext, InvalidKey, KeyDerivation, DecryptionFailed})
  {
  }
}
