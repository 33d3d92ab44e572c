/**
  Symbolic cryptography for the messaging engine.

  A key-agreement public key is identified with the name of its secret, Diffie-Hellman is a
  commutative constructor on two names, the key derivation functions are free constructors, and
  an AEAD box opens only under the key, nonce and additional data it was sealed with.
 */
module Symbolic {
  const U32_MAX: nat := 0xFFFF_FFFF

  type u32 = n: nat | n <= U32_MAX
  newtype u8 = b: int | 0 <= b < 256
  type Bytes = seq<u8>

  datatype Option<+T> = None | Some(value: T)

  datatype CryptoError =
    | InvalidKey
    | SignatureVerification
    | DecryptionFailed
    | KeyDerivation
    | InvalidCiphertext
    | SkipLimitExceeded
    | ManifestTampered
    | MalformedInput            // the binding layer's length errors

  datatype Result<+T> = Ok(value: T) | Err(error: CryptoError) {
    predicate IsFailure() { Err? }

    function PropagateFailure<U>(): Result<U>
      requires Err?
    {
      Err(error)
    }

    function Extract(): T
      requires Ok?
    {
      value
    }
  }

  /** A shared secret, named by the unordered pair of the two secrets it comes from. */
  datatype Dh = Dh(lo: nat, hi: nat)

  function DhOf(secret: nat, public: nat): Dh {
    if secret <= public then Dh(secret, public) else Dh(public, secret)
  }

  /** Key terms.  `Root` and `Chain` are the two halves of KDF_RK, `Next` and `Message` those of KDF_CK. */
  datatype Key =
    | Seed(sk: Bytes)
    | Root(rk: Key, dh: Dh)
    | Chain(rk: Key, dh: Dh)
    | Next(ck: Key)
    | Message(ck: Key)

  /** Header sent in clear with every ratchet message. */
  datatype Header = Header(dh: nat, pn: u32, n: u32)

  /** Additional data: the caller's bytes followed by the header (the header has fixed length). */
  datatype Aad = Aad(extra: Bytes, header: Header)

  /** A ciphertext: an AEAD box, or bytes that are no box at all. */
  datatype Cipher =
    | Sealed(key: Key, nonce: u32, plain: Bytes, aad: Aad)
    | Junk(len: nat)

  function AeadOpen(key: Key, nonce: u32, ct: Cipher, aad: Aad): Result<Bytes> {
    match ct
    case Junk(len) => Err(if len < 16 then InvalidCiphertext else DecryptionFailed)
    case Sealed(k, n, plain, a) =>
      if k == key && n == nonce && a == aad then Ok(plain) else Err(DecryptionFailed)
  }

  /** A chain key after `n` symmetric ratchet steps. */
  function Advance(ck: Key, n: nat): Key {
    if n == 0 then ck else Next(Advance(ck, n - 1))
  }

  // The chain a chain key belongs to, and its position on it.
  function Base(ck: Key): Key {
    if ck.Next? then Base(ck.ck) else ck
  }

  function Steps(ck: Key): nat {
    if ck.Next? then Steps(ck.ck) + 1 else 0
  }

  lemma {:induction false} AdvanceBase(c: Key, n: nat)
    requires c.Chain?
    ensures Base(Advance(c, n)) == c && Steps(Advance(c, n)) == n
    ensures Advance(c, n).Chain? || Advance(c, n).Next?
  {
    if n > 0 {
      AdvanceBase(c, n - 1);
    }
  }

  // Advancing twice adds up.
  lemma {:induction false} AdvanceAdd(ck: Key, a: nat, b: nat)
    ensures Advance(Advance(ck, a), b) == Advance(ck, a + b)
    decreases b
  {
    if b > 0 {
      AdvanceAdd(ck, a, b - 1);
    }
  }

  // A chain key determines its chain and its position: two advanced chain heads are equal only if
  // both the heads and the step counts are.
  lemma {:induction false} AdvanceInjective(c: Key, a: nat, d: Key, b: nat)
    requires c.Chain? && d.Chain?
    requires Advance(c, a) == Advance(d, b)
    ensures c == d && a == b
    decreases a
  {
    if a > 0 && b > 0 {
      AdvanceInjective(c, a - 1, d, b - 1);
    }
  }

  // ---------------------------------------------------------------------------------------------
  // What an observer of some keys and some secret names can derive; all public keys are known.

  function DhDerivable(d: Dh, names: set<nat>): bool {
    d.lo in names || d.hi in names
  }

  /** `k` is known, or can be built by applying a key derivation function to derivable inputs. */
  predicate Derivable(k: Key, known: set<Key>, names: set<nat>) {
    || k in known
    || match k
       case Seed(_) => false
       case Root(rk, dh) => Derivable(rk, known, names) && DhDerivable(dh, names)
       case Chain(rk, dh) => Derivable(rk, known, names) && DhDerivable(dh, names)
       case Next(ck) => Derivable(ck, known, names)
       case Message(ck) => Derivable(ck, known, names)
  }

  /** `k` can be built from known keys by an observer who holds every Diffie-Hellman secret. */
  predicate Within(k: Key, known: set<Key>) {
    || k in known
    || match k
       case Seed(_) => false
       case Root(rk, _) => Within(rk, known)
       case Chain(rk, _) => Within(rk, known)
       case Next(ck) => Within(ck, known)
       case Message(ck) => Within(ck, known)
  }

  lemma {:induction false} DerivableWithin(k: Key, known: set<Key>, names: set<nat>)
    requires Derivable(k, known, names)
    ensures Within(k, known)
    decreases k
  {
    if k !in known {
      match k
      case Root(rk, _) => DerivableWithin(rk, known, names);
      case Chain(rk, _) => DerivableWithin(rk, known, names);
      case Next(ck) => DerivableWithin(ck, known, names);
      case Message(ck) => DerivableWithin(ck, known, names);
    }
  }

  lemma {:induction false} WithinTransitive(k: Key, known: set<Key>, more: set<Key>)
    requires Within(k, more) && forall x | x in more :: Within(x, known)
    ensures Within(k, known)
    decreases k
  {
    if k !in more {
      match k
      case Root(rk, _) => WithinTransitive(rk, known, more);
      case Chain(rk, _) => WithinTransitive(rk, known, more);
      case Next(ck) => WithinTransitive(ck, known, more);
      case Message(ck) => WithinTransitive(ck, known, more);
    }
  }

  lemma {:induction false} WithinAdvance(ck: Key, n: nat, known: set<Key>)
    requires Within(ck, known)
    ensures Within(Advance(ck, n), known)
  {
    if n > 0 {
      WithinAdvance(ck, n - 1, known);
    }
  }

  /** The seed a key is derived from. */
  function Origin(k: Key): (s: Key)
    ensures s.Seed?
  {
    match k
    case Seed(_) => k
    case Root(rk, _) => Origin(rk)
    case Chain(rk, _) => Origin(rk)
    case Next(ck) => Origin(ck)
    case Message(ck) => Origin(ck)
  }

  // From keys of other origins nothing of origin `sk` can be derived, whatever secrets are known.
  lemma {:induction false} DerivedOrigin(k: Key, known: set<Key>, names: set<nat>, sk: Key)
    requires (forall x | x in known :: Origin(x) != sk) && Derivable(k, known, names)
    ensures Origin(k) != sk
    decreases k
  {
    if k !in known {
      match k
      case Root(rk, _) => DerivedOrigin(rk, known, names, sk);
      case Chain(rk, _) => DerivedOrigin(rk, known, names, sk);
      case Next(ck) => DerivedOrigin(ck, known, names, sk);
      case Message(ck) => DerivedOrigin(ck, known, names, sk);
    }
  }

  lemma {:induction false} AdvanceOrigin(ck: Key, n: nat)
    ensures Origin(Advance(ck, n)) == Origin(ck)
  {
    if n > 0 {
      AdvanceOrigin(ck, n - 1);
    }
  }

  /** `x` contains the known keys and is closed under every derivation rule. */
  ghost predicate ClosedUnderKdf(x: iset<Key>, known: set<Key>, names: set<nat>) {
    && (forall k :: k in known ==> k in x)
    && (forall rk, dh :: rk in x && DhDerivable(dh, names) ==> Root(rk, dh) in x && Chain(rk, dh) in x)
    && (forall ck :: ck in x ==> Next(ck) in x && Message(ck) in x)
  }

  // `Derivable` is the derivation closure: it is closed under the rules and lies in every set that is.
  lemma {:induction false} DerivableIsLeastClosure(k: Key, x: iset<Key>, known: set<Key>, names: set<nat>)
    ensures ClosedUnderKdf((iset d: Key | Derivable(d, known, names)), known, names)
    ensures ClosedUnderKdf(x, known, names) && Derivable(k, known, names) ==> k in x
    decreases k
  {
    if ClosedUnderKdf(x, known, names) && Derivable(k, known, names) && k !in known {
      match k
      case Root(rk, _) => DerivableIsLeastClosure(rk, x, known, names);
      case Chain(rk, _) => DerivableIsLeastClosure(rk, x, known, names);
      case Next(ck) => DerivableIsLeastClosure(ck, x, known, names);
      case Message(ck) => DerivableIsLeastClosure(ck, x, known, names);
    }
  }
}
