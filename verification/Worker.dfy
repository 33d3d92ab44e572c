/**
  The worker's ratchet operations (client/src/workers/crypto.worker.ts): rebuild a session object
  from its stored value, run one operation on it, and hand back the new value only on success.
 */
module Worker {
  import opened Symbolic
  import opened DoubleRatchet

  function EncryptOn(session: State, plain: Bytes, aad: Bytes): (r: Result<(Wire, State)>)
    requires session.Valid()
    ensures r.Ok? ==> r.value.1.Valid()
  {
    match AfterEncrypt(session, plain, aad)
    case (s, Ok(w)) => Ok((w, s))
    case (_, Err(e)) => Err(e)
  }

  function DecryptOn(session: State, m: Wire, gen: nat): (r: Result<(Bytes, State)>)
    requires session.Valid()
    ensures r.Ok? ==> r.value.1.Valid()
  {
    match AfterDecrypt(session, m, gen)
    case (s, Ok(plain)) => Ok((plain, s))
    case (_, Err(e)) => Err(e)
  }

  method RatchetEncrypt(session: State, plain: Bytes, aad: Bytes) returns (r: Result<(Wire, State)>)
    requires session.Valid()
    ensures r == EncryptOn(session, plain, aad)
  {
    var s := new RatchetState.FromValue(session);
    var out := s.Encrypt(plain, aad);
    match out {
      case Ok(w) => return Ok((w, s.View()));
      case Err(e) => return Err(e);
    }
  }

  method RatchetDecrypt(session: State, m: Wire, gen: nat) returns (r: Result<(Bytes, State)>)
    requires session.Valid()
    ensures r == DecryptOn(session, m, gen)
  {
    var s := new RatchetState.FromValue(session);
    var out := s.Decrypt(m, gen);
    match out {
      case Ok(plain) => return Ok((plain, s.View()));
      case Err(e) => return Err(e);
    }
  }
}
