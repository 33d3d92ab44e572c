/**
  Byte layouts around a ratchet message: the binding's header || ciphertext, the additional data, the
  nonce, and the client's frame with its optional X3DH part.
 */
module Frames {
  import opened Symbolic
  import opened ByteCodec

  /** A header with the public key as bytes. */
  datatype WireHeader = WireHeader(dh: Bytes, pn: u32, n: u32)

  function HeaderBytes(h: WireHeader): Bytes {
    h.dh + U32Be(h.pn) + U32Be(h.n)
  }

  function MessageBytes(h: WireHeader, ct: Bytes): Bytes {
    HeaderBytes(h) + ct
  }

  function ParseMessage(b: Bytes): Result<(WireHeader, Bytes)> {
    if |b| < 40 then Err(MalformedInput)
    else Ok((WireHeader(b[..32], FromU32Be(b[32..36]), FromU32Be(b[36..40])), b[40..]))
  }

  lemma HeaderParses(h: WireHeader, ct: Bytes)
    requires |h.dh| == 32
    ensures ParseMessage(MessageBytes(h, ct)) == Ok((h, ct))
  {
    var b := MessageBytes(h, ct);
    var p, n := U32Be(h.pn), U32Be(h.n);
    assert b == h.dh + p + n + ct;
    assert b[..32] == h.dh && b[32..36] == p && b[36..40] == n && b[40..] == ct;
    U32Inverse(h.pn, p);
    U32Inverse(h.n, n);
  }

  // The message layout is a bijection between headers with ciphertexts and byte strings of at least
  // 40 bytes; anything shorter is refused.
  lemma MessageLayout(h: WireHeader, ct: Bytes, b: Bytes)
    requires |h.dh| == 32
    ensures ParseMessage(MessageBytes(h, ct)) == Ok((h, ct))
    ensures ParseMessage(b).Ok? <==> |b| >= 40
    ensures |b| < 40 ==> ParseMessage(b) == Err(MalformedInput)
    ensures |b| >= 40 ==> var (g, c) := ParseMessage(b).value; |g.dh| == 32 && MessageBytes(g, c) == b
    ensures |b| >= 40 ==>
              ParseMessage(b).value == (WireHeader(b[..32], FromU32Be(b[32..36]), FromU32Be(b[36..40])), b[40..])
  {
    HeaderParses(h, ct);
    if |b| >= 40 {
      U32Inverse(0, b[32..36]);
      U32Inverse(0, b[36..40]);
      assert b == b[..32] + b[32..36] + b[36..40] + b[40..];
    }
  }

  function AadBytes(h: WireHeader, extra: Bytes): Bytes {
    extra + HeaderBytes(h)
  }

  // The additional data determines both the caller's bytes and the header.
  lemma AadInjective(h: WireHeader, extra: Bytes, g: WireHeader, other: Bytes)
    requires |h.dh| == 32 && |g.dh| == 32
    requires AadBytes(h, extra) == AadBytes(g, other)
    ensures h == g && extra == other
  {
    var a, b := AadBytes(h, extra), AadBytes(g, other);
    assert |extra| == |other|;
    assert a[..|extra|] == extra && b[..|extra|] == other;
    assert a[|extra|..] == HeaderBytes(h) && b[|extra|..] == HeaderBytes(g);
    HeaderParses(h, []);
    HeaderParses(g, []);
  }

  // The caller's bytes, then the header as it travels.
  lemma AadLayout(h: WireHeader, extra: Bytes)
    requires |h.dh| == 32
    ensures AadBytes(h, extra)[..|AadBytes(h, extra)| - 40] == extra
    ensures ParseMessage(AadBytes(h, extra)[|AadBytes(h, extra)| - 40..]) == Ok((h, []))
  {
    var a := AadBytes(h, extra);
    HeaderParses(h, []);
    assert a[..|a| - 40] == extra && a[|a| - 40..] == MessageBytes(h, []);
  }

  function NonceBytes(n: u32): Bytes {
    U32Be(n) + [0, 0, 0, 0, 0, 0, 0, 0]
  }

  // Twelve bytes: the number in four, and zeros.
  lemma NonceLayout(n: u32)
    ensures |NonceBytes(n)| == 12 && FromU32Be(NonceBytes(n)[..4]) == n
    ensures forall i | 4 <= i < 12 :: NonceBytes(n)[i] == 0
  {
    assert NonceBytes(n)[..4] == U32Be(n);
    U32Inverse(n, U32Be(n));
  }

  lemma NonceInjective(n: u32, k: u32)
    requires NonceBytes(n) == NonceBytes(k)
    ensures n == k
  {
    assert NonceBytes(n)[..4] == U32Be(n) && NonceBytes(k)[..4] == U32Be(k);
    U32Inverse(n, U32Be(n));
    U32Inverse(k, U32Be(k));
  }

  // ---------------------------------------------------------------------------------------------
  // The client's frame: flags, the X3DH part when the session is new, the message.

  const INIT_FLAG: u8 := 1

  function FrameBytes(init: Option<Bytes>, message: Bytes): Bytes {
    match init
    case None => [0] + message
    case Some(x) => [INIT_FLAG] + x + message
  }

  method BuildFrame(init: Option<Bytes>, message: Bytes) returns (wire: array<u8>)
    requires init.Some? ==> |init.value| == 65
    ensures fresh(wire) && wire[..] == FrameBytes(init, message)
  {
    var offset := if init.Some? then 66 else 1;
    wire := new u8[offset + |message|](_ => 0);
    wire[0] := if init.Some? then INIT_FLAG else 0;
    if init.Some? {
      SetBytes(wire, init.value, 1);
      assert wire[..66] == [INIT_FLAG] + init.value by {
        assert wire[..66] == wire[..1] + wire[1..66];
      }
    }
    SetBytes(wire, message, offset);
    assert wire[..] == wire[..offset] + wire[offset..offset + |message|] + wire[offset + |message|..];
  }

  // JavaScript's `slice`, which clamps its bounds.
  function Slice(b: Bytes, from: nat, to: nat): Bytes {
    var hi := if to < |b| then to else |b|;
    if from <= hi then b[from..hi] else []
  }

  // What the receiver takes a frame apart into.
  function ParseFrame(wire: Bytes): (Option<Bytes>, Bytes) {
    if wire != [] && wire[0] as nat % 2 == 1
    then (Some(Slice(wire, 1, 66)), Slice(wire, 66, |wire|))
    else (None, Slice(wire, 1, |wire|))
  }

  lemma FrameRoundTrip(init: Option<Bytes>, message: Bytes)
    requires init.Some? ==> |init.value| == 65
    ensures ParseFrame(FrameBytes(init, message)) == (init, message)
    ensures FrameBytes(init, message)[0] == if init.Some? then 1 else 0
  {
    var f := FrameBytes(init, message);
    match init
    case None =>
      assert f[0] == 0 && f[1..] == message;
      assert Slice(f, 1, |f|) == f[1..];
    case Some(x) =>
      assert f[0] == INIT_FLAG && |f| == 66 + |message|;
      assert f[1..66] == x && f[66..] == message;
      assert Slice(f, 66, |f|) == f[66..];
  }

  // Any bytes are taken apart: the lowest bit of the first tells whether 65 bytes of INIT part follow, as
  // far as there are any.
  lemma AnyFrame(wire: Bytes)
    ensures ParseFrame(wire).0.Some? <==> wire != [] && wire[0] as nat % 2 == 1
    ensures ParseFrame(wire).0.Some? && |wire| >= 66 ==> ParseFrame(wire) == (Some(wire[1..66]), wire[66..])
    ensures ParseFrame(wire).0.Some? && |wire| < 66 ==> ParseFrame(wire) == (Some(wire[1..]), [])
    ensures ParseFrame(wire).0.None? ==> ParseFrame(wire).1 == if wire == [] then [] else wire[1..]
  {
    if |wire| >= 66 {
      assert Slice(wire, 1, 66) == wire[1..66] && Slice(wire, 66, |wire|) == wire[66..];
    } else if wire != [] {
      assert Slice(wire, 1, 66) == wire[1..] && Slice(wire, 66, |wire|) == [];
    }
    if wire != [] {
      assert Slice(wire, 1, |wire|) == wire[1..];
    }
  }
}
