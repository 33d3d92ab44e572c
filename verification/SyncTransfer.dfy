/**
  VSP-1, the device-to-device transfer (client/src/hooks/useDeviceSync.ts): the source streams sealed
  chunks and a sealed manifest; the target handles each frame in an asynchronous handler, so handlers
  interleave at every await.
 */
module SyncTransfer {
  import opened Symbolic
  import opened ByteCodec
  import Manifest

  const MSG_CHUNK: u8 := 1
  const MSG_MANIFEST: u8 := 2

  // ---------------------------------------------------------------------------------------------
  // Keys and sealed chunks, symbolically.

  /** A key derived from the one-time password and the exchanged secret, for chunks or for the MAC. */
  datatype SyncKey = SyncKey(otp: Bytes, dh: Dh, forMac: bool)

  function DeriveSyncKeys(secret: nat, peerPub: nat, otp: Bytes): (SyncKey, SyncKey) {
    (SyncKey(otp, DhOf(secret, peerPub), false), SyncKey(otp, DhOf(secret, peerPub), true))
  }

  // Source and target derive the same keys exactly when they hold the same one-time password; the
  // chunk key and the MAC key always differ.
  lemma SyncKeysAgree(source: nat, target: nat, otpS: Bytes, otpT: Bytes)
    ensures DeriveSyncKeys(source, target, otpS) == DeriveSyncKeys(target, source, otpT) <==> otpS == otpT
    ensures DeriveSyncKeys(source, target, otpS).0 != DeriveSyncKeys(target, source, otpT).1
  {
  }

  // Two devices of any two exchanges derive the same keys exactly when the one-time password is the same
  // and so are, in whatever order, the two secrets exchanged.
  lemma SyncKeysBind(a: nat, b: nat, c: nat, d: nat, otp: Bytes, otp': Bytes)
    ensures DeriveSyncKeys(a, b, otp) == DeriveSyncKeys(c, d, otp')
            <==> otp == otp' && ((a == c && b == d) || (a == d && b == c))
    ensures DeriveSyncKeys(a, b, otp).0 != DeriveSyncKeys(c, d, otp').1
  {
  }

  datatype ChunkData = Chunk(key: SyncKey, seqNo: u32, plain: Bytes) | Noise

  function Open(key: SyncKey, seqNo: u32, data: ChunkData): Result<Bytes> {
    if data.Chunk? && data.key == key && data.seqNo == seqNo then Ok(data.plain) else Err(DecryptionFailed)
  }

  /** A frame: kind and sequence number in clear, sealed data. */
  datatype Frame = Frame(kind: u8, seqNo: u32, data: ChunkData)

  /** The session's chunk key, its HMAC, and SHA-256. */
  datatype Env = Env(key: SyncKey, mac: Bytes -> Bytes, hash: Bytes -> Bytes) {
    ghost predicate Lawful() {
      (forall b :: |mac(b)| == 32) && (forall b :: |hash(b)| == 32)
    }
  }

  // ---------------------------------------------------------------------------------------------
  // Sequence numbers and frames as bytes.

  function SeqToU64Be(n: u32): Bytes { [0, 0, 0, 0] + U32Be(n) }

  function U64BeToSeq(b: Bytes, off: nat): u32
    requires off + 8 <= |b|
  {
    FromU32Be(b[off + 4..off + 8])
  }

  lemma SeqIsU64(n: u32)
    ensures SeqToU64Be(n) == U64Be(n) && |SeqToU64Be(n)| == 8
    ensures FromU64Be(SeqToU64Be(n)) == n && U64BeToSeq(SeqToU64Be(n), 0) == n
  {
    assert U32Be(0) == [0, 0, 0, 0];
    U64Decode(n);
    assert SeqToU64Be(n)[4..8] == U32Be(n);
    U32Inverse(n, U32Be(n));
  }

  function FrameBytes(kind: u8, seqNo: u32, payload: Bytes): Bytes {
    [kind] + U32Be(seqNo) + payload
  }

  method EncodeFrame(kind: u8, seqNo: u32, payload: Bytes) returns (b: array<u8>)
    ensures fresh(b) && b[..] == FrameBytes(kind, seqNo, payload)
  {
    b := new u8[5 + |payload|](_ => 0);
    b[0] := kind;
    SetBytes(b, U32Be(seqNo), 1);
    assert b[..5] == [kind] + U32Be(seqNo) by {
      assert b[..5] == b[..1] + b[1..5];
    }
    SetBytes(b, payload, 5);
    assert b[..] == b[..5] + b[5..5 + |payload|];
  }

  function DecodeFrame(b: Bytes): Option<(u8, u32, Bytes)> {
    if |b| < 5 then None else Some((b[0], FromU32Be(b[1..5]), b[5..]))
  }

  // Frames are byte strings of at least five bytes, one to one.
  lemma FrameLayout(kind: u8, seqNo: u32, payload: Bytes, b: Bytes)
    ensures DecodeFrame(FrameBytes(kind, seqNo, payload)) == Some((kind, seqNo, payload))
    ensures DecodeFrame(b).Some? <==> |b| >= 5
    ensures DecodeFrame(b).Some? ==> var (k, n, p) := DecodeFrame(b).value; FrameBytes(k, n, p) == b
    ensures DecodeFrame(b).Some? ==> DecodeFrame(b).value == (b[0], FromU32Be(b[1..5]), b[5..])
  {
    var f := FrameBytes(kind, seqNo, payload);
    assert f[1..5] == U32Be(seqNo) && f[5..] == payload;
    U32Inverse(seqNo, U32Be(seqNo));
    if |b| >= 5 {
      U32Inverse(0, b[1..5]);
      assert b == [b[0]] + b[1..5] + b[5..];
    }
  }

  /** How sealed data appears in bytes. */
  datatype Sealing = Sealing(write: ChunkData -> Bytes, read: Bytes -> ChunkData) {
    ghost predicate Lawful() {
      forall d :: read(write(d)) == d
    }
  }

  function Written(v: Sealing, f: Frame): Bytes {
    FrameBytes(f.kind, f.seqNo, v.write(f.data))
  }

  // What the target makes of received bytes; a buffer too short to be a frame is ignored like one of an
  // unknown kind.
  function Read(v: Sealing, b: Bytes): Frame {
    match DecodeFrame(b)
    case Some((kind, seqNo, payload)) => Frame(kind, seqNo, v.read(payload))
    case None => Frame(0, 0, Noise)
  }

  lemma ReadWritten(v: Sealing, f: Frame)
    requires v.Lawful()
    ensures Read(v, Written(v, f)) == f
  {
    FrameLayout(f.kind, f.seqNo, v.write(f.data), []);
  }

  // The frames on the channel.
  function Channel(v: Sealing, frames: seq<Frame>): (sent: seq<Bytes>)
    ensures |sent| == |frames| && forall i | 0 <= i < |frames| :: sent[i] == Written(v, frames[i])
  {
    seq(|frames|, i requires 0 <= i < |frames| => Written(v, frames[i]))
  }

  lemma ChannelAppend(v: Sealing, frames: seq<Frame>, f: Frame)
    ensures Channel(v, frames + [f]) == Channel(v, frames) + [Written(v, f)]
  {
  }

  // ---------------------------------------------------------------------------------------------
  // The source.

  function ChunkFrame(env: Env, payloads: seq<Bytes>, i: nat): Frame
    requires i < |payloads| && i <= U32_MAX
  {
    Frame(MSG_CHUNK, i, Chunk(env.key, i, payloads[i]))
  }

  function Chunks(env: Env, payloads: seq<Bytes>, n: nat): seq<Frame>
    requires n <= |payloads| <= U32_MAX
  {
    if n == 0 then [] else Chunks(env, payloads, n - 1) + [ChunkFrame(env, payloads, n - 1)]
  }

  function Entries(env: Env, payloads: seq<Bytes>, n: nat): (es: seq<Manifest.Entry>)
    requires n <= |payloads| <= U32_MAX
    ensures |es| == n
    ensures forall i | 0 <= i < n :: es[i] == Manifest.Entry(i, env.hash(payloads[i]))
  {
    if n == 0 then []
    else Entries(env, payloads, n - 1) + [Manifest.Entry(n - 1, env.hash(payloads[n - 1]))]
  }

  function ManifestOf(env: Env, payloads: seq<Bytes>): Bytes
    requires |payloads| <= U32_MAX
  {
    Manifest.Build(env.mac, Entries(env, payloads, |payloads|))
  }

  function ManifestFrame(env: Env, payloads: seq<Bytes>): Frame
    requires |payloads| <= U32_MAX
  {
    Frame(MSG_MANIFEST, |payloads|, Chunk(env.key, |payloads|, ManifestOf(env, payloads)))
  }

  // The two manifest buffers after `n` records.
  predicate Buffers(env: Env, payloads: seq<Bytes>, n: nat, ids: Bytes, hashes: Bytes)
    requires n <= |payloads| <= U32_MAX
  {
    && n * 8 <= |ids| && n * 32 <= |hashes|
    && (n == 0 ||
        (&& Buffers(env, payloads, n - 1, ids, hashes)
         && ids[(n - 1) * 8..n * 8] == SeqToU64Be(n - 1)
         && hashes[(n - 1) * 32..n * 32] == env.hash(payloads[n - 1])))
  }

  // They depend on what was written, no more.
  lemma {:induction false} BuffersFrame(env: Env, payloads: seq<Bytes>, n: nat, ids: Bytes,
                                        hashes: Bytes, ids2: Bytes, hashes2: Bytes)
    requires n <= |payloads| <= U32_MAX && Buffers(env, payloads, n, ids, hashes)
    requires n * 8 <= |ids2| && n * 32 <= |hashes2|
    requires ids2[..n * 8] == ids[..n * 8] && hashes2[..n * 32] == hashes[..n * 32]
    ensures Buffers(env, payloads, n, ids2, hashes2)
    decreases n
  {
    if n > 0 {
      var a, b := (n - 1) * 8, (n - 1) * 32;
      assert ids2[..a] == ids2[..n * 8][..a] == ids[..a];
      assert hashes2[..b] == hashes2[..n * 32][..b] == hashes[..b];
      BuffersFrame(env, payloads, n - 1, ids, hashes, ids2, hashes2);
      SubSlice(ids, 0, n * 8, a, n * 8);
      SubSlice(ids2, 0, n * 8, a, n * 8);
      SubSlice(hashes, 0, n * 32, b, n * 32);
      SubSlice(hashes2, 0, n * 32, b, n * 32);
    }
  }

  lemma {:induction false} BuffersAt(env: Env, payloads: seq<Bytes>, n: nat, ids: Bytes, hashes: Bytes, i: nat)
    requires i < n <= |payloads| <= U32_MAX && Buffers(env, payloads, n, ids, hashes)
    ensures i * 8 + 8 <= |ids| && i * 32 + 32 <= |hashes|
    ensures ids[i * 8..i * 8 + 8] == SeqToU64Be(i) && hashes[i * 32..i * 32 + 32] == env.hash(payloads[i])
    decreases n
  {
    if i < n - 1 {
      BuffersAt(env, payloads, n - 1, ids, hashes, i);
    }
  }

  lemma BuffersUnpack(env: Env, payloads: seq<Bytes>, ids: Bytes, hashes: Bytes)
    requires |payloads| <= U32_MAX && |ids| == |payloads| * 8 && |hashes| == |payloads| * 32
    requires Buffers(env, payloads, |payloads|, ids, hashes)
    ensures Manifest.Unpack(ids, hashes, |payloads|) == Entries(env, payloads, |payloads|)
  {
    hide SeqToU64Be;
    forall i: nat | i < |payloads|
      ensures Manifest.Unpack(ids, hashes, |payloads|)[i] == Entries(env, payloads, |payloads|)[i]
    {
      BuffersAt(env, payloads, |payloads|, ids, hashes, i);
      SeqIsU64(i);
    }
  }

  lemma BuildsManifest(env: Env, payloads: seq<Bytes>, ids: Bytes, hashes: Bytes)
    requires |payloads| <= U32_MAX && |ids| == |payloads| * 8 && |hashes| == |payloads| * 32
    requires Buffers(env, payloads, |payloads|, ids, hashes)
    ensures Manifest.SyncBuild(env.mac, ids, hashes) == Ok(ManifestOf(env, payloads))
  {
    BuffersUnpack(env, payloads, ids, hashes);
    Manifest.SyncBuildIs(env.mac, ids, hashes, |payloads|);
  }

  method WriteEntry(env: Env, payloads: seq<Bytes>, n: nat, ids: array<u8>, hashes: array<u8>)
    requires env.Lawful() && n < |payloads| <= U32_MAX && ids != hashes
    requires n * 8 + 8 <= ids.Length && n * 32 + 32 <= hashes.Length
    requires Buffers(env, payloads, n, ids[..], hashes[..])
    modifies ids, hashes
    ensures Buffers(env, payloads, n + 1, ids[..], hashes[..])
  {
    ghost var ids0, hashes0 := ids[..], hashes[..];
    var id, hash := SeqToU64Be(n), env.hash(payloads[n]);
    SetBytes(ids, id, n * 8);
    SetBytes(hashes, hash, n * 32);
    assert ids[..][..n * 8] == ids0[..n * 8] && ids[..][n * 8..n * 8 + 8] == id;
    assert hashes[..][..n * 32] == hashes0[..n * 32] && hashes[..][n * 32..n * 32 + 32] == hash;
    BuffersFrame(env, payloads, n, ids0, hashes0, ids[..], hashes[..]);
  }

  method Send(v: Sealing, f: Frame) returns (b: Bytes)
    ensures b == Written(v, f)
  {
    var frame := EncodeFrame(f.kind, f.seqNo, v.write(f.data));
    b := frame[..];
  }

  // The whole transfer, in order.
  function Frames(env: Env, payloads: seq<Bytes>): seq<Frame>
    requires |payloads| <= U32_MAX
  {
    Chunks(env, payloads, |payloads|) + [ManifestFrame(env, payloads)]
  }

  // The source transfer.  `total` is the record count taken beforehand, which sizes the manifest
  // buffers; writing past their end throws.  So the transfer completes exactly when no more records
  // are exported than were counted, and then it has sent every chunk and the manifest.
  method RunSourceTransfer(env: Env, v: Sealing, total: nat, payloads: seq<Bytes>) returns (sent: seq<Bytes>, ok: bool)
    requires env.Lawful() && |payloads| <= U32_MAX
    ensures ok <==> |payloads| <= total
    ensures ok ==> sent == Channel(v, Frames(env, payloads))
    ensures !ok ==> sent == Channel(v, Chunks(env, payloads, total))
  {
    hide SeqToU64Be, Written, Channel, ManifestOf;
    var manifestIds := new u8[total * 8];
    var manifestHashes := new u8[total * 32];
    var seqNo := 0;
    sent := [];
    while seqNo < |payloads|
      invariant seqNo <= |payloads| && seqNo <= total
      invariant sent == Channel(v, Chunks(env, payloads, seqNo))
      invariant Buffers(env, payloads, seqNo, manifestIds[..], manifestHashes[..])
    {
      if seqNo * 8 + 8 > manifestIds.Length {
        ok := false;
        return;
      }
      WriteEntry(env, payloads, seqNo, manifestIds, manifestHashes);
      var frame := Send(v, ChunkFrame(env, payloads, seqNo));
      ChannelAppend(v, Chunks(env, payloads, seqNo), ChunkFrame(env, payloads, seqNo));
      sent := sent + [frame];
      seqNo := seqNo + 1;
    }
    var manifest := FinishManifest(env, payloads, manifestIds, manifestHashes);
    ChannelAppend(v, Chunks(env, payloads, seqNo), ManifestFrame(env, payloads));
    var last := Send(v, Frame(MSG_MANIFEST, seqNo, Chunk(env.key, seqNo, manifest)));
    sent := sent + [last];
    ok := true;
  }

  method FinishManifest(env: Env, payloads: seq<Bytes>, ids: array<u8>, hashes: array<u8>) returns (manifest: Bytes)
    requires |payloads| <= U32_MAX && Buffers(env, payloads, |payloads|, ids[..], hashes[..])
    ensures manifest == ManifestOf(env, payloads)
  {
    var n := |payloads|;
    assert ids[..][..n * 8] == ids[..n * 8] && hashes[..][..n * 32] == hashes[..n * 32];
    BuffersFrame(env, payloads, n, ids[..], hashes[..], ids[..n * 8], hashes[..n * 32]);
    BuildsManifest(env, payloads, ids[..n * 8], hashes[..n * 32]);
    var built := Manifest.SyncBuild(env.mac, ids[..n * 8], hashes[..n * 32]);
    manifest := built.value;
  }
}
