/**
  The transfer manifest (crypto/core/src/device_sync.rs) and its packing by the WASM bindings.
  `mac` is HMAC-SHA-256 under the MAC key of the session.
 */
module Manifest {
  import opened Symbolic
  import opened ByteCodec

  const MANIFEST_VERSION: u8 := 1
  const ENTRY_BYTES: nat := 40

  datatype Entry = Entry(id: u64, hash: Bytes)

  predicate Sized(entries: seq<Entry>) {
    forall i | 0 <= i < |entries| :: |entries[i].hash| == 32
  }

  function EntryBytes(e: Entry): Bytes {
    U64Be(e.id) + e.hash
  }

  function EntriesBytes(entries: seq<Entry>): Bytes {
    if entries == [] then [] else EntriesBytes(entries[..|entries| - 1]) + EntryBytes(entries[|entries| - 1])
  }

  // The count is cast to 32 bits.
  function Truncate(n: nat): (r: u32)
    ensures n <= U32_MAX <==> r == n
  {
    n % 0x1_0000_0000
  }

  function Framed(count: Bytes, entries: Bytes): Bytes {
    [MANIFEST_VERSION] + count + entries
  }

  function Body(entries: seq<Entry>): Bytes {
    Framed(U32Be(Truncate(|entries|)), EntriesBytes(entries))
  }

  function Build(mac: Bytes -> Bytes, entries: seq<Entry>): Bytes {
    Body(entries) + mac(Body(entries))
  }

  method BuildManifest(mac: Bytes -> Bytes, entries: seq<Entry>) returns (body: Bytes)
    ensures body == Build(mac, entries)
  {
    hide U32Be, U64Be;
    body := [MANIFEST_VERSION] + U32Be(Truncate(|entries|));
    for i := 0 to |entries|
      invariant body == Framed(U32Be(Truncate(|entries|)), EntriesBytes(entries[..i]))
    {
      assert entries[..i + 1][..i] == entries[..i];
      body := body + (U64Be(entries[i].id) + entries[i].hash);
    }
    assert entries[..|entries|] == entries;
    body := body + mac(body);
  }

  function EntryAt(b: Bytes, off: nat): Entry
    requires off + 40 <= |b|
  {
    Entry(FromU64Be(b[off..off + 8]), b[off + 8..off + 40])
  }

  function EntriesAt(body: Bytes, count: nat): (entries: seq<Entry>)
    requires |body| >= 5 + count * ENTRY_BYTES
    ensures |entries| == count && Sized(entries)
  {
    if count == 0 then [] else EntriesAt(body, count - 1) + [EntryAt(body, 5 + (count - 1) * ENTRY_BYTES)]
  }

  function Verify(mac: Bytes -> Bytes, data: Bytes): Result<seq<Entry>> {
    if |data| < 37 then Err(InvalidCiphertext)
    else
      var body, tag := data[..|data| - 32], data[|data| - 32..];
      if mac(body) != tag then Err(ManifestTampered)
      else if body[0] != MANIFEST_VERSION then Err(InvalidCiphertext)
      else
        var count := FromU32Be(body[1..5]);
        if |body| != 5 + count * ENTRY_BYTES then Err(InvalidCiphertext)
        else Ok(EntriesAt(body, count))
  }

  method VerifyManifest(mac: Bytes -> Bytes, data: Bytes) returns (r: Result<seq<Entry>>)
    ensures r == Verify(mac, data)
  {
    if |data| < 37 {
      return Err(InvalidCiphertext);
    }
    var body, tag := data[..|data| - 32], data[|data| - 32..];
    if mac(body) != tag {
      return Err(ManifestTampered);
    }
    if body[0] != MANIFEST_VERSION {
      return Err(InvalidCiphertext);
    }
    var count := FromU32Be(body[1..5]);
    if |body| != 5 + count * ENTRY_BYTES {
      return Err(InvalidCiphertext);
    }
    var entries: seq<Entry> := [];
    for i := 0 to count
      invariant entries == EntriesAt(body, i)
    {
      entries := entries + [EntryAt(body, 5 + i * ENTRY_BYTES)];
    }
    return Ok(entries);
  }

  lemma {:induction false} EntriesLength(entries: seq<Entry>)
    requires Sized(entries)
    ensures |EntriesBytes(entries)| == |entries| * ENTRY_BYTES
  {
    if entries != [] {
      EntriesLength(entries[..|entries| - 1]);
    }
  }

  lemma {:induction false} EntriesBytesAt(entries: seq<Entry>, i: nat)
    requires Sized(entries) && i < |entries|
    ensures |EntriesBytes(entries)| == |entries| * ENTRY_BYTES
    ensures EntriesBytes(entries)[i * ENTRY_BYTES..i * ENTRY_BYTES + 40] == EntryBytes(entries[i])
  {
    hide U64Be;
    EntriesLength(entries);
    var init := entries[..|entries| - 1];
    EntriesLength(init);
    var b := EntriesBytes(init) + EntryBytes(entries[|entries| - 1]);
    assert EntriesBytes(entries) == b;
    if i < |init| {
      EntriesBytesAt(init, i);
      assert b[i * ENTRY_BYTES..i * ENTRY_BYTES + 40] == EntriesBytes(init)[i * ENTRY_BYTES..i * ENTRY_BYTES + 40];
    } else {
      assert b[i * ENTRY_BYTES..i * ENTRY_BYTES + 40] == EntryBytes(entries[i]);
    }
  }

  lemma EntryInverse(e: Entry, b: Bytes)
    requires |e.hash| == 32 && |b| == 40
    ensures EntryAt(EntryBytes(e), 0) == e
    ensures EntryBytes(EntryAt(b, 0)) == b
  {
    Split(U64Be(e.id), e.hash);
    U64Decode(e.id);
    U64Encode(b[0..8]);
    assert EntryBytes(e)[0..8] == U64Be(e.id) && EntryBytes(e)[8..40] == e.hash;
    assert b == b[0..8] + b[8..40];
  }

  lemma EntryWindow(b: Bytes, off: nat)
    requires off + 40 <= |b|
    ensures EntryAt(b, off) == EntryAt(b[off..off + 40], 0)
  {
    var w := b[off..off + 40];
    assert w[0..8] == b[off..off + 8] && w[8..40] == b[off + 8..off + 40];
  }

  lemma FramedParts(count: Bytes, rest: Bytes)
    requires |count| == 4
    ensures var f := Framed(count, rest); |f| == 5 + |rest| && f[0] == MANIFEST_VERSION && f[1..5] == count && f[5..] == rest
  {
  }

  lemma FramedEntryAt(count: Bytes, entries: seq<Entry>, i: nat)
    requires |count| == 4 && Sized(entries) && i < |entries|
    ensures |EntriesBytes(entries)| == |entries| * ENTRY_BYTES
    ensures EntryAt(Framed(count, EntriesBytes(entries)), 5 + i * ENTRY_BYTES) == entries[i]
  {
    hide U64Be, FromU64Be;
    EntriesBytesAt(entries, i);
    var body := Framed(count, EntriesBytes(entries));
    EntryWindow(body, 5 + i * ENTRY_BYTES);
    assert body[5 + i * ENTRY_BYTES..5 + i * ENTRY_BYTES + 40] == EntriesBytes(entries)[i * ENTRY_BYTES..i * ENTRY_BYTES + 40];
    EntryInverse(entries[i], EntryBytes(entries[i]));
  }

  lemma {:induction false} FramedEntries(count: Bytes, entries: seq<Entry>, n: nat)
    requires |count| == 4 && Sized(entries) && n <= |entries|
    ensures |EntriesBytes(entries)| == |entries| * ENTRY_BYTES
    ensures EntriesAt(Framed(count, EntriesBytes(entries)), n) == entries[..n]
    decreases n
  {
    hide U64Be, FromU64Be;
    EntriesLength(entries);
    if n > 0 {
      FramedEntries(count, entries, n - 1);
      FramedEntryAt(count, entries, n - 1);
      assert entries[..n] == entries[..n - 1] + [entries[n - 1]];
    }
  }

  // Verifying a built manifest returns its entries exactly when there are fewer than 2^32 of them; a
  // longer list is refused.
  lemma ManifestRoundTrip(mac: Bytes -> Bytes, entries: seq<Entry>)
    requires Sized(entries) && |mac(Body(entries))| == 32
    ensures Verify(mac, Build(mac, entries)) == Ok(entries) <==> |entries| <= U32_MAX
    ensures |entries| > U32_MAX ==> Verify(mac, Build(mac, entries)) == Err(InvalidCiphertext)
  {
    var body, count := Body(entries), U32Be(Truncate(|entries|));
    Split(body, mac(body));
    FramedParts(count, EntriesBytes(entries));
    FramedEntries(count, entries, |entries|);
    U32Inverse(Truncate(|entries|), count);
    var data := Build(mac, entries);
    assert data[..|data| - 32] == body && data[|data| - 32..] == mac(body);
    assert entries[..|entries|] == entries;
  }

  lemma {:induction false} EntriesCanonical(body: Bytes, count: nat)
    requires |body| >= 5 + count * ENTRY_BYTES
    ensures EntriesBytes(EntriesAt(body, count)) == body[5..5 + count * ENTRY_BYTES]
  {
    hide U64Be, FromU64Be;
    if count > 0 {
      var off := 5 + (count - 1) * ENTRY_BYTES;
      EntriesCanonical(body, count - 1);
      EntryWindow(body, off);
      var w := body[off..off + 40];
      EntryInverse(EntryAt(body, off), w);
      var front := EntriesAt(body, count - 1);
      assert (front + [EntryAt(body, off)])[..count - 1] == front;
      assert body[5..off + 40] == body[5..off] + w;
    }
  }

  lemma BodyCanonical(body: Bytes, count: u32)
    requires |body| == 5 + count * ENTRY_BYTES && body[0] == MANIFEST_VERSION && U32Be(count) == body[1..5]
    ensures Body(EntriesAt(body, count)) == body
  {
    EntriesCanonical(body, count);
    assert body[5..5 + count * ENTRY_BYTES] == body[5..];
    assert Truncate(|EntriesAt(body, count)|) == count;
    Rejoin(body);
  }

  lemma Rejoin(b: Bytes)
    requires |b| >= 5
    ensures b == [b[0]] + b[1..5] + b[5..]
  {
  }

  // Only built manifests verify: an accepted byte string is the one built from what it returns.
  lemma ManifestCanonical(mac: Bytes -> Bytes, data: Bytes)
    requires Verify(mac, data).Ok?
    ensures Sized(Verify(mac, data).value) && |Verify(mac, data).value| <= U32_MAX
    ensures Build(mac, Verify(mac, data).value) == data
  {
    var body, tag := data[..|data| - 32], data[|data| - 32..];
    U32Inverse(0, body[1..5]);
    BodyCanonical(body, FromU32Be(body[1..5]));
    assert data == body + tag;
  }

  // What is accepted ends in the MAC of everything before it; what was built under another MAC is refused
  // for that reason.
  lemma ManifestAuthenticated(mac: Bytes -> Bytes, mac': Bytes -> Bytes, data: Bytes, entries: seq<Entry>)
    requires Sized(entries) && |mac'(Body(entries))| == 32
    ensures Verify(mac, data).Ok? ==> |data| >= 37 && data[|data| - 32..] == mac(data[..|data| - 32])
    ensures mac(Body(entries)) != mac'(Body(entries)) ==> Verify(mac, Build(mac', entries)) == Err(ManifestTampered)
    ensures Verify(mac, data) == Err(ManifestTampered)
            <==> |data| >= 37 && data[|data| - 32..] != mac(data[..|data| - 32])
    ensures Verify(mac, data).Err? ==> Verify(mac, data).error in {InvalidCiphertext, ManifestTampered}
    ensures Verify(mac, data).Ok? ==> data[0] == 1 && |data| == 37 + FromU32Be(data[1..5]) * 40
    ensures |Build(mac', entries)| >= 37 && FromU32Be(Build(mac', entries)[1..5]) == |entries| % 0x1_0000_0000
    ensures |Build(mac', entries)| >= 37 && Build(mac', entries)[|Build(mac', entries)| - 32..] == mac'(Body(entries))
  {
    var built := Build(mac', entries);
    Split(Body(entries), mac'(Body(entries)));
    assert built[..|built| - 32] == Body(entries) && built[|built| - 32..] == mac'(Body(entries));
    FramedParts(U32Be(Truncate(|entries|)), EntriesBytes(entries));
    U32Inverse(Truncate(|entries|), U32Be(Truncate(|entries|)));
    assert built[1..5] == Body(entries)[1..5];
    if |data| >= 37 {
      assert data[..|data| - 32][1..5] == data[1..5];
    }
  }

  // ---------------------------------------------------------------------------------------------
  // The packed arrays the client passes and receives.

  function Unpack(ids: Bytes, hashes: Bytes, n: nat): seq<Entry>
    requires |ids| == n * 8 && |hashes| == n * 32
  {
    seq(n, i requires 0 <= i < n => Entry(FromU64Be(ids[i * 8..i * 8 + 8]), hashes[i * 32..i * 32 + 32]))
  }

  function SyncBuild(mac: Bytes -> Bytes, ids: Bytes, hashes: Bytes): Result<Bytes> {
    if |ids| % 8 != 0 || |hashes| % 32 != 0 || |hashes| / 32 != |ids| / 8 then Err(MalformedInput)
    else Ok(Build(mac, Unpack(ids, hashes, |ids| / 8)))
  }

  lemma SyncBuildIs(mac: Bytes -> Bytes, ids: Bytes, hashes: Bytes, n: nat)
    requires |ids| == n * 8 && |hashes| == n * 32
    ensures SyncBuild(mac, ids, hashes) == Ok(Build(mac, Unpack(ids, hashes, n)))
  {
    assert |ids| / 8 == n && |ids| % 8 == 0 && |hashes| / 32 == n && |hashes| % 32 == 0;
  }

  // The packed arrays are accepted exactly when they hold whole entries, equally many.
  lemma SyncBuildAccepts(mac: Bytes -> Bytes, ids: Bytes, hashes: Bytes)
    ensures SyncBuild(mac, ids, hashes).Ok? <==> exists n: nat :: |ids| == n * 8 && |hashes| == n * 32
    ensures SyncBuild(mac, ids, hashes).Err? ==> SyncBuild(mac, ids, hashes) == Err(MalformedInput)
  {
    if SyncBuild(mac, ids, hashes).Ok? {
      assert |ids| == (|ids| / 8) * 8 && |hashes| == (|ids| / 8) * 32;
    }
    if n: nat :| |ids| == n * 8 && |hashes| == n * 32 {
      SyncBuildIs(mac, ids, hashes, n);
    }
  }

  function SyncVerify(mac: Bytes -> Bytes, data: Bytes): Result<Bytes> {
    var entries :- Verify(mac, data);
    Ok(EntriesBytes(entries))
  }
}
