/**
  The records of a device transfer (client/src/lib/cryptoDb.ts): one payload per stored record,
  store id || key length (2 bytes) || key || value.  Keys are given as their UTF-8 bytes; `J` is the
  type of JSON values, with an abstract encoding.
 */
module SyncRecords {
  import opened Symbolic
  import opened ByteCodec

  datatype Value<J> = Buffer(bytes: Bytes) | Object(json: J)

  datatype JsonCodec<!J> = JsonCodec(stringify: J -> Bytes, parse: Bytes -> Option<J>, emptyObject: J)

  ghost predicate Lawful<J(!new)>(c: JsonCodec<J>) {
    forall j :: c.parse(c.stringify(j)) == Some(j)
  }

  datatype StoreInfo = StoreInfo(id: u8, binary: bool)

  // identity, ratchet, group_sender, group_receiver, msg_plaintext, media_keys
  const SYNC_STORES: seq<StoreInfo> := [
    StoreInfo(1, true), StoreInfo(2, true), StoreInfo(3, true), StoreInfo(4, true),
    StoreInfo(5, false), StoreInfo(6, true)]

  /** The stores of all ids together, by store id and key. */
  type Database<J> = map<(u8, Bytes), Value<J>>

  // The entry of the table with a given id.
  function Meta(id: u8): Option<StoreInfo> {
    if 1 <= id <= 6 then Some(SYNC_STORES[id as nat - 1]) else None
  }

  // A buffer that JSON.stringify is applied to comes out as an empty object.
  function ValueBytes<J>(c: JsonCodec<J>, binary: bool, v: Value<J>): Bytes {
    match v
    case Buffer(b) => if binary then b else c.stringify(c.emptyObject)
    case Object(j) => c.stringify(j)
  }

  function RecordBytes(id: u8, key: Bytes, value: Bytes): Bytes {
    [id, ((|key| / 256) % 256) as u8, (|key| % 256) as u8] + key + value
  }

  lemma Joined(b: Bytes, i: nat)
    requires i <= |b|
    ensures b == b[..i] + b[i..]
  {
  }

  method EncodeRecord(id: u8, key: Bytes, value: Bytes) returns (payload: array<u8>)
    ensures fresh(payload) && payload[..] == RecordBytes(id, key, value)
  {
    payload := new u8[1 + 2 + |key| + |value|](_ => 0);
    payload[0] := id;
    payload[1] := ((|key| / 256) % 256) as u8;
    payload[2] := (|key| % 256) as u8;
    ghost var head := payload[..3];
    var end := 3 + |key|;
    SetBytes(payload, key, 3);
    Joined(payload[..end], 3);
    assert payload[..end][..3] == head && payload[..end][3..] == key;
    SetBytes(payload, value, end);
    Joined(payload[..], end);
    assert payload[..][end..] == value;
  }

  // Takes a payload apart.
  function ParseRecord(p: Bytes): Result<(u8, Bytes, Bytes)> {
    if |p| < 4 then Err(MalformedInput)
    else
      var keyLen := p[1] as nat * 256 + p[2] as nat;
      if |p| < 3 + keyLen then Err(MalformedInput) else Ok((p[0], p[3..3 + keyLen], p[3 + keyLen..]))
  }

  // The record a payload makes the target write.
  function Decode<J>(c: JsonCodec<J>, p: Bytes): Result<(u8, Bytes, Value<J>)> {
    var (id, key, raw) :- ParseRecord(p);
    var meta := Meta(id);
    if meta.None? then Err(MalformedInput)
    else if meta.value.binary then Ok((id, key, Buffer(raw)))
    else match c.parse(raw)
      case None => Err(MalformedInput)
      case Some(j) => Ok((id, key, Object(j)))
  }

  function Import<J>(c: JsonCodec<J>, db: Database<J>, p: Bytes): Result<Database<J>> {
    var (id, key, v) :- Decode(c, p);
    Ok(db[(id, key) := v])
  }

  function Export<J>(c: JsonCodec<J>, binary: bool, id: u8, key: Bytes, v: Value<J>): Bytes {
    RecordBytes(id, key, ValueBytes(c, binary, v))
  }

  // ---------------------------------------------------------------------------------------------

  lemma RecordParses(id: u8, key: Bytes, value: Bytes)
    ensures ParseRecord(RecordBytes(id, key, value)) == Ok((id, key, value))
            <==> |key| < 0x1_0000 && |key| + |value| >= 1
    ensures ParseRecord(RecordBytes(id, key, value)).Ok? ==>
              var r := ParseRecord(RecordBytes(id, key, value)).value; r.0 == id && |r.1| < 0x1_0000
  {
    var p := RecordBytes(id, key, value);
    assert p[0] == id && p[1] as nat == (|key| / 256) % 256 && p[2] as nat == |key| % 256;
    if |key| < 0x1_0000 {
      assert p[3..3 + |key|] == key && p[3 + |key|..] == value;
    }
  }

  // What the target stores for a value: an object in a binary store arrives as the bytes of its JSON,
  // a buffer in the JSON store as an empty object.
  function Arrived<J>(c: JsonCodec<J>, id: u8, v: Value<J>): Value<J> {
    match v
    case Buffer(b) => if id != 5 then v else Object(c.emptyObject)
    case Object(j) => if id != 5 then Buffer(c.stringify(j)) else v
  }

  /** The store is known, the key fits the length field, and the payload is not too short. */
  predicate Importable<J>(c: JsonCodec<J>, id: u8, key: Bytes, v: Value<J>) {
    1 <= id <= 6 && |key| < 0x1_0000 && |key| + |ValueBytes(c, id != 5, v)| >= 1
  }

  /** The value is of the kind its store holds.  (The identity record, an object in a binary store, is not.) */
  predicate KindFits<J>(id: u8, v: Value<J>) {
    v.Buffer? <==> id != 5
  }

  // A record is read back, under its own store and key, exactly when it is importable.
  lemma RecordArrives<J(!new)>(c: JsonCodec<J>, id: u8, key: Bytes, v: Value<J>)
    requires Lawful(c)
    ensures Decode(c, Export(c, id != 5, id, key, v)) == Ok((id, key, Arrived(c, id, v))) <==> Importable(c, id, key, v)
  {
    RecordParses(id, key, ValueBytes(c, id != 5, v));
  }

  // It arrives as it was exactly when, besides, its value is of the kind its store holds.
  lemma RecordRoundTrip<J(!new)>(c: JsonCodec<J>, id: u8, key: Bytes, v: Value<J>)
    requires Lawful(c)
    ensures Decode(c, Export(c, id != 5, id, key, v)) == Ok((id, key, v)) <==> Importable(c, id, key, v) && KindFits(id, v)
  {
    RecordParses(id, key, ValueBytes(c, id != 5, v));
  }

  // ---------------------------------------------------------------------------------------------
  // Whole databases.

  function ExportAll<J>(c: JsonCodec<J>, db: Database<J>, order: seq<(u8, Bytes)>): (payloads: seq<Bytes>)
    requires forall k | k in order :: k in db
    ensures |payloads| == |order|
  {
    if order == [] then []
    else
      var init, k := order[..|order| - 1], order[|order| - 1];
      ExportAll(c, db, init) + [Export(c, k.0 != 5, k.0, k.1, db[k])]
  }

  function ImportAll<J>(c: JsonCodec<J>, db: Database<J>, payloads: seq<Bytes>): Result<Database<J>>
    decreases |payloads|
  {
    if payloads == [] then Ok(db)
    else
      var d :- ImportAll(c, db, payloads[..|payloads| - 1]);
      Import(c, d, payloads[|payloads| - 1])
  }

  class CryptoDb<!J> {
    const codec: JsonCodec<J>
    var stores: Database<J>

    constructor (codec: JsonCodec<J>)
      ensures this.codec == codec && stores == map[]
    {
      this.codec := codec;
      stores := map[];
    }

    // `order` is the order in which the stores are walked.
    method ExportSyncRecords(order: seq<(u8, Bytes)>) returns (payloads: seq<Bytes>)
      requires forall k | k in order :: k in stores
      ensures payloads == ExportAll(codec, stores, order)
    {
      payloads := [];
      for i := 0 to |order|
        invariant payloads == ExportAll(codec, stores, order[..i])
      {
        var (id, key) := order[i];
        assert order[i] in order;
        assert order[..i + 1][..i] == order[..i];
        var payload := EncodeRecord(id, key, ValueBytes(codec, id != 5, stores[(id, key)]));
        payloads := payloads + [payload[..]];
      }
      assert order[..|order|] == order;
    }

    // Nothing is written when the payload is refused.
    method ImportSyncRecord(payload: Bytes) returns (error: Option<CryptoError>)
      modifies this`stores
      ensures match Import(codec, old(stores), payload)
              case Ok(db) => error == None && stores == db
              case Err(e) => error == Some(e) && stores == old(stores)
    {
      if |payload| < 4 {
        return Some(MalformedInput);
      }
      var id := payload[0];
      var keyLen := payload[1] as nat * 256 + payload[2] as nat;
      if |payload| < 3 + keyLen {
        return Some(MalformedInput);
      }
      var key, raw := payload[3..3 + keyLen], payload[3 + keyLen..];
      var meta := Meta(id);
      if meta.None? {
        return Some(MalformedInput);
      }
      if meta.value.binary {
        stores := stores[(id, key) := Buffer(raw)];
        return None;
      }
      var json := codec.parse(raw);
      if json.None? {
        return Some(MalformedInput);
      }
      stores := stores[(id, key) := Object(json.value)];
      return None;
    }
  }

  lemma {:induction false} ImportsListed<J(!new)>(c: JsonCodec<J>, db: Database<J>, order: seq<(u8, Bytes)>, target: Database<J>)
    requires Lawful(c) && (forall k | k in order :: k in db && Importable(c, k.0, k.1, db[k]))
    ensures ImportAll(c, target, ExportAll(c, db, order)).Ok?
    ensures var r := ImportAll(c, target, ExportAll(c, db, order)).value;
            && (forall k :: k in r <==> k in target || k in order)
            && (forall k | k in r :: r[k] == if k in order then Arrived(c, k.0, db[k]) else target[k])
    decreases |order|
  {
    if order != [] {
      var init, k := order[..|order| - 1], order[|order| - 1];
      assert order == init + [k];
      ImportsListed(c, db, init, target);
      RecordArrives(c, k.0, k.1, db[k]);
      var payloads := ExportAll(c, db, order);
      assert payloads[..|payloads| - 1] == ExportAll(c, db, init);
    }
  }

  // The database a transfer makes of `db`.
  function ArrivedAll<J>(c: JsonCodec<J>, db: Database<J>): Database<J> {
    map k | k in db :: Arrived(c, k.0, db[k])
  }

  // Exporting every record of a database and importing the payloads, in whatever order the records
  // were listed, adds that database to the target's; the records whose kind fits their store, all but
  // the identity record, are there unchanged.
  lemma TransferReproduces<J(!new)>(c: JsonCodec<J>, db: Database<J>, order: seq<(u8, Bytes)>, target: Database<J>)
    requires Lawful(c) && (forall k | k in db :: Importable(c, k.0, k.1, db[k]))
    requires forall k :: k in order <==> k in db
    ensures ImportAll(c, target, ExportAll(c, db, order)) == Ok(target + ArrivedAll(c, db))
    ensures forall k | k in db && KindFits(k.0, db[k]) :: (target + ArrivedAll(c, db))[k] == db[k]
  {
    ImportsListed(c, db, order, target);
    hide ImportAll, ExportAll, Importable;
    var r, t := ImportAll(c, target, ExportAll(c, db, order)).value, target + ArrivedAll(c, db);
    assert r.Keys == t.Keys;
    assert forall k | k in r :: r[k] == t[k];
    assert r == t;
  }
}
