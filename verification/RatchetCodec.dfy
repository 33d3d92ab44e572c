/** The stored form of a ratchet session: `to_bytes` and `from_bytes` of double_ratchet.rs. */
module RatchetCodec {
  import opened Symbolic
  import opened ByteCodec
  import DoubleRatchet
  import Worker

  const SERIAL_VERSION: u8 := 1

  datatype SkipId = SkipId(dh: Bytes, n: u32)

  /** The session with its keys as bytes. */
  datatype WireState = WireState(
    dhs: Bytes, dhr: Option<Bytes>, rk: Bytes, cks: Option<Bytes>, ckr: Option<Bytes>,
    ns: u32, nr: u32, pn: u32, skipped: map<SkipId, Bytes>)
  {
    // The array lengths of the fields.
    predicate Valid() {
      && |dhs| == 32 && |rk| == 32
      && (dhr.Some? ==> |dhr.value| == 32)
      && (cks.Some? ==> |cks.value| == 32)
      && (ckr.Some? ==> |ckr.value| == 32)
      && (forall k | k in skipped :: |skipped[k]| == 32)
    }

    // The counts of the cache fit their fields.
    predicate Fits() {
      (forall k | k in skipped :: |k.dh| < 0x1_0000) && |skipped| <= U32_MAX
    }

    // A receiving chain comes with the remote key it belongs to; decryption relies on it.
    predicate Usable() {
      ckr.Some? ==> dhr.Some?
    }

    // The order in which the map is walked: every key once.
    ghost predicate Lists(order: seq<SkipId>) {
      && (forall k :: k in order <==> k in skipped)
      && (forall i, j :: 0 <= i < j < |order| ==> order[i] != order[j])
    }
  }

  // ---------------------------------------------------------------------------------------------
  // Writing.  The lengths are cast to the widths of their fields.

  function EntryBytes(k: SkipId, mk: Bytes): Bytes {
    U16Be(|k.dh| % 0x1_0000) + (k.dh + (U32Be(k.n) + mk))
  }

  function EntriesBytes(skipped: map<SkipId, Bytes>, order: seq<SkipId>): Bytes
    requires forall k | k in order :: k in skipped
  {
    if order == [] then [] else EntryBytes(order[0], skipped[order[0]]) + EntriesBytes(skipped, order[1..])
  }

  function HeadBytes(s: WireState): Bytes {
    [SERIAL_VERSION] + s.dhs + OptionBytes(s.dhr) + s.rk
  }

  function ChainBytes(s: WireState): Bytes {
    OptionBytes(s.cks) + OptionBytes(s.ckr)
  }

  function CounterBytes(s: WireState, count: u32): Bytes {
    U32Be(s.ns) + U32Be(s.nr) + U32Be(s.pn) + U32Be(count)
  }

  function ToBytesIn(s: WireState, order: seq<SkipId>): Bytes
    requires forall k | k in order :: k in s.skipped
  {
    HeadBytes(s) + (ChainBytes(s) + (CounterBytes(s, |order| % (U32_MAX + 1)) + EntriesBytes(s.skipped, order)))
  }

  lemma {:induction false} EntriesAppend(skipped: map<SkipId, Bytes>, order: seq<SkipId>, k: SkipId)
    requires forall j | j in order + [k] :: j in skipped
    ensures forall j | j in order :: j in order + [k]
    ensures EntriesBytes(skipped, order + [k]) == EntriesBytes(skipped, order) + EntryBytes(k, skipped[k])
  {
    hide EntryBytes;
    assert k in order + [k];
    forall j | j in order ensures j in order + [k] {}
    if order == [] {
      assert [k][1..] == [];
      assert EntriesBytes(skipped, [k]) == EntryBytes(k, skipped[k]);
    } else {
      assert (order + [k])[1..] == order[1..] + [k];
      assert order == [order[0]] + order[1..];
      EntriesAppend(skipped, order[1..], k);
    }
  }

  method ToBytes(s: WireState, order: seq<SkipId>) returns (buf: Bytes)
    requires s.Valid() && s.Lists(order)
    ensures buf == ToBytesIn(s, order)
  {
    buf := [SERIAL_VERSION] + s.dhs + OptionBytes(s.dhr) + s.rk;
    buf := buf + (OptionBytes(s.cks) + OptionBytes(s.ckr));
    buf := buf + (U32Be(s.ns) + U32Be(s.nr) + U32Be(s.pn) + U32Be(|order| % (U32_MAX + 1)));
    ghost var fixed := buf;
    for i := 0 to |order|
      invariant buf == fixed + EntriesBytes(s.skipped, order[..i])
    {
      var k := order[i];
      assert order[..i + 1] == order[..i] + [k];
      EntriesAppend(s.skipped, order[..i], k);
      buf := buf + (U16Be(|k.dh| % 0x1_0000) + (k.dh + (U32Be(k.n) + s.skipped[k])));
    }
    assert order[..|order|] == order;
    Reassociate(HeadBytes(s), ChainBytes(s), CounterBytes(s, |order| % (U32_MAX + 1)), EntriesBytes(s.skipped, order));
  }

  lemma Reassociate(a: Bytes, b: Bytes, c: Bytes, d: Bytes)
    ensures a + b + c + d == a + (b + (c + d))
  {
  }

  // ---------------------------------------------------------------------------------------------
  // Reading.

  function ParseEntry(d: Bytes): Result<(SkipId, Bytes, Bytes)> {
    var (len, d1) :- ReadN(d, 2);
    var (dh, d2) :- ReadN(d1, FromU16Be(len));
    var (n, d3) :- ReadN(d2, 4);
    var (mk, d4) :- ReadN(d3, 32);
    Ok((SkipId(dh, FromU32Be(n)), mk, d4))
  }

  function ParseEntries(d: Bytes, count: nat, m: map<SkipId, Bytes>): Result<map<SkipId, Bytes>> {
    if count == 0 then Ok(m)
    else
      var (k, mk, rest) :- ParseEntry(d);
      ParseEntries(rest, count - 1, m[k := mk])
  }

  // The session without its counters and cache.
  function ParseKeys(d: Bytes): Result<(WireState, Bytes)> {
    var (version, d0) :- ReadN(d, 1);
    if version[0] != SERIAL_VERSION then Err(InvalidCiphertext)
    else
      var (dhs, d1) :- ReadN(d0, 32);
      var (dhr, d2) :- ReadOption(d1);
      var (rk, d3) :- ReadN(d2, 32);
      var (cks, d4) :- ReadOption(d3);
      var (ckr, d5) :- ReadOption(d4);
      Ok((WireState(dhs, dhr, rk, cks, ckr, 0, 0, 0, map[]), d5))
  }

  function ParseCounters(d: Bytes): Result<(u32, u32, u32, u32, Bytes)> {
    var (ns, d1) :- ReadN(d, 4);
    var (nr, d2) :- ReadN(d1, 4);
    var (pn, d3) :- ReadN(d2, 4);
    var (count, d4) :- ReadN(d3, 4);
    Ok((FromU32Be(ns), FromU32Be(nr), FromU32Be(pn), FromU32Be(count), d4))
  }

  function ParseState(d: Bytes): Result<WireState> {
    var (s, d1) :- ParseKeys(d);
    var (ns, nr, pn, count, d2) :- ParseCounters(d1);
    var m :- ParseEntries(d2, count, map[]);
    Ok(s.(ns := ns, nr := nr, pn := pn, skipped := m))
  }

  method ReadKeys(p: ByteParser) returns (r: Result<WireState>)
    requires p.Valid()
    modifies p`pos
    ensures p.Valid()
    ensures match ParseKeys(old(p.Rest()))
            case Ok((s, rest)) => r == Ok(s) && p.Rest() == rest
            case Err(e) => r == Err(e)
  {
    var version := p.ReadU8();
    if version.Err? { return Err(version.error); }
    if version.value != SERIAL_VERSION { return Err(InvalidCiphertext); }
    var dhs := p.ReadBytes(32);
    if dhs.Err? { return Err(dhs.error); }
    var dhr := p.ReadOptional();
    if dhr.Err? { return Err(dhr.error); }
    var rk := p.ReadBytes(32);
    if rk.Err? { return Err(rk.error); }
    var cks := p.ReadOptional();
    if cks.Err? { return Err(cks.error); }
    var ckr := p.ReadOptional();
    if ckr.Err? { return Err(ckr.error); }
    return Ok(WireState(dhs.value, dhr.value, rk.value, cks.value, ckr.value, 0, 0, 0, map[]));
  }

  method ReadCounters(p: ByteParser) returns (r: Result<(u32, u32, u32, u32)>)
    requires p.Valid()
    modifies p`pos
    ensures p.Valid()
    ensures match ParseCounters(old(p.Rest()))
            case Ok((ns, nr, pn, count, rest)) => r == Ok((ns, nr, pn, count)) && p.Rest() == rest
            case Err(e) => r == Err(e)
  {
    var ns := p.ReadU32();
    if ns.Err? { return Err(ns.error); }
    var nr := p.ReadU32();
    if nr.Err? { return Err(nr.error); }
    var pn := p.ReadU32();
    if pn.Err? { return Err(pn.error); }
    var count := p.ReadU32();
    if count.Err? { return Err(count.error); }
    return Ok((ns.value, nr.value, pn.value, count.value));
  }

  method ReadEntry(p: ByteParser) returns (r: Result<(SkipId, Bytes)>)
    requires p.Valid()
    modifies p`pos
    ensures p.Valid()
    ensures match ParseEntry(old(p.Rest()))
            case Ok((k, mk, rest)) => r == Ok((k, mk)) && p.Rest() == rest
            case Err(e) => r == Err(e)
  {
    var len := p.ReadU16();
    if len.Err? { return Err(len.error); }
    var dh := p.ReadBytes(len.value);
    if dh.Err? { return Err(dh.error); }
    var n := p.ReadU32();
    if n.Err? { return Err(n.error); }
    var mk := p.ReadBytes(32);
    if mk.Err? { return Err(mk.error); }
    return Ok((SkipId(dh.value, n.value), mk.value));
  }

  method ReadEntries(p: ByteParser, count: u32) returns (r: Result<map<SkipId, Bytes>>)
    requires p.Valid()
    modifies p`pos
    ensures p.Valid()
    ensures r == ParseEntries(old(p.Rest()), count, map[])
  {
    var skipped: map<SkipId, Bytes> := map[];
    var i := 0;
    while i < count
      invariant p.Valid() && i <= count
      invariant ParseEntries(old(p.Rest()), count, map[]) == ParseEntries(p.Rest(), count - i, skipped)
    {
      var entry := ReadEntry(p);
      if entry.Err? { return Err(entry.error); }
      skipped := skipped[entry.value.0 := entry.value.1];
      i := i + 1;
    }
    return Ok(skipped);
  }

  method FromBytes(data: Bytes) returns (r: Result<WireState>)
    ensures r == ParseState(data)
  {
    var p := new ByteParser(data);
    var keys := ReadKeys(p);
    if keys.Err? { return Err(keys.error); }
    var counters := ReadCounters(p);
    if counters.Err? { return Err(counters.error); }
    var (ns, nr, pn, count) := counters.value;
    var skipped := ReadEntries(p, count);
    if skipped.Err? { return Err(skipped.error); }
    return Ok(keys.value.(ns := ns, nr := nr, pn := pn, skipped := skipped.value));
  }

  // ---------------------------------------------------------------------------------------------
  // Round trip.

  lemma ParseEntryFront(k: SkipId, mk: Bytes, rest: Bytes)
    requires |k.dh| < 0x1_0000 && |mk| == 32
    ensures ParseEntry(EntryBytes(k, mk) + rest) == Ok((k, mk, rest))
  {
    var d := EntryBytes(k, mk) + rest;
    assert d == U16Be(|k.dh|) + (k.dh + (U32Be(k.n) + (mk + rest)));
    ReadFront(U16Be(|k.dh|), k.dh + (U32Be(k.n) + (mk + rest)));
    ReadFront(k.dh, U32Be(k.n) + (mk + rest));
    ReadFront(U32Be(k.n), mk + rest);
    ReadFront(mk, rest);
    U16Inverse(|k.dh|, U16Be(|k.dh|));
    U32Inverse(k.n, U32Be(k.n));
  }

  // Inserting the listed keys one by one.
  function InsertAll(m: map<SkipId, Bytes>, skipped: map<SkipId, Bytes>, order: seq<SkipId>): map<SkipId, Bytes>
    requires forall k | k in order :: k in skipped
    decreases |order|
  {
    if order == [] then m else InsertAll(m[order[0] := skipped[order[0]]], skipped, order[1..])
  }

  lemma {:induction false} InsertAllAt(m: map<SkipId, Bytes>, skipped: map<SkipId, Bytes>, order: seq<SkipId>, k: SkipId)
    requires forall j | j in order :: j in skipped
    ensures k in InsertAll(m, skipped, order) <==> k in m || k in order
    ensures k in order ==> InsertAll(m, skipped, order)[k] == skipped[k]
    ensures k in m && k !in order ==> InsertAll(m, skipped, order)[k] == m[k]
    decreases |order|
  {
    if order != [] {
      assert order == [order[0]] + order[1..];
      InsertAllAt(m[order[0] := skipped[order[0]]], skipped, order[1..], k);
    }
  }

  lemma {:induction false} ParseEntriesOf(skipped: map<SkipId, Bytes>, order: seq<SkipId>, m: map<SkipId, Bytes>)
    requires forall k | k in order :: k in skipped && |k.dh| < 0x1_0000 && |skipped[k]| == 32
    ensures ParseEntries(EntriesBytes(skipped, order), |order|, m) == Ok(InsertAll(m, skipped, order))
    decreases |order|
  {
    if order != [] {
      var k := order[0];
      ParseEntryFront(k, skipped[k], EntriesBytes(skipped, order[1..]));
      ParseEntriesOf(skipped, order[1..], m[k := skipped[k]]);
    }
  }

  lemma ParseKeysFront(s: WireState, rest: Bytes)
    requires s.Valid()
    ensures ParseKeys(HeadBytes(s) + (ChainBytes(s) + rest)) == Ok((s.(ns := 0, nr := 0, pn := 0, skipped := map[]), rest))
  {
    var d5 := OptionBytes(s.ckr) + rest;
    var d4 := OptionBytes(s.cks) + d5;
    assert ChainBytes(s) + rest == d4;
    var d3 := s.rk + d4;
    var d2 := OptionBytes(s.dhr) + d3;
    var d1 := s.dhs + d2;
    assert HeadBytes(s) + d4 == [SERIAL_VERSION] + d1;
    ReadFront([SERIAL_VERSION], d1);
    ReadFront(s.dhs, d2);
    ReadOptionFront(s.dhr, d3);
    ReadFront(s.rk, d4);
    ReadOptionFront(s.cks, d5);
    ReadOptionFront(s.ckr, rest);
  }

  lemma ParseCountersFront(s: WireState, count: u32, rest: Bytes)
    ensures ParseCounters(CounterBytes(s, count) + rest) == Ok((s.ns, s.nr, s.pn, count, rest))
  {
    var a, b, c, d := U32Be(s.ns), U32Be(s.nr), U32Be(s.pn), U32Be(count);
    Reassociate(a, b, c, d);
    assert a + (b + (c + d)) + rest == a + (b + (c + (d + rest)));
    ReadFront(a, b + (c + (d + rest)));
    ReadFront(b, c + (d + rest));
    ReadFront(c, d + rest);
    ReadFront(d, rest);
    U32Inverse(s.ns, a);
    U32Inverse(s.nr, b);
    U32Inverse(s.pn, c);
    U32Inverse(count, d);
  }

  // Reading back a stored session gives the session, in whatever order its cache was written, if and
  // only if the counts of the cache fit their fields.
  lemma SerializationRoundTrip(s: WireState, order: seq<SkipId>)
    requires s.Valid() && s.Lists(order)
    ensures ParseState(ToBytesIn(s, order)) == Ok(s) <==> s.Fits()
  {
    if s.Fits() {
      ListedOnce(s, order);
      FittingRoundTrip(s, order);
    } else if ParseState(ToBytesIn(s, order)).Ok? {
      ParsedStateBound(ToBytesIn(s, order));
    }
  }

  lemma {:induction false} ElementsOf<T>(order: seq<T>)
    requires forall i, j :: 0 <= i < j < |order| ==> order[i] != order[j]
    ensures |set k | k in order| == |order|
    decreases |order|
  {
    var all := set k | k in order;
    if order == [] {
      assert all == {};
    } else {
      var init, x := order[..|order| - 1], order[|order| - 1];
      ElementsOf(init);
      assert order == init + [x];
      assert x !in init;
      assert all == (set k | k in init) + {x};
    }
  }

  // The listing is as long as the cache is large.
  lemma ListedOnce(s: WireState, order: seq<SkipId>)
    requires s.Lists(order)
    ensures |order| == |s.skipped|
  {
    ElementsOf(order);
    assert (set k | k in order) == s.skipped.Keys;
    assert |s.skipped.Keys| == |s.skipped|;
  }

  lemma FittingRoundTrip(s: WireState, order: seq<SkipId>)
    requires s.Valid() && s.Lists(order) && s.Fits() && |order| <= U32_MAX
    ensures ParseState(ToBytesIn(s, order)) == Ok(s)
  {
    hide EntriesBytes, HeadBytes, ChainBytes, CounterBytes, ParseKeys, ParseCounters, ParseEntries, InsertAll;
    var entries := EntriesBytes(s.skipped, order);
    CountFits(|order|);
    ParseKeysFront(s, CounterBytes(s, |order|) + entries);
    ParseCountersFront(s, |order|, entries);
    ParseEntriesOf(s.skipped, order, map[]);
    InsertAllIs(s.skipped, order);
  }

  lemma CountFits(n: nat)
    requires n <= U32_MAX
    ensures n % (U32_MAX + 1) == n
  {
  }

  lemma InsertAllIs(skipped: map<SkipId, Bytes>, order: seq<SkipId>)
    requires forall k :: k in order <==> k in skipped
    ensures InsertAll(map[], skipped, order) == skipped
  {
    var m := InsertAll(map[], skipped, order);
    forall k
      ensures k in m <==> k in skipped
      ensures k in m && k in skipped ==> m[k] == skipped[k]
    {
      InsertAllAt(map[], skipped, order, k);
    }
  }

  // ---------------------------------------------------------------------------------------------
  // Arbitrary input.

  lemma ParseEntryBound(d: Bytes)
    requires ParseEntry(d).Ok?
    ensures var (k, mk, rest) := ParseEntry(d).value;
            |k.dh| < 0x1_0000 && |mk| == 32 && |rest| + 38 <= |d|
  {
  }

  lemma {:induction false} ParseEntriesBound(d: Bytes, count: nat, m: map<SkipId, Bytes>)
    requires ParseEntries(d, count, m).Ok?
    requires forall k | k in m :: |k.dh| < 0x1_0000 && |m[k]| == 32
    ensures 38 * count <= |d|
    ensures var r := ParseEntries(d, count, m).value;
            |r| <= |m| + count && forall k | k in r :: |k.dh| < 0x1_0000 && |r[k]| == 32
    decreases count
  {
    hide ParseEntry;
    if count > 0 {
      ParseEntryBound(d);
      var (k, mk, rest) := ParseEntry(d).value;
      var m1 := m[k := mk];
      assert m1.Keys == m.Keys + {k};
      assert |m1| == |m1.Keys| && |m| == |m.Keys|;
      ParseEntriesBound(rest, count - 1, m1);
    }
  }

  // Whatever bytes are given, an accepted session is well formed and its cache is bounded by the
  // input: at most one key per 38 bytes after the fixed part.
  lemma ParsedStateBound(d: Bytes)
    requires ParseState(d).Ok?
    ensures ParseState(d).value.Valid() && ParseState(d).value.Fits()
    ensures 84 + 38 * |ParseState(d).value.skipped| <= |d|
  {
    ParseKeysBound(d);
    var (_, d1) := ParseKeys(d).value;
    var (_, _, _, count, d2) := ParseCounters(d1).value;
    ParseEntriesBound(d2, count, map[]);
  }

  lemma ParseKeysBound(d: Bytes)
    requires ParseKeys(d).Ok?
    ensures var (s, rest) := ParseKeys(d).value;
            s.Valid() && s.skipped == map[] && 68 + |rest| <= |d|
  {
  }

  // Of the accepted byte strings exactly those are no usable session whose flags announce a receiving
  // chain but no remote key.
  lemma ParsedUsableExactly(d: Bytes)
    requires ParseState(d).Ok?
    ensures |d| >= 84 && (d[33] != 1 && d[66] == 1 ==> |d| >= 100)
    ensures ParseState(d).value.Usable() <==> d[33] == 1 || d[if d[66] == 1 then 99 else 67] != 1
  {
    ParsedStateBound(d);
    hide ParseCounters, ParseEntries;
    KeysFlags(d);
  }

  // The flags are where the optional keys before them leave them.
  lemma KeysFlags(d: Bytes)
    requires ParseKeys(d).Ok? && |d| >= 84
    ensures d[33] != 1 && d[66] == 1 ==> |d| >= 100
    ensures ParseKeys(d).value.0.Usable() <==> d[33] == 1 || d[if d[66] == 1 then 99 else 67] != 1
  {
  }

  // ---------------------------------------------------------------------------------------------
  // Resuming a symbolic session from its bytes.

  /** The byte values of the names and keys of a session. */
  datatype Embedding = Embedding(secret: nat -> Bytes, public: nat -> Bytes, key: Key -> Bytes)

  predicate RepresentsOption<T(!new)>(f: T -> Bytes, b: Option<Bytes>, v: Option<T>) {
    match v
    case None => b == None
    case Some(x) => b == Some(f(x))
  }

  function IdOf(emb: Embedding, k: DoubleRatchet.SkipKey): SkipId {
    SkipId(emb.public(k.dh), k.n)
  }

  predicate RepresentsFields(emb: Embedding, w: WireState, s: DoubleRatchet.State) {
    && w.dhs == emb.secret(s.dhs) && w.rk == emb.key(s.rk)
    && RepresentsOption(emb.public, w.dhr, s.dhr)
    && RepresentsOption(emb.key, w.cks, s.cks)
    && RepresentsOption(emb.key, w.ckr, s.ckr)
    && w.ns == s.ns && w.nr == s.nr && w.pn == s.pn
  }

  ghost predicate RepresentsCache(emb: Embedding, w: WireState, s: DoubleRatchet.State) {
    && (forall k | k in s.skipped :: IdOf(emb, k) in w.skipped && w.skipped[IdOf(emb, k)] == emb.key(s.skipped[k]))
    && (forall id | id in w.skipped :: exists k :: k in s.skipped && IdOf(emb, k) == id)
  }

  /** `w` is the session `s` written with the byte values `emb`. */
  ghost predicate Represents(emb: Embedding, w: WireState, s: DoubleRatchet.State) {
    RepresentsFields(emb, w, s) && RepresentsCache(emb, w, s)
  }

  function OptionSet<T>(v: Option<T>): set<T> {
    if v.Some? then {v.value} else {}
  }

  function KeysOf(s: DoubleRatchet.State): set<Key> {
    {s.rk} + OptionSet(s.cks) + OptionSet(s.ckr) + s.skipped.Values
  }

  function NamesOf(s: DoubleRatchet.State): set<nat> {
    {s.dhs} + OptionSet(s.dhr) + set k | k in s.skipped :: k.dh
  }

  ghost predicate InjectiveOn<T(!new)>(f: T -> Bytes, a: set<T>) {
    forall x, y | x in a && y in a && f(x) == f(y) :: x == y
  }

  // Different names and keys of the two sessions have different byte values.
  ghost predicate Distinguishes(emb: Embedding, s: DoubleRatchet.State, t: DoubleRatchet.State) {
    && InjectiveOn(emb.key, KeysOf(s) + KeysOf(t))
    && InjectiveOn(emb.secret, NamesOf(s) + NamesOf(t))
    && InjectiveOn(emb.public, NamesOf(s) + NamesOf(t))
  }

  lemma SkippedDetermined(emb: Embedding, w: WireState, s: DoubleRatchet.State,
                          t: DoubleRatchet.State, k: DoubleRatchet.SkipKey)
    requires RepresentsCache(emb, w, s) && RepresentsCache(emb, w, t) && Distinguishes(emb, s, t)
    requires k in s.skipped
    ensures k in t.skipped && s.skipped[k] == t.skipped[k]
  {
    assert IdOf(emb, k) in w.skipped;
    var j :| j in t.skipped && IdOf(emb, j) == IdOf(emb, k);
    assert k.dh in NamesOf(s) && j.dh in NamesOf(t);
    assert k == j;
    assert s.skipped[k] in KeysOf(s) && t.skipped[k] in KeysOf(t);
  }

  lemma OptionDetermined<T(!new)>(f: T -> Bytes, b: Option<Bytes>, v: Option<T>, w: Option<T>, a: set<T>)
    requires RepresentsOption(f, b, v) && RepresentsOption(f, b, w)
    requires InjectiveOn(f, a) && OptionSet(v) <= a && OptionSet(w) <= a
    ensures v == w
  {
    if v.Some? && w.Some? {
      assert v.value in OptionSet(v) && w.value in OptionSet(w);
    }
  }

  lemma CacheIncluded(emb: Embedding, w: WireState, s: DoubleRatchet.State, t: DoubleRatchet.State)
    requires RepresentsCache(emb, w, s) && RepresentsCache(emb, w, t) && Distinguishes(emb, s, t)
    ensures forall k | k in s.skipped :: k in t.skipped && s.skipped[k] == t.skipped[k]
  {
    forall k | k in s.skipped
      ensures k in t.skipped && s.skipped[k] == t.skipped[k]
    {
      SkippedDetermined(emb, w, s, t, k);
    }
  }

  lemma FieldsDetermined(emb: Embedding, w: WireState, s: DoubleRatchet.State, t: DoubleRatchet.State)
    requires RepresentsFields(emb, w, s) && RepresentsFields(emb, w, t) && Distinguishes(emb, s, t)
    ensures s.(skipped := map[]) == t.(skipped := map[])
  {
    var keys, names := KeysOf(s) + KeysOf(t), NamesOf(s) + NamesOf(t);
    OptionDetermined(emb.public, w.dhr, s.dhr, t.dhr, names);
    OptionDetermined(emb.key, w.cks, s.cks, t.cks, keys);
    OptionDetermined(emb.key, w.ckr, s.ckr, t.ckr, keys);
    assert s.rk in keys && t.rk in keys && s.dhs in names && t.dhs in names;
  }

  lemma DistinguishesSymmetric(emb: Embedding, s: DoubleRatchet.State, t: DoubleRatchet.State)
    requires Distinguishes(emb, s, t)
    ensures Distinguishes(emb, t, s)
  {
    assert KeysOf(s) + KeysOf(t) == KeysOf(t) + KeysOf(s);
    assert NamesOf(s) + NamesOf(t) == NamesOf(t) + NamesOf(s);
  }

  // The stored bytes determine the session.
  lemma {:induction false} RepresentedOnce(emb: Embedding, w: WireState, s: DoubleRatchet.State, t: DoubleRatchet.State)
    requires Represents(emb, w, s) && Represents(emb, w, t)
    requires Distinguishes(emb, s, t)
    ensures s == t
  {
    FieldsDetermined(emb, w, s, t);
    SkippedEqual(emb, w, s, t);
  }

  lemma SkippedEqual(emb: Embedding, w: WireState, s: DoubleRatchet.State, t: DoubleRatchet.State)
    requires RepresentsCache(emb, w, s) && RepresentsCache(emb, w, t) && Distinguishes(emb, s, t)
    ensures s.skipped == t.skipped
  {
    hide RepresentsCache, Distinguishes;
    DistinguishesSymmetric(emb, s, t);
    CacheIncluded(emb, w, s, t);
    CacheIncluded(emb, w, t, s);
  }

  // Storing a session and resuming from the bytes commutes with decryption: whatever session `t` the
  // parsed bytes stand for, the worker's operations on it give what they give on `s`.
  lemma ResumeCommutes(emb: Embedding, w: WireState, order: seq<SkipId>, s: DoubleRatchet.State, t: DoubleRatchet.State,
                       m: DoubleRatchet.Wire, gen: nat, plain: Bytes, aad: Bytes)
    requires w.Valid() && w.Lists(order) && w.Fits() && Represents(emb, w, s)
    requires ParseState(ToBytesIn(w, order)).Ok? ==> Represents(emb, ParseState(ToBytesIn(w, order)).value, t)
    requires Distinguishes(emb, s, t)
    requires s.Valid()
    ensures t.Valid()
    ensures Worker.DecryptOn(t, m, gen) == Worker.DecryptOn(s, m, gen)
    ensures Worker.EncryptOn(t, plain, aad) == Worker.EncryptOn(s, plain, aad)
  {
    SerializationRoundTrip(w, order);
    RepresentedOnce(emb, w, s, t);
  }
}
