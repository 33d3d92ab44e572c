/**
  The device transfer from database to database: the source's records as bytes on the channel, the
  target's handlers in any order, and the target's stores.
 */
module Transfer {
  import opened Symbolic
  import opened ByteCodec
  import opened SyncTransfer
  import opened SyncTarget
  import opened SyncRecords
  import Manifest

  /** What happens at the target: bytes arrive, a handler is resumed after its await, or the transfer ends. */
  datatype Happening = Arrives(bytes: Bytes) | Wakes(h: nat) | Stops | Closes | Fails

  /** The receiver's variables and the stores it imports into. */
  datatype Device<J> = Device(t: Target, db: Database<J>)

  /** The codecs of a transfer: sealed data and JSON. */
  datatype Codecs<!J> = Codecs(sealing: Sealing, json: JsonCodec<J>)

  ghost predicate LawfulCodecs<J(!new)>(v: Codecs<J>) {
    v.sealing.Lawful() && Lawful(v.json)
  }

  // A handler that imports resumes as its import ended.
  function ImportOf<J>(v: Codecs<J>, d: Device<J>, h: nat): Result<Database<J>> {
    if h < |d.t.handlers| && d.t.handlers[h].Importing? then Import(v.json, d.db, d.t.handlers[h].plain) else Ok(d.db)
  }

  function EventOf<J>(v: Codecs<J>, d: Device<J>, x: Happening): Event {
    match x
    case Arrives(b) => Receive(Read(v.sealing, b))
    case Wakes(h) => Resume(h, ImportOf(v, d, h).Ok?)
    case Stops => Abort
    case Closes => Close
    case Fails => ChannelError
  }

  function Next<J>(env: Env, v: Codecs<J>, d: Device<J>, x: Happening): Device<J> {
    Device(Step(env, d.t, EventOf(v, d, x)),
           if x.Wakes? && ImportOf(v, d, x.h).Ok? then ImportOf(v, d, x.h).value else d.db)
  }

  // Bytes reach the receiver.
  method OnBytes(r: TargetReceiver, v: Sealing, b: Bytes)
    modifies r
    ensures r.View() == Step(r.env, old(r.View()), Receive(Read(v, b)))
  {
    var frame := DecodeFrame(b);
    if frame.None? {
      r.OnMessage(Frame(0, 0, Noise));
    } else {
      var (kind, seqNo, payload) := frame.value;
      r.OnMessage(Frame(kind, seqNo, v.read(payload)));
    }
  }

  // A handler runs on, with the import it awaited.
  method Wake<J>(r: TargetReceiver, v: Codecs<J>, db: CryptoDb<J>, h: nat)
    requires h < |r.handlers| && db.codec == v.json
    modifies r, db`stores
    ensures Device(r.View(), db.stores) == Next(r.env, v, old(Device(r.View(), db.stores)), Wakes(h))
  {
    hide Import, Step;
    var ok := true;
    if r.handlers[h].Importing? {
      var error := db.ImportSyncRecord(r.handlers[h].plain);
      ok := error.None?;
    }
    r.Continue(h, ok);
  }

  function Run<J>(env: Env, v: Codecs<J>, db: Database<J>, xs: seq<Happening>): Device<J> {
    if xs == [] then Device(Initial(), db) else Next(env, v, Run(env, v, db, xs[..|xs| - 1]), xs[|xs| - 1])
  }

  lemma RunAppend<J>(env: Env, v: Codecs<J>, db: Database<J>, xs: seq<Happening>, x: Happening)
    ensures Run(env, v, db, xs + [x]) == Next(env, v, Run(env, v, db, xs), x)
  {
    assert (xs + [x])[..|xs|] == xs;
  }

  // The same run as the receiver alone sees it.
  function Events<J>(env: Env, v: Codecs<J>, db: Database<J>, xs: seq<Happening>): (events: seq<Event>)
    ensures |events| == |xs|
  {
    if xs == [] then []
    else
      var init, x := xs[..|xs| - 1], xs[|xs| - 1];
      Events(env, v, db, init) + [EventOf(v, Run(env, v, db, init), x)]
  }

  lemma ImportAppend<J>(c: JsonCodec<J>, db: Database<J>, ps: seq<Bytes>, p: Bytes)
    requires ImportAll(c, db, ps).Ok?
    ensures ImportAll(c, db, ps + [p]) == Import(c, ImportAll(c, db, ps).value, p)
  {
    assert (ps + [p])[..|ps|] == ps;
  }

  // In every run the receiver behaves as on its own, and the stores hold what was imported, in order.
  lemma {:induction false} StoresAreImported<J>(env: Env, v: Codecs<J>, db: Database<J>, xs: seq<Happening>)
    ensures var d := Run(env, v, db, xs);
            && d.t == Exec(env, Events(env, v, db, xs))
            && ImportAll(v.json, db, d.t.imported) == Ok(d.db)
    decreases |xs|
  {
    if xs != [] {
      var init, x := xs[..|xs| - 1], xs[|xs| - 1];
      StoresAreImported(env, v, db, init);
      var d := Run(env, v, db, init);
      ExecAppend(env, Events(env, v, db, init), EventOf(v, d, x));
      OneImport(env, v, d, x);
      if x.Wakes? && x.h < |d.t.handlers| && d.t.handlers[x.h].Importing? {
        ImportAppend(v.json, db, d.t.imported, d.t.handlers[x.h].plain);
      }
    }
  }

  lemma OneImport<J>(env: Env, v: Codecs<J>, d: Device<J>, x: Happening)
    ensures var u := Next(env, v, d, x);
            if x.Wakes? && x.h < |d.t.handlers| && d.t.handlers[x.h].Importing? && ImportOf(v, d, x.h).Ok?
            then u.t.imported == d.t.imported + [d.t.handlers[x.h].plain]
            else u.t.imported == d.t.imported && u.db == d.db
  {
    hide Import, Accepts, Manifest.SyncVerify;
  }

  // What the receiver sees of each happening.
  lemma {:induction false} EventAt<J>(env: Env, v: Codecs<J>, db: Database<J>, xs: seq<Happening>, i: nat)
    requires i < |xs|
    ensures match xs[i]
            case Arrives(b) => Events(env, v, db, xs)[i] == Receive(Read(v.sealing, b))
            case Wakes(h) => Events(env, v, db, xs)[i].Resume? && Events(env, v, db, xs)[i].h == h
            case Stops => Events(env, v, db, xs)[i] == Abort
            case Closes => Events(env, v, db, xs)[i] == Close
            case Fails => Events(env, v, db, xs)[i] == ChannelError
    decreases |xs|
  {
    if i < |xs| - 1 {
      EventAt(env, v, db, xs[..|xs| - 1], i);
    }
  }

  lemma {:induction false} EventsPrefix<J>(env: Env, v: Codecs<J>, db: Database<J>, xs: seq<Happening>, ys: seq<Happening>)
    ensures Events(env, v, db, xs + ys)[..|xs|] == Events(env, v, db, xs)
    decreases |ys|
  {
    if ys == [] {
      assert xs + [] == xs;
    } else {
      var all := xs + ys;
      assert all[..|all| - 1] == xs + ys[..|ys| - 1];
      EventsPrefix(env, v, db, xs, ys[..|ys| - 1]);
    }
  }

  // A stop in the middle is an abort in the middle, and what arrives after it is received after it.
  lemma EventsAroundStop<J>(env: Env, v: Codecs<J>, db: Database<J>, xs: seq<Happening>, more: seq<Happening>)
    returns (rest: seq<Event>)
    ensures Events(env, v, db, xs + [Stops] + more) == Events(env, v, db, xs) + [Abort] + rest
    ensures (exists x :: x in more && x.Arrives?) ==> exists e :: e in rest && e.Receive?
  {
    var all, n := xs + [Stops] + more, |xs|;
    hide Events;
    var events := Events(env, v, db, all);
    assert all == xs + ([Stops] + more) && all[n] == Stops;
    EventsPrefix(env, v, db, xs, [Stops] + more);
    EventAt(env, v, db, all, n);
    rest := events[n + 1..];
    assert events == events[..n] + [events[n]] + rest;
    if x :| x in more && x.Arrives? {
      var i :| 0 <= i < |more| && more[i] == x;
      assert all[n + 1 + i] == x;
      EventAt(env, v, db, all, n + 1 + i);
      assert rest[i] == events[n + 1 + i];
      assert rest[i] in rest && rest[i].Receive?;
    }
  }

  // Once the user has stopped the transfer no bytes start a handler, and the first that arrive settle it.
  lemma StoppedForGood<J>(env: Env, v: Codecs<J>, db: Database<J>, xs: seq<Happening>, more: seq<Happening>)
    ensures var t, u := Run(env, v, db, xs).t, Run(env, v, db, xs + [Stops] + more).t;
            && |u.handlers| == |t.handlers| && ((exists x :: x in more && x.Arrives?) ==> u.outcome.Some?)
            && (t.outcome.Some? ==> u.outcome == t.outcome)
  {
    hide Run, Exec, Events, ImportAll;
    StoresAreImported(env, v, db, xs);
    StoresAreImported(env, v, db, xs + [Stops] + more);
    var rest := EventsAroundStop(env, v, db, xs, more);
    AbortStops(env, Events(env, v, db, xs), rest);
  }

  // ---------------------------------------------------------------------------------------------
  // What acceptance means for the stores.

  // The payload of a record.
  function Payload<J>(c: JsonCodec<J>, db: Database<J>, k: (u8, Bytes)): Bytes
    requires k in db
  {
    Export(c, k.0 != 5, k.0, k.1, db[k])
  }

  /** `order` lists the records of a database, all of which can be imported. */
  ghost predicate Lists<J>(c: JsonCodec<J>, db: Database<J>, order: seq<(u8, Bytes)>) {
    && (forall k :: k in order <==> k in db)
    && (forall k | k in db :: Importable(c, k.0, k.1, db[k]))
  }

  // What `ExportSyncRecords` yields for it.
  function Payloads<J>(c: JsonCodec<J>, db: Database<J>, order: seq<(u8, Bytes)>): (ps: seq<Bytes>)
    requires Lists(c, db, order)
    ensures |ps| == |order|
  {
    ExportAll(c, db, order)
  }

  // The source: its records, exported and sent.
  method SendDatabase<J>(env: Env, v: Codecs<J>, source: CryptoDb<J>, order: seq<(u8, Bytes)>, total: nat)
    returns (sent: seq<Bytes>, ok: bool)
    requires env.Lawful() && source.codec == v.json && Lists(v.json, source.stores, order) && |order| <= U32_MAX
    ensures ok <==> |order| <= total
    ensures ok ==> sent == Channel(v.sealing, Frames(env, Payloads(v.json, source.stores, order)))
  {
    var payloads := source.ExportSyncRecords(order);
    sent, ok := RunSourceTransfer(env, v.sealing, total, payloads);
  }

  lemma {:induction false} ExportedAt<J>(c: JsonCodec<J>, db: Database<J>, order: seq<(u8, Bytes)>, i: nat)
    requires (forall k | k in order :: k in db) && i < |order|
    ensures ExportAll(c, db, order)[i] == Payload(c, db, order[i])
    decreases |order|
  {
    if i < |order| - 1 {
      ExportedAt(c, db, order[..|order| - 1], i);
    }
  }

  lemma PayloadsAt<J>(c: JsonCodec<J>, db: Database<J>, order: seq<(u8, Bytes)>, i: nat)
    requires Lists(c, db, order) && i < |order|
    ensures order[i] in db && Payloads(c, db, order)[i] == Payload(c, db, order[i])
  {
    assert order[i] in order;
    ExportedAt(c, db, order, i);
  }

  lemma PayloadsReproduce<J(!new)>(c: JsonCodec<J>, db: Database<J>, order: seq<(u8, Bytes)>, target: Database<J>)
    requires Lawful(c) && Lists(c, db, order)
    ensures ImportAll(c, target, Payloads(c, db, order)) == Ok(target + ArrivedAll(c, db))
    ensures forall k | k in db && KindFits(k.0, db[k]) ::
              k in target + ArrivedAll(c, db) && (target + ArrivedAll(c, db))[k] == db[k]
  {
    TransferReproduces(c, db, order, target);
  }

  lemma IsPayload<J>(c: JsonCodec<J>, db: Database<J>, order: seq<(u8, Bytes)>, p: Bytes) returns (k: (u8, Bytes))
    requires Lists(c, db, order) && p in Payloads(c, db, order)
    ensures k in db && p == Payload(c, db, k)
  {
    var i :| 0 <= i < |order| && Payloads(c, db, order)[i] == p;
    PayloadsAt(c, db, order, i);
    k := order[i];
    assert k in order;
  }

  lemma PayloadDecodes<J(!new)>(c: JsonCodec<J>, db: Database<J>, order: seq<(u8, Bytes)>, k: (u8, Bytes))
    requires Lawful(c) && Lists(c, db, order) && k in db
    ensures Decode(c, Payload(c, db, k)) == Ok((k.0, k.1, Arrived(c, k.0, db[k])))
  {
    RecordArrives(c, k.0, k.1, db[k]);
  }

  // The records `ps` holds, over a database.
  ghost predicate Overlays<J>(c: JsonCodec<J>, db: Database<J>, target: Database<J>, ps: seq<Bytes>, r: Database<J>) {
    && (forall k :: k in r <==> k in target || (k in db && Payload(c, db, k) in ps))
    && (forall k | k in r :: r[k] == if k in db && Payload(c, db, k) in ps then Arrived(c, k.0, db[k]) else target[k])
  }

  lemma OneOverlay<J(!new)>(c: JsonCodec<J>, db: Database<J>, order: seq<(u8, Bytes)>, target: Database<J>, ps: seq<Bytes>,
                            r: Database<J>, k: (u8, Bytes))
    requires Lawful(c) && Lists(c, db, order) && k in db && Overlays(c, db, target, ps, r)
    ensures Overlays(c, db, target, ps + [Payload(c, db, k)], r[k := Arrived(c, k.0, db[k])])
  {
    hide Lists, Payload, Arrived, Decode;
    PayloadDecodes(c, db, order, k);
    forall j | j in db
      ensures Payload(c, db, j) in ps + [Payload(c, db, k)] <==> Payload(c, db, j) in ps || j == k
    {
      PayloadDecodes(c, db, order, j);
    }
  }

  // Importing some of the payloads, in any order and repeatedly, writes the records they hold.
  lemma {:induction false} ImportsSome<J(!new)>(c: JsonCodec<J>, db: Database<J>, order: seq<(u8, Bytes)>,
                                                target: Database<J>, ps: seq<Bytes>)
    requires Lawful(c) && Lists(c, db, order)
    requires forall p | p in ps :: p in Payloads(c, db, order)
    ensures ImportAll(c, target, ps).Ok? && Overlays(c, db, target, ps, ImportAll(c, target, ps).value)
    decreases |ps|
  {
    if ps != [] {
      var init, p := ps[..|ps| - 1], ps[|ps| - 1];
      assert ps == init + [p];
      ImportsSome(c, db, order, target, init);
      hide Lists, Payloads, Payload, Importable, Arrived, Overlays, Decode;
      var r := ImportAll(c, target, init).value;
      var k := IsPayload(c, db, order, p);
      PayloadDecodes(c, db, order, k);
      OneOverlay(c, db, order, target, init, r, k);
    }
  }

  /** Only the source seals under the session key. */
  ghost predicate Network<J>(env: Env, v: Codecs<J>, payloads: seq<Bytes>, xs: seq<Happening>)
    requires |payloads| <= U32_MAX
  {
    forall i | 0 <= i < |xs| && xs[i].Arrives? :: Authentic(env, payloads, Read(v.sealing, xs[i].bytes).data)
  }

  lemma {:induction false} EventsPossible<J>(env: Env, v: Codecs<J>, payloads: seq<Bytes>, db: Database<J>, xs: seq<Happening>)
    requires |payloads| <= U32_MAX && Network(env, v, payloads, xs)
    ensures Possible(env, payloads, Events(env, v, db, xs))
    decreases |xs|
  {
    if xs != [] {
      EventsPossible(env, v, payloads, db, xs[..|xs| - 1]);
    }
  }

  // The imports under way, if any, are of records that have been imported before.
  ghost predicate NoNewImports(t: Target) {
    forall h | h in t.handlers && h.Importing? :: h.plain in t.imported
  }

  // The step that resolves writes nothing, and finds the target as `AcceptanceIsExact` says.
  lemma AcceptedTarget<J>(env: Env, v: Codecs<J>, payloads: seq<Bytes>, target: Database<J>, xs: seq<Happening>,
                          x: Happening)
    requires env.Lawful() && |payloads| <= U32_MAX
    requires Network(env, v, payloads, xs + [x]) && NoForgedManifest(env, payloads)
    requires Run(env, v, target, xs).t.outcome != Some(Resolved)
    requires Run(env, v, target, xs + [x]).t.outcome == Some(Resolved)
    ensures var d := Run(env, v, target, xs);
            && Run(env, v, target, xs + [x]).db == d.db && ImportAll(v.json, target, d.t.imported) == Ok(d.db)
            && (forall i: u32 | i < |payloads| :: HandedOver(env, payloads, d.t, i))
            && (forall h | h in d.t.handlers && h.Importing? :: h.plain in payloads)
            && (forall p | p in d.t.imported :: p in payloads)
  {
    var d, all := Run(env, v, target, xs), xs + [x];
    assert all[..|xs|] == xs;
    StoresAreImported(env, v, target, xs);
    StoresAreImported(env, v, target, all);
    EventsPossible(env, v, payloads, target, all);
    var events, e := Events(env, v, target, xs), EventOf(v, d, x);
    assert Events(env, v, target, all) == events + [e];
    hide Run, Events, Network, Possible, Inv, NoForgedManifest, ImportAll, Expected, HandedOver;
    AcceptanceIsExact(env, payloads, events, e);
    RunAppend(env, v, target, xs, x);
    ResolvingStep(env, d.t, e);
  }

  lemma PayloadHandedOver<J>(env: Env, c: JsonCodec<J>, db: Database<J>, order: seq<(u8, Bytes)>, t: Target, k: (u8, Bytes))
    requires Lists(c, db, order) && k in db && |order| <= U32_MAX
    requires forall i: u32 | i < |order| :: HandedOver(env, Payloads(c, db, order), t, i)
    ensures Payload(c, db, k) in t.imported || Importing(Payload(c, db, k)) in t.handlers
  {
    assert k in order;
    var i: u32 :| i < |order| && order[i] == k;
    hide Payloads, Export, Importable, ManifestOf;
    PayloadsAt(c, db, order, i);
    assert HandedOver(env, Payloads(c, db, order), t, i);
  }

  // Acceptance, from database to database.  Whatever the network does and however the handlers
  // interleave, when the target resolves its stores are what they were, overlaid with exactly the
  // records imported by then, and the import of every other record of the source is under way.
  lemma AcceptedStores<J(!new)>(env: Env, v: Codecs<J>, db: Database<J>, order: seq<(u8, Bytes)>, target: Database<J>,
                                xs: seq<Happening>, x: Happening)
    requires env.Lawful() && LawfulCodecs(v) && Lists(v.json, db, order) && |order| <= U32_MAX
    requires var payloads := Payloads(v.json, db, order);
             Network(env, v, payloads, xs + [x]) && NoForgedManifest(env, payloads)
    requires Run(env, v, target, xs).t.outcome != Some(Resolved)
    requires Run(env, v, target, xs + [x]).t.outcome == Some(Resolved)
    ensures var d := Run(env, v, target, xs);
            && Run(env, v, target, xs + [x]).db == d.db
            && Overlays(v.json, db, target, d.t.imported, d.db)
            && (forall k | k in db ::
                  Payload(v.json, db, k) in d.t.imported || Importing(Payload(v.json, db, k)) in d.t.handlers)
  {
    hide Run, Network, Lists, Payloads, Overlays, NoForgedManifest, ImportAll, Payload, HandedOver, Lawful;
    var payloads, d := Payloads(v.json, db, order), Run(env, v, target, xs);
    AcceptedTarget(env, v, payloads, target, xs, x);
    ImportsSome(v.json, db, order, target, d.t.imported);
    forall k | k in db
      ensures Payload(v.json, db, k) in d.t.imported || Importing(Payload(v.json, db, k)) in d.t.handlers
    {
      PayloadHandedOver(env, v.json, db, order, d.t, k);
    }
  }

  // They hold the whole database of the source if no import of a new record is under way, and, when the
  // target had none of its records before, only if.
  lemma AcceptedStoresComplete<J(!new)>(env: Env, v: Codecs<J>, db: Database<J>, order: seq<(u8, Bytes)>, target: Database<J>,
                                        xs: seq<Happening>, x: Happening)
    requires env.Lawful() && LawfulCodecs(v) && Lists(v.json, db, order) && |order| <= U32_MAX
    requires var payloads := Payloads(v.json, db, order);
             Network(env, v, payloads, xs + [x]) && NoForgedManifest(env, payloads)
    requires Run(env, v, target, xs).t.outcome != Some(Resolved)
    requires Run(env, v, target, xs + [x]).t.outcome == Some(Resolved)
    ensures var d := Run(env, v, target, xs);
            && (NoNewImports(d.t) ==> d.db == target + ArrivedAll(v.json, db))
            && (d.db == target + ArrivedAll(v.json, db) && target.Keys !! db.Keys ==> NoNewImports(d.t))
  {
    hide Run, Network, Lists, Payloads, NoForgedManifest, Payload, Overlays, ImportAll, HandedOver, Lawful;
    hide NoNewImports, ArrivedAll;
    var payloads, d := Payloads(v.json, db, order), Run(env, v, target, xs);
    AcceptedStores(env, v, db, order, target, xs, x);
    AcceptedTarget(env, v, payloads, target, xs, x);
    CompleteWithoutNewImports(v.json, db, order, target, d);
  }

  lemma CompleteWithoutNewImports<J>(c: JsonCodec<J>, db: Database<J>, order: seq<(u8, Bytes)>, target: Database<J>,
                                     d: Device<J>)
    requires Lists(c, db, order) && Overlays(c, db, target, d.t.imported, d.db)
    requires forall k | k in db :: Payload(c, db, k) in d.t.imported || Importing(Payload(c, db, k)) in d.t.handlers
    requires forall h | h in d.t.handlers && h.Importing? :: h.plain in Payloads(c, db, order)
    ensures NoNewImports(d.t) ==> d.db == target + ArrivedAll(c, db)
    ensures d.db == target + ArrivedAll(c, db) && target.Keys !! db.Keys ==> NoNewImports(d.t)
  {
    hide Payload, Overlays, Importable, Payloads, ArrivedAll;
    if NoNewImports(d.t) {
      AllOverlaid(c, db, target, d.t.imported, d.db);
    } else if target.Keys !! db.Keys {
      var h :| h in d.t.handlers && h.Importing? && h.plain !in d.t.imported;
      var k := IsPayload(c, db, order, h.plain);
      NotOverlaid(c, db, target, d.t.imported, d.db, k);
    }
  }

  lemma AllOverlaid<J>(c: JsonCodec<J>, db: Database<J>, target: Database<J>, ps: seq<Bytes>, r: Database<J>)
    requires Overlays(c, db, target, ps, r) && forall k | k in db :: Payload(c, db, k) in ps
    ensures r == target + ArrivedAll(c, db)
  {
    hide Payload, Arrived;
    assert r.Keys == (target + ArrivedAll(c, db)).Keys;
  }

  lemma NotOverlaid<J>(c: JsonCodec<J>, db: Database<J>, target: Database<J>, ps: seq<Bytes>, r: Database<J>,
                       k: (u8, Bytes))
    requires Overlays(c, db, target, ps, r) && k in db && Payload(c, db, k) !in ps && target.Keys !! db.Keys
    ensures r != target + ArrivedAll(c, db)
  {
    assert k !in target && k !in r && k in ArrivedAll(c, db);
  }

  // ---------------------------------------------------------------------------------------------
  // The honest transfer: the frames arrive once, in order, and each handler finishes before the next.

  function FirstFrames(sent: seq<Bytes>, n: nat): seq<Happening>
    requires n <= |sent|
  {
    if n == 0 then []
    else FirstFrames(sent, n - 1) + [Arrives(sent[n - 1])] + [Wakes(n - 1)] + [Wakes(n - 1)] + [Wakes(n - 1)]
  }

  function InOrder(sent: seq<Bytes>): seq<Happening>
    requires sent != []
  {
    var n := |sent| - 1;
    FirstFrames(sent, n) + [Arrives(sent[n])] + [Wakes(n)] + [Wakes(n)]
  }

  lemma {:induction false} ChunksAt(env: Env, payloads: seq<Bytes>, n: nat, i: nat)
    requires i < n <= |payloads| <= U32_MAX
    ensures |Chunks(env, payloads, n)| == n && Chunks(env, payloads, n)[i] == ChunkFrame(env, payloads, i)
    decreases n
  {
    if n > 1 {
      ChunksAt(env, payloads, n - 1, if i < n - 1 then i else 0);
    }
  }

  lemma FramesAt(env: Env, v: Sealing, payloads: seq<Bytes>, i: nat)
    requires v.Lawful() && i <= |payloads| <= U32_MAX
    ensures var sent := Channel(v, Frames(env, payloads));
            && |sent| == |payloads| + 1
            && Read(v, sent[i]) == if i < |payloads| then ChunkFrame(env, payloads, i) else ManifestFrame(env, payloads)
  {
    if payloads != [] {
      ChunksAt(env, payloads, |payloads|, if i < |payloads| then i else 0);
    }
    ReadWritten(v, Frames(env, payloads)[i]);
  }

  // What travels: the kind, 1 for a record and 2 for the manifest, the number, and the sealed bytes.
  lemma ChannelBytes(env: Env, v: Sealing, payloads: seq<Bytes>, i: nat)
    requires i <= |payloads| <= U32_MAX
    ensures var sent := Channel(v, Frames(env, payloads));
            && |sent| == |payloads| + 1 && |sent[i]| >= 5
            && sent[i][0] == (if i < |payloads| then 1 else 2) && FromU32Be(sent[i][1..5]) == i
            && sent[i][5..] == v.write(Chunk(env.key, i, if i < |payloads| then payloads[i] else ManifestOf(env, payloads)))
  {
    if payloads != [] {
      ChunksAt(env, payloads, |payloads|, if i < |payloads| then i else 0);
    }
    var f := Frames(env, payloads)[i];
    FrameLayout(f.kind, f.seqNo, v.write(f.data), Written(v, f));
  }

  // One record.
  lemma OneRecord<J>(env: Env, v: Codecs<J>, payloads: seq<Bytes>, d: Device<J>, b: Bytes, n: nat)
    requires n < |payloads| <= U32_MAX && Read(v.sealing, b) == ChunkFrame(env, payloads, n)
    requires d.t == Target(false, Done(n), ExpectedTo(env, payloads, n), payloads[..n], None)
    requires Import(v.json, d.db, payloads[n]).Ok?
    ensures Next(env, v, Next(env, v, Next(env, v, Next(env, v, d, Arrives(b)), Wakes(n)), Wakes(n)), Wakes(n)).t
         == Target(false, Done(n + 1), ExpectedTo(env, payloads, n + 1), payloads[..n + 1], None)
  {
    hide Import, ExpectedTo;
    var d1 := Next(env, v, d, Arrives(b));
    assert d1.t.handlers[n] == OpeningChunk(n, Chunk(env.key, n, payloads[n]));
    var d2 := Next(env, v, d1, Wakes(n));
    assert d2.t.handlers[n] == Hashing(n, payloads[n]) && d2.db == d.db;
    var d3 := Next(env, v, d2, Wakes(n));
    assert d3.t.handlers[n] == Importing(payloads[n]) && d3.db == d.db;
    OneChunk(env, payloads, n);
  }

  lemma RecordFits<J(!new)>(c: JsonCodec<J>, db: Database<J>, order: seq<(u8, Bytes)>, target: Database<J>, n: nat)
    requires Lawful(c) && Lists(c, db, order) && n < |order|
    ensures var payloads := Payloads(c, db, order);
            var before := ImportAll(c, target, payloads[..n]);
            before.Ok? && Import(c, before.value, payloads[n]).Ok?
  {
    hide Lists, Payloads, Import, Overlays, Lawful, ImportAll;
    var payloads := Payloads(c, db, order);
    ImportsSome(c, db, order, target, payloads[..n]);
    ImportsSome(c, db, order, target, payloads[..n + 1]);
    assert payloads[..n + 1] == payloads[..n] + [payloads[n]];
    ImportAppend(c, target, payloads[..n], payloads[n]);
  }

  // One more frame and the three pieces of its handler.
  lemma OneMoreFrame<J>(env: Env, v: Codecs<J>, db: Database<J>, sent: seq<Bytes>, n: nat)
    requires n < |sent|
    ensures Run(env, v, db, FirstFrames(sent, n + 1))
         == Next(env, v, Next(env, v, Next(env, v, Next(env, v, Run(env, v, db, FirstFrames(sent, n)),
                                                        Arrives(sent[n])), Wakes(n)), Wakes(n)), Wakes(n))
  {
    var xs := FirstFrames(sent, n);
    hide Run, Next;
    RunAppend(env, v, db, xs, Arrives(sent[n]));
    RunAppend(env, v, db, xs + [Arrives(sent[n])], Wakes(n));
    RunAppend(env, v, db, xs + [Arrives(sent[n])] + [Wakes(n)], Wakes(n));
    RunAppend(env, v, db, xs + [Arrives(sent[n])] + [Wakes(n)] + [Wakes(n)], Wakes(n));
  }

  lemma TheLastFrame<J>(env: Env, v: Codecs<J>, db: Database<J>, sent: seq<Bytes>)
    requires sent != []
    ensures var n := |sent| - 1;
            Run(env, v, db, InOrder(sent))
            == Next(env, v, Next(env, v, Next(env, v, Run(env, v, db, FirstFrames(sent, n)), Arrives(sent[n])), Wakes(n)), Wakes(n))
  {
    var n := |sent| - 1;
    var xs := FirstFrames(sent, n);
    hide Run, Next;
    RunAppend(env, v, db, xs, Arrives(sent[n]));
    RunAppend(env, v, db, xs + [Arrives(sent[n])], Wakes(n));
    RunAppend(env, v, db, xs + [Arrives(sent[n])] + [Wakes(n)], Wakes(n));
  }

  lemma {:induction false} RecordsArrive<J(!new)>(env: Env, v: Codecs<J>, db: Database<J>, order: seq<(u8, Bytes)>,
                                                  target: Database<J>, sent: seq<Bytes>, n: nat)
    requires LawfulCodecs(v) && Lists(v.json, db, order) && n <= |order| <= U32_MAX
    requires sent == Channel(v.sealing, Frames(env, Payloads(v.json, db, order))) && |sent| == |order| + 1
    ensures var payloads := Payloads(v.json, db, order);
            Run(env, v, target, FirstFrames(sent, n)).t == Target(false, Done(n), ExpectedTo(env, payloads, n), payloads[..n], None)
    decreases n
  {
    if n == 0 {
      assert Payloads(v.json, db, order)[..0] == [];
    } else {
      RecordsArrive(env, v, db, order, target, sent, n - 1);
      NextRecordArrives(env, v, db, order, target, sent, n - 1);
    }
  }

  lemma NextRecordArrives<J(!new)>(env: Env, v: Codecs<J>, db: Database<J>, order: seq<(u8, Bytes)>,
                                   target: Database<J>, sent: seq<Bytes>, n: nat)
    requires LawfulCodecs(v) && Lists(v.json, db, order) && n < |order| <= U32_MAX
    requires sent == Channel(v.sealing, Frames(env, Payloads(v.json, db, order))) && |sent| == |order| + 1
    requires var payloads := Payloads(v.json, db, order);
             Run(env, v, target, FirstFrames(sent, n)).t == Target(false, Done(n), ExpectedTo(env, payloads, n), payloads[..n], None)
    ensures var payloads := Payloads(v.json, db, order);
            Run(env, v, target, FirstFrames(sent, n + 1)).t
            == Target(false, Done(n + 1), ExpectedTo(env, payloads, n + 1), payloads[..n + 1], None)
  {
    hide Lists, Frames, Channel, Run, Next, Import, ExpectedTo, Done, Lawful, ImportAll, Read, FirstFrames, Payloads;
    var payloads := Payloads(v.json, db, order);
    FramesAt(env, v.sealing, payloads, n);
    StoresAreImported(env, v, target, FirstFrames(sent, n));
    RecordFits(v.json, db, order, target, n);
    OneRecord(env, v, payloads, Run(env, v, target, FirstFrames(sent, n)), sent[n], n);
    OneMoreFrame(env, v, target, sent, n);
  }

  lemma LastFrame<J>(env: Env, v: Codecs<J>, payloads: seq<Bytes>, d: Device<J>, b: Bytes)
    requires env.Lawful() && |payloads| <= U32_MAX && Read(v.sealing, b) == ManifestFrame(env, payloads)
    requires |d.t.handlers| == |payloads| && !d.t.aborted && d.t.outcome.None? && d.t.received == ExpectedTo(env, payloads, |payloads|)
    ensures var n := |payloads|;
            var u := Next(env, v, Next(env, v, Next(env, v, d, Arrives(b)), Wakes(n)), Wakes(n));
            u.t.outcome == Some(Resolved) && u.db == d.db
  {
    var n := |payloads|;
    hide Import, ExpectedTo, ManifestOf, Accepts;
    var d1 := Next(env, v, d, Arrives(b));
    assert d1.t.handlers[n] == OpeningManifest(n, Chunk(env.key, n, ManifestOf(env, payloads)));
    var d2 := Next(env, v, d1, Wakes(n));
    assert d2.t.handlers[n] == Verifying(ManifestOf(env, payloads)) && d2.db == d.db;
    ManifestArrives(env, payloads, d.t);
  }

  // The full transfer.  The bytes the source puts on the channel for the payloads of all its records,
  // delivered in order, make the target resolve with the source's database added to its own; by
  // `TransferReproduces`, records of a kind that fits their store are unchanged.
  lemma FullTransfer<J(!new)>(env: Env, v: Codecs<J>, db: Database<J>, order: seq<(u8, Bytes)>, target: Database<J>,
                              sent: seq<Bytes>)
    requires env.Lawful() && LawfulCodecs(v) && Lists(v.json, db, order) && |order| <= U32_MAX
    requires sent == Channel(v.sealing, Frames(env, Payloads(v.json, db, order)))
    ensures sent != []
    ensures var d := Run(env, v, target, InOrder(sent));
            d.t.outcome == Some(Resolved) && d.db == target + ArrivedAll(v.json, db)
  {
    hide Frames, Channel, Payloads, Run, Next, ImportAll, FirstFrames, InOrder, ArrivedAll, Lists, Lawful, Read, ExpectedTo;
    var payloads, n := Payloads(v.json, db, order), |order|;
    FramesAt(env, v.sealing, payloads, n);
    RecordsArrive(env, v, db, order, target, sent, n);
    PayloadsReproduce(v.json, db, order, target);
    assert payloads[..n] == payloads;
    var d := Run(env, v, target, FirstFrames(sent, n));
    StoresAreImported(env, v, target, FirstFrames(sent, n));
    LastFrame(env, v, payloads, d, sent[n]);
    TheLastFrame(env, v, target, sent);
  }
}
