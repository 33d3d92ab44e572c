/**
  The receiving side of VSP-1 as a state machine: one asynchronous handler per frame, advanced one
  await at a time, in any order.
 */
module SyncTarget {
  import opened Symbolic
  import opened ByteCodec
  import opened SyncTransfer
  import Manifest

  /** Where a frame's handler is waiting. */
  datatype Handler =
    | OpeningChunk(seqNo: u32, data: ChunkData)
    | Hashing(seqNo: u32, plain: Bytes)
    | Importing(plain: Bytes)
    | OpeningManifest(seqNo: u32, data: ChunkData)
    | Verifying(raw: Bytes)
    | Finished

  datatype Outcome = Resolved | Rejected

  datatype Target = Target(
    aborted: bool, handlers: seq<Handler>, received: map<u32, Bytes>, imported: seq<Bytes>, outcome: Option<Outcome>)

  datatype Event =
    | Receive(frame: Frame)
    | Resume(h: nat, importOk: bool)
    | Abort
    | Close
    | ChannelError

  function Initial(): Target { Target(false, [], map[], [], None) }

  // Only the first settlement counts.
  function Settle(t: Target, o: Outcome): Target {
    if t.outcome.Some? then t else t.(outcome := Some(o))
  }

  // ---------------------------------------------------------------------------------------------
  // What the target checks of the packed manifest entries.

  predicate EntryMatches(entries: Bytes, received: map<u32, Bytes>, i: nat)
    requires i * 40 + 40 <= |entries|
  {
    var seqNo := U64BeToSeq(entries, i * 40);
    seqNo in received && received[seqNo] == entries[i * 40 + 8..i * 40 + 40]
  }

  predicate Accepts(entries: Bytes, received: map<u32, Bytes>) {
    && |entries| % 40 == 0
    && |received| == |entries| / 40
    && (forall i: nat | i < |entries| / 40 :: EntryMatches(entries, received, i))
  }

  method CheckManifest(entries: Bytes, received: map<u32, Bytes>) returns (ok: bool)
    ensures ok == Accepts(entries, received)
  {
    if |entries| % 40 != 0 {
      return false;
    }
    var count := |entries| / 40;
    if |received| != count {
      return false;
    }
    for i := 0 to count
      invariant forall j: nat | j < i :: EntryMatches(entries, received, j)
    {
      var off := i * 40;
      var seqNo := U64BeToSeq(entries, off);
      var expectedHash := entries[off + 8..off + 40];
      if seqNo !in received || received[seqNo] != expectedHash {
        assert !EntryMatches(entries, received, i);
        return false;
      }
    }
    return true;
  }

  // ---------------------------------------------------------------------------------------------
  // Steps.

  // One handler runs to its next await, or to its end.
  function Advance(env: Env, t: Target, h: nat, importOk: bool): Target
    requires h < |t.handlers|
  {
    match t.handlers[h]
    case OpeningChunk(n, data) =>
      (match Open(env.key, n, data)
       case Err(_) => Settle(t.(handlers := t.handlers[h := Finished]), Rejected)
       case Ok(plain) => t.(handlers := t.handlers[h := Hashing(n, plain)]))
    case Hashing(n, plain) =>
      t.(received := t.received[n := env.hash(plain)], handlers := t.handlers[h := Importing(plain)])
    case Importing(plain) =>
      if importOk then t.(imported := t.imported + [plain], handlers := t.handlers[h := Finished])
      else Settle(t.(handlers := t.handlers[h := Finished]), Rejected)
    case OpeningManifest(n, data) =>
      (match Open(env.key, n, data)
       case Err(_) => Settle(t.(handlers := t.handlers[h := Finished]), Rejected)
       case Ok(raw) => t.(handlers := t.handlers[h := Verifying(raw)]))
    case Verifying(raw) =>
      (match Manifest.SyncVerify(env.mac, raw)
       case Err(_) => Settle(t.(handlers := t.handlers[h := Finished]), Rejected)
       case Ok(entries) =>
         Settle(t.(handlers := t.handlers[h := Finished]), if Accepts(entries, t.received) then Resolved else Rejected))
    case Finished => t
  }

  function Step(env: Env, t: Target, e: Event): Target {
    match e
    case Receive(f) =>
      if t.aborted then Settle(t, Rejected)
      else if f.kind == MSG_CHUNK then t.(handlers := t.handlers + [OpeningChunk(f.seqNo, f.data)])
      else if f.kind == MSG_MANIFEST then t.(handlers := t.handlers + [OpeningManifest(f.seqNo, f.data)])
      else t.(handlers := t.handlers + [Finished])
    case Resume(h, importOk) => if h < |t.handlers| then Advance(env, t, h, importOk) else t
    case Abort => t.(aborted := true)
    case Close => if t.aborted then t else Settle(t, Rejected)
    case ChannelError => Settle(t, Rejected)
  }

  // The receiver's variables, which its callbacks update.
  class TargetReceiver {
    const env: Env
    var aborted: bool
    var handlers: seq<Handler>
    var receivedHashes: map<u32, Bytes>
    var imported: seq<Bytes>
    var settled: Option<Outcome>

    function View(): Target
      reads this
    {
      Target(aborted, handlers, receivedHashes, imported, settled)
    }

    constructor (env: Env)
      ensures this.env == env && View() == Initial()
    {
      this.env := env;
      aborted, handlers, receivedHashes, imported, settled := false, [], map[], [], None;
    }

    method SafeSettle(o: Outcome)
      modifies this`settled
      ensures View() == Settle(old(View()), o)
    {
      if settled.None? {
        settled := Some(o);
      }
    }

    method OnMessage(frame: Frame)
      modifies this
      ensures View() == Step(env, old(View()), Receive(frame))
    {
      if aborted {
        SafeSettle(Rejected);
        return;
      }
      if frame.kind == MSG_CHUNK {
        handlers := handlers + [OpeningChunk(frame.seqNo, frame.data)];
      } else if frame.kind == MSG_MANIFEST {
        handlers := handlers + [OpeningManifest(frame.seqNo, frame.data)];
      } else {
        handlers := handlers + [Finished];
      }
    }

    // The event loop resumes handler `h` after its await.
    method Continue(h: nat, importOk: bool)
      requires h < |handlers|
      modifies this
      ensures View() == Step(env, old(View()), Resume(h, importOk))
    {
      hide Accepts;
      match handlers[h] {
        case OpeningChunk(n, data) =>
          var r := Open(env.key, n, data);
          if r.Ok? {
            handlers := handlers[h := Hashing(n, r.value)];
          } else {
            handlers := handlers[h := Finished];
            SafeSettle(Rejected);
          }
        case Hashing(n, plain) =>
          receivedHashes := receivedHashes[n := env.hash(plain)];
          handlers := handlers[h := Importing(plain)];
        case Importing(plain) =>
          handlers := handlers[h := Finished];
          if importOk {
            imported := imported + [plain];
          } else {
            SafeSettle(Rejected);
          }
        case OpeningManifest(n, data) =>
          var r := Open(env.key, n, data);
          if r.Ok? {
            handlers := handlers[h := Verifying(r.value)];
          } else {
            handlers := handlers[h := Finished];
            SafeSettle(Rejected);
          }
        case Verifying(raw) =>
          handlers := handlers[h := Finished];
          var entries := Manifest.SyncVerify(env.mac, raw);
          if entries.Err? {
            SafeSettle(Rejected);
          } else {
            var ok := CheckManifest(entries.value, receivedHashes);
            SafeSettle(if ok then Resolved else Rejected);
          }
        case Finished =>
      }
    }

    method OnClose()
      modifies this
      ensures View() == Step(env, old(View()), Close)
    {
      if !aborted {
        SafeSettle(Rejected);
      }
    }

    method OnError()
      modifies this
      ensures View() == Step(env, old(View()), ChannelError)
    {
      SafeSettle(Rejected);
    }
  }

  function Exec(env: Env, events: seq<Event>): Target {
    if events == [] then Initial() else Step(env, Exec(env, events[..|events| - 1]), events[|events| - 1])
  }

  // ---------------------------------------------------------------------------------------------
  // Aborting, and how a transfer ends.

  lemma {:induction false} ExecPrefix(env: Env, events: seq<Event>, n: nat)
    requires n < |events|
    ensures Exec(env, events[..n + 1]) == Step(env, Exec(env, events[..n]), events[n])
  {
    assert events[..n + 1][..n] == events[..n];
  }

  // The receiver has been aborted exactly when an abort is among the events.
  lemma {:induction false} AbortedExactly(env: Env, events: seq<Event>)
    ensures Exec(env, events).aborted <==> Abort in events
    decreases |events|
  {
    if events != [] {
      var init, e := events[..|events| - 1], events[|events| - 1];
      AbortedExactly(env, init);
      assert events == init + [e];
      StepAborts(env, Exec(env, init), e);
    }
  }

  lemma StepAborts(env: Env, t: Target, e: Event)
    ensures Step(env, t, e).aborted <==> t.aborted || e == Abort
  {
    hide Accepts, Manifest.SyncVerify, Open;
  }

  // From an abort on no frame starts a handler, and the first frame that comes settles the transfer.
  lemma {:induction false} AbortStops(env: Env, events: seq<Event>, more: seq<Event>)
    ensures var t, u := Exec(env, events), Exec(env, events + [Abort] + more);
            && |u.handlers| == |t.handlers| && u.aborted
            && ((exists e :: e in more && e.Receive?) ==> u.outcome.Some?)
            && (t.outcome.Some? ==> u.outcome == t.outcome)
    decreases |more|
  {
    if more == [] {
      ExecAppend(env, events, Abort);
      assert events + [Abort] + [] == events + [Abort];
    } else {
      var init, e := more[..|more| - 1], more[|more| - 1];
      AbortStops(env, events, init);
      assert events + [Abort] + more == events + [Abort] + init + [e] && more == init + [e];
      ExecAppend(env, events + [Abort] + init, e);
      AbortedStep(env, Exec(env, events + [Abort] + init), e);
    }
  }

  lemma AbortedStep(env: Env, t: Target, e: Event)
    requires t.aborted
    ensures var u := Step(env, t, e);
            && |u.handlers| == |t.handlers| && u.aborted && (e.Receive? ==> u.outcome.Some?)
            && (t.outcome.Some? ==> u.outcome == t.outcome)
  {
    hide Accepts, Manifest.SyncVerify, Open;
  }

  // What makes the receiver give up: a frame after an abort, a sealed chunk or manifest that does not open,
  // an import that fails, a manifest that does not verify or does not match, a close without abort, an error.
  ghost predicate Fails(env: Env, t: Target, e: Event) {
    match e
    case Receive(_) => t.aborted
    case Resume(h, importOk) =>
      h < |t.handlers| &&
      (match t.handlers[h]
       case OpeningChunk(n, data) => !(data.Chunk? && data.key == env.key && data.seqNo == n)
       case OpeningManifest(n, data) => !(data.Chunk? && data.key == env.key && data.seqNo == n)
       case Importing(_) => !importOk
       case Verifying(raw) => !Passes(env, t, raw)
       case _ => false)
    case Abort => false
    case Close => !t.aborted
    case ChannelError => true
  }

  // The manifest is authentic and what it packs is what was received.
  ghost predicate Passes(env: Env, t: Target, raw: Bytes) {
    Manifest.SyncVerify(env.mac, raw).Ok? && Accepts(Manifest.SyncVerify(env.mac, raw).value, t.received)
  }

  // What makes it resolve.
  ghost predicate Succeeds(env: Env, t: Target, e: Event) {
    e.Resume? && e.h < |t.handlers| && t.handlers[e.h].Verifying? && Passes(env, t, t.handlers[e.h].raw)
  }

  // Event `n` fails or succeeds.
  ghost predicate Ends(env: Env, events: seq<Event>, n: nat) {
    n < |events| && (Fails(env, Exec(env, events[..n]), events[n]) || Succeeds(env, Exec(env, events[..n]), events[n]))
  }

  // It is the first that does.
  ghost predicate Decides(env: Env, events: seq<Event>, n: nat) {
    Ends(env, events, n) && forall m: nat | m < n :: !Ends(env, events, m)
  }

  lemma OneOutcome(env: Env, t: Target, e: Event)
    ensures Step(env, t, e).outcome
         == if t.outcome.Some? then t.outcome
            else if Fails(env, t, e) then Some(Rejected)
            else if Succeeds(env, t, e) then Some(Resolved) else None
  {
    hide Accepts, Manifest.SyncVerify;
  }

  lemma NotBoth(env: Env, t: Target, e: Event)
    ensures !(Fails(env, t, e) && Succeeds(env, t, e))
  {
  }

  lemma {:induction false} Undecided(env: Env, events: seq<Event>, k: nat)
    requires k <= |events| && forall n: nat | n < k :: !Ends(env, events, n)
    ensures Exec(env, events[..k]).outcome.None?
  {
    if k > 0 {
      Undecided(env, events, k - 1);
      ExecPrefix(env, events, k - 1);
      assert !Ends(env, events, k - 1);
      OneOutcome(env, Exec(env, events[..k - 1]), events[k - 1]);
    }
  }

  // What the deciding event makes of the transfer stays.
  lemma {:induction false} Decided(env: Env, events: seq<Event>, n: nat, k: nat)
    requires Decides(env, events, n) && n < k <= |events|
    ensures Exec(env, events[..k]).outcome
         == Some(if Fails(env, Exec(env, events[..n]), events[n]) then Rejected else Resolved)
    decreases k
  {
    hide Fails, Succeeds, Exec, Step;
    ExecPrefix(env, events, k - 1);
    OneOutcome(env, Exec(env, events[..k - 1]), events[k - 1]);
    if k - 1 == n {
      Undecided(env, events, n);
    } else {
      Decided(env, events, n, k - 1);
    }
  }

  lemma {:induction false} FirstEnd(env: Env, events: seq<Event>, n: nat) returns (m: nat)
    requires Ends(env, events, n)
    ensures Decides(env, events, m)
    decreases n
  {
    if k: nat :| k < n && Ends(env, events, k) {
      m := FirstEnd(env, events, k);
    } else {
      m := n;
    }
  }

  // How a transfer ends.  It is rejected if and only if the first event that fails or succeeds is one that
  // fails, resolved if and only if it is one that succeeds, and open if and only if there is none.
  lemma OutcomeExactly(env: Env, events: seq<Event>)
    ensures Exec(env, events).outcome == Some(Rejected)
            <==> exists n: nat :: Decides(env, events, n) && Fails(env, Exec(env, events[..n]), events[n])
    ensures Exec(env, events).outcome == Some(Resolved)
            <==> exists n: nat :: Decides(env, events, n) && Succeeds(env, Exec(env, events[..n]), events[n])
    ensures Exec(env, events).outcome.None? <==> forall n: nat :: !Ends(env, events, n)
  {
    hide Fails, Succeeds, Exec;
    assert events[..|events|] == events;
    if n: nat :| Ends(env, events, n) {
      var m := FirstEnd(env, events, n);
      Decided(env, events, m, |events|);
      NotBoth(env, Exec(env, events[..m]), events[m]);
      forall k: nat | Decides(env, events, k)
        ensures k == m
      {
      }
    } else {
      Undecided(env, events, |events|);
    }
  }

  // ---------------------------------------------------------------------------------------------
  // What can arrive.  Only the source seals under the session key; frame kinds, sequence numbers and
  // everything else may be altered, and frames repeated, dropped or reordered.

  predicate FromSource(env: Env, payloads: seq<Bytes>, n: u32, plain: Bytes)
    requires |payloads| <= U32_MAX
  {
    || (n < |payloads| && plain == payloads[n])
    || (n == |payloads| && plain == ManifestOf(env, payloads))
  }

  predicate Authentic(env: Env, payloads: seq<Bytes>, data: ChunkData)
    requires |payloads| <= U32_MAX
  {
    data.Chunk? && data.key == env.key ==> FromSource(env, payloads, data.seqNo, data.plain)
  }

  ghost predicate Possible(env: Env, payloads: seq<Bytes>, events: seq<Event>)
    requires |payloads| <= U32_MAX
  {
    forall i | 0 <= i < |events| && events[i].Receive? :: Authentic(env, payloads, events[i].frame.data)
  }

  // No record happens to be a manifest with a valid MAC under the session's key.
  ghost predicate NoForgedManifest(env: Env, payloads: seq<Bytes>) {
    forall i | 0 <= i < |payloads| :: Manifest.Verify(env.mac, payloads[i]).Err?
  }

  // The plaintext the source sealed at a sequence number.
  function PlainAt(env: Env, payloads: seq<Bytes>, n: u32): Bytes
    requires |payloads| <= U32_MAX
  {
    if n < |payloads| then payloads[n] else ManifestOf(env, payloads)
  }

  predicate HandlerInv(env: Env, payloads: seq<Bytes>, h: Handler)
    requires |payloads| <= U32_MAX
  {
    match h
    case OpeningChunk(_, data) => Authentic(env, payloads, data)
    case OpeningManifest(_, data) => Authentic(env, payloads, data)
    case Hashing(n, plain) => FromSource(env, payloads, n, plain)
    case Importing(plain) => plain in payloads || plain == ManifestOf(env, payloads)
    case Verifying(raw) => raw in payloads || raw == ManifestOf(env, payloads)
    case Finished => true
  }

  ghost predicate HandedOver(env: Env, payloads: seq<Bytes>, t: Target, n: u32)
    requires |payloads| <= U32_MAX
  {
    PlainAt(env, payloads, n) in t.imported || Importing(PlainAt(env, payloads, n)) in t.handlers
  }

  // An import, under way or done, is that of a record, or the manifest came as a chunk and was recorded.
  predicate ImportInv(payloads: seq<Bytes>, received: map<u32, Bytes>, h: Handler)
    requires |payloads| <= U32_MAX
  {
    var n: u32 := |payloads|;
    h.Importing? ==> h.plain in payloads || n in received
  }

  ghost predicate Inv(env: Env, payloads: seq<Bytes>, t: Target)
    requires |payloads| <= U32_MAX
  {
    && (forall h | 0 <= h < |t.handlers| :: ImportInv(payloads, t.received, t.handlers[h]))
    && (forall h | 0 <= h < |t.handlers| :: HandlerInv(env, payloads, t.handlers[h]))
    && (forall n | n in t.received :: n <= |payloads| && t.received[n] == env.hash(PlainAt(env, payloads, n)))
    && (t.outcome.None? ==> forall n | n in t.received :: HandedOver(env, payloads, t, n))
    && (forall p | p in t.imported :: ImportInv(payloads, t.received, Importing(p)))
  }

  lemma HandedOverFrame(env: Env, payloads: seq<Bytes>, t: Target, u: Target, n: u32, h: nat)
    requires |payloads| <= U32_MAX && h < |t.handlers| == |u.handlers| && HandedOver(env, payloads, t, n)
    requires forall i | 0 <= i < |t.handlers| && i != h :: u.handlers[i] == t.handlers[i]
    requires forall p | p in t.imported :: p in u.imported
    requires t.handlers[h].Importing? ==> t.handlers[h].plain in u.imported
    ensures HandedOver(env, payloads, u, n)
  {
    var x := Importing(PlainAt(env, payloads, n));
    if x in t.handlers {
      var i :| 0 <= i < |t.handlers| && t.handlers[i] == x;
      if i != h {
        assert u.handlers[i] == x;
      }
    }
  }

  lemma AdvanceHandlers(env: Env, payloads: seq<Bytes>, t: Target, h: nat, importOk: bool, i: nat)
    requires |payloads| <= U32_MAX && Inv(env, payloads, t) && h < |t.handlers| && i < |t.handlers|
    ensures var u := Advance(env, t, h, importOk); |u.handlers| == |t.handlers| && HandlerInv(env, payloads, u.handlers[i])
  {
    assert HandlerInv(env, payloads, t.handlers[h]) && HandlerInv(env, payloads, t.handlers[i]);
    hide Accepts, Manifest.SyncVerify, ManifestOf, Inv;
  }

  // Only the handler that is resumed changes; it comes to import what it has just recorded.
  lemma AdvanceFrame(env: Env, t: Target, h: nat, importOk: bool)
    requires h < |t.handlers|
    ensures var u := Advance(env, t, h, importOk);
            && |u.handlers| == |t.handlers| && (forall i | 0 <= i < |t.handlers| && i != h :: u.handlers[i] == t.handlers[i])
            && t.received.Keys <= u.received.Keys
            && (u.handlers[h].Importing? ==>
                  && t.handlers[h].Hashing? && t.handlers[h].plain == u.handlers[h].plain
                  && t.handlers[h].seqNo in u.received)
  {
    hide Accepts, Manifest.SyncVerify, Open;
  }

  lemma AdvanceImports(env: Env, payloads: seq<Bytes>, t: Target, h: nat, importOk: bool, i: nat)
    requires |payloads| <= U32_MAX && Inv(env, payloads, t) && h < |t.handlers| && i < |t.handlers|
    ensures var u := Advance(env, t, h, importOk);
            |u.handlers| == |t.handlers| && ImportInv(payloads, u.received, u.handlers[i])
  {
    AdvanceFrame(env, t, h, importOk);
    assert HandlerInv(env, payloads, t.handlers[h]) && ImportInv(payloads, t.received, t.handlers[i]);
    hide Advance, ManifestOf, Inv, Authentic;
  }

  lemma AdvanceHandedOver(env: Env, payloads: seq<Bytes>, t: Target, h: nat, importOk: bool, n: u32)
    requires |payloads| <= U32_MAX && Inv(env, payloads, t) && h < |t.handlers|
    requires Advance(env, t, h, importOk).outcome.None? && n in Advance(env, t, h, importOk).received
    ensures HandedOver(env, payloads, Advance(env, t, h, importOk), n)
  {
    var u := Advance(env, t, h, importOk);
    assert HandlerInv(env, payloads, t.handlers[h]);
    if t.handlers[h].Hashing? && n == t.handlers[h].seqNo {
      assert u.handlers[h] == Importing(PlainAt(env, payloads, n));
    } else {
      assert HandedOver(env, payloads, t, n);
      HandedOverFrame(env, payloads, t, u, n, h);
    }
  }

  lemma AdvanceData(env: Env, payloads: seq<Bytes>, t: Target, h: nat, importOk: bool)
    requires |payloads| <= U32_MAX && Inv(env, payloads, t) && h < |t.handlers|
    ensures var u := Advance(env, t, h, importOk);
            && (forall n | n in u.received :: n <= |payloads| && u.received[n] == env.hash(PlainAt(env, payloads, n)))
            && (forall p | p in u.imported :: ImportInv(payloads, u.received, Importing(p)))
  {
    assert HandlerInv(env, payloads, t.handlers[h]) && ImportInv(payloads, t.received, t.handlers[h]);
  }

  lemma AdvanceInv(env: Env, payloads: seq<Bytes>, t: Target, h: nat, importOk: bool)
    requires |payloads| <= U32_MAX && Inv(env, payloads, t) && h < |t.handlers|
    ensures Inv(env, payloads, Advance(env, t, h, importOk))
  {
    var u := Advance(env, t, h, importOk);
    AdvanceData(env, payloads, t, h, importOk);
    if u.outcome.None? {
      forall n | n in u.received
        ensures HandedOver(env, payloads, u, n)
      {
        AdvanceHandedOver(env, payloads, t, h, importOk, n);
      }
    }
    forall i | 0 <= i < |u.handlers|
      ensures HandlerInv(env, payloads, u.handlers[i]) && ImportInv(payloads, u.received, u.handlers[i])
    {
      AdvanceHandlers(env, payloads, t, h, importOk, i);
      AdvanceImports(env, payloads, t, h, importOk, i);
    }
  }

  lemma ReceiveInv(env: Env, payloads: seq<Bytes>, t: Target, f: Frame)
    requires |payloads| <= U32_MAX && Inv(env, payloads, t) && Authentic(env, payloads, f.data)
    ensures Inv(env, payloads, Step(env, t, Receive(f)))
  {
    var u := Step(env, t, Receive(f));
    forall i | 0 <= i < |u.handlers|
      ensures HandlerInv(env, payloads, u.handlers[i]) && ImportInv(payloads, u.received, u.handlers[i])
    {
      if i < |t.handlers| {
        assert HandlerInv(env, payloads, t.handlers[i]) && ImportInv(payloads, t.received, t.handlers[i]);
      }
    }
    if u.outcome.None? {
      forall n | n in u.received
        ensures HandedOver(env, payloads, u, n)
      {
        assert HandedOver(env, payloads, t, n);
      }
    }
  }

  lemma {:induction false} ExecInv(env: Env, payloads: seq<Bytes>, events: seq<Event>)
    requires |payloads| <= U32_MAX && Possible(env, payloads, events)
    ensures Inv(env, payloads, Exec(env, events))
    decreases |events|
  {
    if events != [] {
      var init, e := events[..|events| - 1], events[|events| - 1];
      ExecInv(env, payloads, init);
      var t := Exec(env, init);
      match e
      case Receive(f) => ReceiveInv(env, payloads, t, f);
      case Resume(h, ok) =>
        if h < |t.handlers| {
          AdvanceInv(env, payloads, t, h, ok);
        }
      case _ =>
    }
  }

  // ---------------------------------------------------------------------------------------------
  // What acceptance means.

  /** Sequence number to SHA-256, for the first `n` records. */
  function ExpectedTo(env: Env, payloads: seq<Bytes>, n: nat): map<u32, Bytes>
    requires n <= |payloads| <= U32_MAX
  {
    if n == 0 then map[] else ExpectedTo(env, payloads, n - 1)[n - 1 := env.hash(payloads[n - 1])]
  }

  function Expected(env: Env, payloads: seq<Bytes>): map<u32, Bytes>
    requires |payloads| <= U32_MAX
  {
    ExpectedTo(env, payloads, |payloads|)
  }

  lemma {:induction false} ExpectedParts(env: Env, payloads: seq<Bytes>, n: nat)
    requires n <= |payloads| <= U32_MAX
    ensures |ExpectedTo(env, payloads, n)| == n
    ensures forall i: u32 :: i in ExpectedTo(env, payloads, n) <==> i < n
    ensures forall i: u32 | i < n :: ExpectedTo(env, payloads, n)[i] == env.hash(payloads[i])
  {
    if n > 0 {
      ExpectedParts(env, payloads, n - 1);
    }
  }

  lemma SubsetOfSameSize<T>(a: set<T>, b: set<T>)
    requires a <= b && |a| == |b|
    ensures a == b
  {
    assert |b - a| == |b| - |a|;
  }

  lemma PackedEntry(env: Env, payloads: seq<Bytes>, i: nat)
    requires env.Lawful() && i < |payloads| <= U32_MAX
    ensures var b := Manifest.EntriesBytes(Entries(env, payloads, |payloads|));
            && |b| == |payloads| * 40
            && U64BeToSeq(b, i * 40) == i && b[i * 40 + 8..i * 40 + 40] == env.hash(payloads[i])
  {
    var es := Entries(env, payloads, |payloads|);
    var b := Manifest.EntriesBytes(es);
    Manifest.EntriesBytesAt(es, i);
    SeqIsU64(i);
    var id := SeqToU64Be(i);
    WindowParts(b, i * 40, id, env.hash(payloads[i]));
    assert U64BeToSeq(id, 0) == FromU32Be(id[4..8]);
  }

  lemma WindowParts(b: Bytes, off: nat, id: Bytes, hash: Bytes)
    requires |id| == 8 && |hash| == 32 && off + 40 <= |b| && b[off..off + 40] == id + hash
    ensures b[off + 4..off + 8] == id[4..8] && b[off + 8..off + 40] == hash
  {
    SubSlice(b, off, 40, 4, 8);
    SubSlice(b, off, 40, 8, 40);
    assert (id + hash)[4..8] == id[4..8] && (id + hash)[8..40] == hash;
  }

  ghost predicate Covers(env: Env, payloads: seq<Bytes>, received: map<u32, Bytes>)
    requires |payloads| <= U32_MAX
  {
    forall i: u32 | i < |payloads| :: i in received && received[i] == env.hash(payloads[i])
  }

  // A map that covers the records and has no more entries than there are records is the expected one.
  lemma Pigeonhole(env: Env, payloads: seq<Bytes>, received: map<u32, Bytes>)
    requires |payloads| <= U32_MAX
    ensures Covers(env, payloads, received) && |received| == |payloads| <==> received == Expected(env, payloads)
  {
    var want := Expected(env, payloads);
    ExpectedParts(env, payloads, |payloads|);
    if Covers(env, payloads, received) && |received| == |payloads| {
      assert |want.Keys| == |want| && |received.Keys| == |received|;
      assert want.Keys <= received.Keys;
      SubsetOfSameSize(want.Keys, received.Keys);
    }
  }

  lemma OwnEntryMatches(env: Env, payloads: seq<Bytes>, received: map<u32, Bytes>, i: nat)
    requires env.Lawful() && i < |payloads| <= U32_MAX
    ensures var b := Manifest.EntriesBytes(Entries(env, payloads, |payloads|));
            && |b| == |payloads| * 40
            && (EntryMatches(b, received, i) <==> i in received && received[i] == env.hash(payloads[i]))
  {
    PackedEntry(env, payloads, i);
  }

  lemma ChecksCoverage(env: Env, payloads: seq<Bytes>, received: map<u32, Bytes>)
    requires env.Lawful() && |payloads| <= U32_MAX
    ensures Accepts(Manifest.EntriesBytes(Entries(env, payloads, |payloads|)), received)
            <==> Covers(env, payloads, received) && |received| == |payloads|
  {
    var es := Entries(env, payloads, |payloads|);
    Manifest.EntriesLength(es);
    var b := Manifest.EntriesBytes(es);
    assert |b| % 40 == 0 && |b| / 40 == |payloads|;
    if Accepts(b, received) {
      forall i: u32 | i < |payloads|
        ensures i in received && received[i] == env.hash(payloads[i])
      {
        assert EntryMatches(b, received, i);
        OwnEntryMatches(env, payloads, received, i);
      }
    }
    if Covers(env, payloads, received) {
      forall i: nat | i < |b| / 40
        ensures EntryMatches(b, received, i)
      {
        OwnEntryMatches(env, payloads, received, i);
      }
    }
  }

  // The check on the source's own manifest succeeds for exactly one received map.  Equal size and
  // distinct sequence numbers leave no room for anything else.
  lemma {:induction false} AcceptsExactly(env: Env, payloads: seq<Bytes>, received: map<u32, Bytes>)
    requires env.Lawful() && |payloads| <= U32_MAX
    ensures Accepts(Manifest.EntriesBytes(Entries(env, payloads, |payloads|)), received)
            <==> received == Expected(env, payloads)
  {
    ChecksCoverage(env, payloads, received);
    Pigeonhole(env, payloads, received);
  }

  lemma VerifyOwnManifest(env: Env, payloads: seq<Bytes>)
    requires env.Lawful() && |payloads| <= U32_MAX
    ensures Manifest.SyncVerify(env.mac, ManifestOf(env, payloads))
         == Ok(Manifest.EntriesBytes(Entries(env, payloads, |payloads|)))
  {
    Manifest.ManifestRoundTrip(env.mac, Entries(env, payloads, |payloads|));
  }

  // Acceptance.  However the handlers interleave and whatever the network does, the step at which the
  // target resolves finds its received map to be exactly the source's records and their hashes, and
  // every record imported or handed to an import that has not finished.
  lemma AcceptanceIsExact(env: Env, payloads: seq<Bytes>, events: seq<Event>, e: Event)
    requires env.Lawful() && |payloads| <= U32_MAX
    requires Possible(env, payloads, events + [e]) && NoForgedManifest(env, payloads)
    requires Exec(env, events).outcome != Some(Resolved) && Step(env, Exec(env, events), e).outcome == Some(Resolved)
    ensures Exec(env, events).received == Expected(env, payloads)
    ensures forall i: u32 | i < |payloads| :: HandedOver(env, payloads, Exec(env, events), i)
    ensures forall h | h in Exec(env, events).handlers && h.Importing? :: h.plain in payloads
    ensures forall p | p in Exec(env, events).imported :: p in payloads
  {
    PossiblePrefix(env, payloads, events, e);
    ExecInv(env, payloads, events);
    var t := Exec(env, events);
    ResolvingStep(env, t, e);
    var raw := t.handlers[e.h].raw;
    assert HandlerInv(env, payloads, t.handlers[e.h]);
    assert raw !in payloads;
    VerifyOwnManifest(env, payloads);
    AcceptsExactly(env, payloads, t.received);
    ExpectedParts(env, payloads, |payloads|);
    forall h | h in t.handlers && h.Importing?
      ensures h.plain in payloads
    {
      var i :| 0 <= i < |t.handlers| && t.handlers[i] == h;
      assert ImportInv(payloads, t.received, t.handlers[i]);
    }
    forall p | p in t.imported
      ensures p in payloads
    {
      assert ImportInv(payloads, t.received, Importing(p));
    }
  }

  lemma PossiblePrefix(env: Env, payloads: seq<Bytes>, events: seq<Event>, e: Event)
    requires |payloads| <= U32_MAX && Possible(env, payloads, events + [e])
    ensures Possible(env, payloads, events)
  {
    forall i | 0 <= i < |events| && events[i].Receive?
      ensures Authentic(env, payloads, events[i].frame.data)
    {
      assert (events + [e])[i] == events[i];
    }
  }

  // Only a manifest handler resolves, on bytes that verify and pass the check.
  lemma ResolvingStep(env: Env, t: Target, e: Event)
    requires t.outcome != Some(Resolved) && Step(env, t, e).outcome == Some(Resolved)
    ensures t.outcome.None? && e.Resume? && e.h < |t.handlers| && t.handlers[e.h].Verifying?
    ensures var r := Manifest.SyncVerify(env.mac, t.handlers[e.h].raw); r.Ok? && Accepts(r.value, t.received)
    ensures Manifest.Verify(env.mac, t.handlers[e.h].raw).Ok?
  {
  }

  // When the target resolves, every record has been imported if and only if each import under way is
  // that of a record already imported.
  lemma CompleteExactly(env: Env, payloads: seq<Bytes>, events: seq<Event>, e: Event)
    requires env.Lawful() && |payloads| <= U32_MAX
    requires Possible(env, payloads, events + [e]) && NoForgedManifest(env, payloads)
    requires Exec(env, events).outcome != Some(Resolved) && Step(env, Exec(env, events), e).outcome == Some(Resolved)
    ensures var t := Exec(env, events);
            (forall i | 0 <= i < |payloads| :: payloads[i] in t.imported)
            <==> (forall h | h in t.handlers && h.Importing? :: h.plain in t.imported)
  {
    AcceptanceIsExact(env, payloads, events, e);
    var t := Exec(env, events);
    if forall h | h in t.handlers && h.Importing? :: h.plain in t.imported {
      forall i | 0 <= i < |payloads|
        ensures payloads[i] in t.imported
      {
        assert HandedOver(env, payloads, t, i);
      }
    }
  }

  // In particular, all have been when no import is under way.
  lemma QuietAcceptanceIsComplete(env: Env, payloads: seq<Bytes>, events: seq<Event>, e: Event)
    requires env.Lawful() && |payloads| <= U32_MAX
    requires Possible(env, payloads, events + [e]) && NoForgedManifest(env, payloads)
    requires Exec(env, events).outcome != Some(Resolved) && Step(env, Exec(env, events), e).outcome == Some(Resolved)
    requires forall h | h in Exec(env, events).handlers :: !h.Importing?
    ensures forall i | 0 <= i < |payloads| :: payloads[i] in Exec(env, events).imported
  {
    CompleteExactly(env, payloads, events, e);
  }

  lemma ExecAppend(env: Env, events: seq<Event>, e: Event)
    ensures Exec(env, events + [e]) == Step(env, Exec(env, events), e)
  {
    assert (events + [e])[..|events|] == events;
  }

  lemma ExecAppend4(env: Env, events: seq<Event>, a: Event, b: Event, c: Event, d: Event)
    ensures Exec(env, events + [a, b, c, d]) == Step(env, Step(env, Step(env, Step(env, Exec(env, events), a), b), c), d)
  {
    ExecAppend(env, events, a);
    ExecAppend(env, events + [a], b);
    ExecAppend(env, events + [a] + [b], c);
    ExecAppend(env, events + [a] + [b] + [c], d);
    assert events + [a, b, c, d] == events + [a] + [b] + [c] + [d];
  }

  // One record received and hashed, its import still pending, and the manifest waiting.
  lemma ImportPending(env: Env, p: Bytes, events: seq<Event>)
    requires events == [Receive(ChunkFrame(env, [p], 0)), Resume(0, true), Resume(0, true), Receive(ManifestFrame(env, [p]))]
    ensures Exec(env, events)
         == Target(false, [Importing(p), OpeningManifest(1, ManifestFrame(env, [p]).data)], Expected(env, [p]), [], None)
  {
    var chunk, manifest, r := Receive(ChunkFrame(env, [p], 0)), Receive(ManifestFrame(env, [p])), Resume(0, true);
    ExecAppend4(env, [], chunk, r, r, manifest);
    assert [] + events == events;
    var t1 := Step(env, Initial(), chunk);
    var t2 := Step(env, t1, r);
    assert t2.handlers == [Hashing(0, p)];
    var t3 := Step(env, t2, r);
    assert t3.handlers == [Importing(p)];
    assert ExpectedTo(env, [p], 0) == map[];
    assert t3.received == Expected(env, [p]);
  }

  // That condition is needed: with a single record, the target can resolve while the record's import
  // has not happened yet, because the hash is recorded before the import is awaited.
  lemma AcceptanceMayPrecedeImport(env: Env, p: Bytes) returns (events: seq<Event>)
    requires env.Lawful()
    ensures Possible(env, [p], events)
    ensures Exec(env, events).outcome == Some(Resolved) && p !in Exec(env, events).imported
  {
    hide Accepts, ManifestOf, Expected, Manifest.SyncVerify;
    var first := [Receive(ChunkFrame(env, [p], 0)), Resume(0, true), Resume(0, true), Receive(ManifestFrame(env, [p]))];
    ImportPending(env, p, first);
    events := first + [Resume(1, true)] + [Resume(1, true)];
    ExecAppend(env, first, Resume(1, true));
    ExecAppend(env, first + [Resume(1, true)], Resume(1, true));
    VerifyOwnManifest(env, [p]);
    AcceptsExactly(env, [p], Expected(env, [p]));
  }

  // ---------------------------------------------------------------------------------------------
  // The honest run: every frame arrives once, in order, and its handler finishes before the next.

  function ChunkEvents(env: Env, payloads: seq<Bytes>, n: nat): seq<Event>
    requires n <= |payloads| <= U32_MAX
  {
    if n == 0 then []
    else
      var r := Resume(n - 1, true);
      ChunkEvents(env, payloads, n - 1) + [Receive(ChunkFrame(env, payloads, n - 1)), r, r, r]
  }

  function HonestEvents(env: Env, payloads: seq<Bytes>): seq<Event>
    requires |payloads| <= U32_MAX
  {
    var n := |payloads|;
    ChunkEvents(env, payloads, n) + [Receive(ManifestFrame(env, payloads))] + [Resume(n, true)] + [Resume(n, true)]
  }

  function Done(n: nat): (s: seq<Handler>)
    ensures |s| == n
  {
    if n == 0 then [] else Done(n - 1) + [Finished]
  }

  lemma OneChunk(env: Env, payloads: seq<Bytes>, n: nat)
    requires n < |payloads| <= U32_MAX
    ensures var t := Target(false, Done(n), ExpectedTo(env, payloads, n), payloads[..n], None);
            var r := Resume(n, true);
            Step(env, Step(env, Step(env, Step(env, t, Receive(ChunkFrame(env, payloads, n))), r), r), r)
            == Target(false, Done(n + 1), ExpectedTo(env, payloads, n + 1), payloads[..n + 1], None)
  {
    var t := Target(false, Done(n), ExpectedTo(env, payloads, n), payloads[..n], None);
    var r := Resume(n, true);
    var t1 := Step(env, t, Receive(ChunkFrame(env, payloads, n)));
    assert t1.handlers[n] == OpeningChunk(n, Chunk(env.key, n, payloads[n]));
    var t2 := Step(env, t1, r);
    assert t2.handlers[n] == Hashing(n, payloads[n]);
    var t3 := Step(env, t2, r);
    assert t3.handlers[n] == Importing(payloads[n]);
    var t4 := Step(env, t3, r);
    assert t4.handlers == Done(n) + [Finished];
    assert payloads[..n + 1] == payloads[..n] + [payloads[n]];
  }

  lemma {:induction false} ChunksArrive(env: Env, payloads: seq<Bytes>, n: nat)
    requires n <= |payloads| <= U32_MAX
    ensures Exec(env, ChunkEvents(env, payloads, n))
         == Target(false, Done(n), ExpectedTo(env, payloads, n), payloads[..n], None)
    decreases n
  {
    if n > 0 {
      ChunksArrive(env, payloads, n - 1);
      var r := Resume(n - 1, true);
      ExecAppend4(env, ChunkEvents(env, payloads, n - 1), Receive(ChunkFrame(env, payloads, n - 1)), r, r, r);
      OneChunk(env, payloads, n - 1);
    }
  }

  lemma ManifestArrives(env: Env, payloads: seq<Bytes>, t: Target)
    requires env.Lawful() && |payloads| <= U32_MAX
    requires |t.handlers| == |payloads| && !t.aborted && t.outcome.None? && t.received == Expected(env, payloads)
    ensures var r := Resume(|payloads|, true);
            var u := Step(env, Step(env, Step(env, t, Receive(ManifestFrame(env, payloads))), r), r);
            u.outcome == Some(Resolved) && u.imported == t.imported && u.received == t.received
  {
    var n := |payloads|;
    var r := Resume(n, true);
    var t1 := Step(env, t, Receive(ManifestFrame(env, payloads)));
    assert t1.handlers[n] == OpeningManifest(n, ManifestFrame(env, payloads).data);
    var t2 := Step(env, t1, r);
    assert t2.handlers[n] == Verifying(ManifestOf(env, payloads));
    VerifyOwnManifest(env, payloads);
    AcceptsExactly(env, payloads, Expected(env, payloads));
  }

  // The honest run resolves, having imported every record in order.
  lemma HonestRunResolves(env: Env, payloads: seq<Bytes>)
    requires env.Lawful() && |payloads| <= U32_MAX
    ensures var t := Exec(env, HonestEvents(env, payloads));
            t.outcome == Some(Resolved) && t.imported == payloads && t.received == Expected(env, payloads)
  {
    var n := |payloads|;
    var chunks, m, r := ChunkEvents(env, payloads, n), Receive(ManifestFrame(env, payloads)), Resume(n, true);
    ChunksArrive(env, payloads, n);
    ExecAppend(env, chunks, m);
    ExecAppend(env, chunks + [m], r);
    ExecAppend(env, chunks + [m] + [r], r);
    ManifestArrives(env, payloads, Exec(env, chunks));
    assert payloads[..n] == payloads;
  }
}
