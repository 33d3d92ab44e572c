/**
  Concurrent `drEncrypt` and `drDecrypt` calls as a state machine over their await points: the lock,
  the load, each ratchet run in the worker, the save.  Steps of different calls interleave freely.
 */
module SessionRuns {
  import opened Symbolic
  import opened DoubleRatchet
  import opened Sessions
  import Locks

  /** Where a call is. */
  datatype Phase =
    | Queued
    | Loading
    | Trying(loaded: Session, rest: seq<Attempt>)
    | Saving(a: Attempt, next: State, out: Output, rest: seq<Attempt>)
    | Returned(out: Output, at: nat)   // `at` is the position of its save in the log
    | ReturnedNull(at: nat)            // `at` is the length of the log when it loaded
    | Rejected

  // `retried` are the calls that went on to their INIT attempt after the save of their first had failed.
  datatype Client = Client(
    locks: Locks.Table, ops: seq<Op>, phases: seq<Phase>,
    store: map<string, State>, log: seq<Saved>, retried: set<nat>)

  datatype Event =
    | Call(key: string, op: Op)
    | Start(i: nat)
    | Load(i: nat, ok: bool)
    | Try(i: nat)
    | Save(i: nat, ok: bool, stored: bool)

  function StatusOf(p: Phase): Locks.Status {
    match p
    case Queued => Locks.Waiting
    case Loading => Locks.Running
    case Trying(_, _) => Locks.Running
    case Saving(_, _, _, _) => Locks.Running
    case Returned(_, _) => Locks.Settled(true)
    case ReturnedNull(_) => Locks.Settled(true)
    case Rejected => Locks.Settled(false)
  }

  function Initial(): Client {
    Client(Locks.Table(map[], []), [], [], map[], [], {})
  }

  // The parts of the state fit together.
  predicate Shape(c: Client) {
    && |c.ops| == |c.phases| == |c.locks.slots|
    && (forall i | 0 <= i < |c.phases| :: c.locks.slots[i].status == StatusOf(c.phases[i]))
    && (forall k | k in c.store :: c.store[k].Valid())
  }

  function KeyOf(c: Client, i: nat): string
    requires Shape(c) && i < |c.phases|
  {
    c.locks.slots[i].key
  }

  function Stored(c: Client, key: string): Session
    requires Shape(c)
  {
    if key in c.store then Some(c.store[key]) else None
  }

  predicate Enabled(c: Client, e: Event) {
    && Shape(c)
    && match e
       case Call(_, _) => true
       case Start(i) => Locks.CanStart(c.locks, i)
       case Load(i, _) => i < |c.phases| && c.phases[i] == Loading
       case Try(i) => i < |c.phases| && c.phases[i].Trying?
       case Save(i, ok, stored) => i < |c.phases| && c.phases[i].Saving? && c.phases[i].next.Valid() && (ok ==> stored)
  }

  // Moves call `i` to phase `p`.
  function Goto(c: Client, i: nat, p: Phase): Client
    requires Shape(c) && i < |c.phases|
  {
    c.(phases := c.phases[i := p], locks := Locks.WithStatus(c.locks, i, StatusOf(p)))
  }

  function AfterTry(p: Phase): Phase
    requires p.Trying?
  {
    if p.rest == [] then Rejected
    else match Apply(p.rest[0], p.loaded)
      case None => if p.rest[1..] == [] then Rejected else Trying(p.loaded, p.rest[1..])
      case Some((out, t)) => Saving(p.rest[0], t, out, p.rest[1..])
  }

  // All tries of a call, to its save or its failure.
  function Tried(p: Phase): Phase
    decreases if p.Trying? then |p.rest| else 0, if p.Trying? then 1 else 0
  {
    if p.Trying? then Tried(AfterTry(p)) else p
  }

  function AfterLoad(op: Op, loaded: Session, at: nat): Phase {
    if Attempts(op, loaded) == [] then ReturnedNull(at) else Trying(loaded, Attempts(op, loaded))
  }

  // The steps of a call that is not interrupted do what `Alone` says.
  lemma AloneIsTried(op: Op, loaded: Session, at: nat)
    ensures var p := Tried(AfterLoad(op, loaded, at));
            match Alone(op, loaded).0
            case ReturnsNull => p == ReturnedNull(at)
            case Throws => p == Rejected
            case Returns(out) => p.Saving? && p.out == out && Some(p.next) == Alone(op, loaded).1
  {
    if Attempts(op, loaded) != [] {
      TriedIsFirstSuccess(loaded, Attempts(op, loaded));
    }
  }

  lemma {:induction false} TriedIsFirstSuccess(loaded: Session, attempts: seq<Attempt>)
    requires attempts != []
    ensures var p := Tried(Trying(loaded, attempts));
            match FirstSuccess(attempts, loaded)
            case None => p == Rejected
            case Some((out, t)) => p.Saving? && p.out == out && p.next == t
    decreases |attempts|
  {
    hide Apply;
    var p := Trying(loaded, attempts);
    assert Tried(p) == Tried(AfterTry(p));
    if AfterTry(p).Trying? {
      TriedIsFirstSuccess(loaded, attempts[1..]);
    } else {
      assert Tried(AfterTry(p)) == AfterTry(p);
      assert attempts[1..] == [] ==> FirstSuccess(attempts[1..], loaded).None?;
    }
  }

  function Store(c: Client, i: nat): Client
    requires Shape(c) && i < |c.phases| && c.phases[i].Saving?
  {
    var key := KeyOf(c, i);
    c.(store := c.store[key := c.phases[i].next],
       log := c.log + [Saved(key, i, c.phases[i].a)])
  }

  // A failed save sends the call on to its INIT attempt, if it has one left.
  function AfterSave(p: Phase, ok: bool, at: nat): Phase
    requires p.Saving?
  {
    if ok then Returned(p.out, at) else if p.rest == [] then Rejected else Trying(None, p.rest)
  }

  function Noted(c: Client, i: nat, ok: bool): (d: Client)
    requires Shape(c) && i < |c.phases| && c.phases[i].Saving?
    ensures Shape(d)
  {
    if !ok && c.phases[i].rest != [] then c.(retried := c.retried + {i}) else c
  }

  function Step(c: Client, e: Event): Client
    requires Enabled(c, e)
  {
    match e
    case Call(key, op) => c.(locks := Locks.Called(c.locks, key), ops := c.ops + [op], phases := c.phases + [Queued])
    case Start(i) => Goto(c, i, Loading)
    case Load(i, ok) => Goto(c, i, if ok then AfterLoad(c.ops[i], Stored(c, KeyOf(c, i)), |c.log|) else Rejected)
    case Try(i) => Goto(c, i, AfterTry(c.phases[i]))
    case Save(i, ok, stored) =>
      Goto(if stored then Store(Noted(c, i, ok), i) else Noted(c, i, ok), i, AfterSave(c.phases[i], ok, |c.log|))
  }

  ghost predicate Run(trace: seq<Client>, events: seq<Event>) {
    && |trace| == |events| + 1
    && trace[0] == Initial()
    && (forall i | 0 <= i < |events| :: Enabled(trace[i], events[i]) && trace[i + 1] == Step(trace[i], events[i]))
  }

  // ---------------------------------------------------------------------------------------------

  // The attempt with the stored session does not succeed.
  predicate StoredFails(op: Op, session: Session) {
    op.Decrypt? ==> Apply(Dec(op.wire, op.gen), session).None?
  }

  // The INIT attempt of a decryption that carries an INIT part.
  predicate IsInit(op: Op, rest: seq<Attempt>) {
    op.Decrypt? && op.init.Some? && rest == [InitDec(op.init.value, op.spk, op.wire, op.gen2)]
  }

  predicate Unsaved(log: seq<Saved>, i: nat) {
    forall x | 0 <= x < |log| :: log[x].task != i
  }

  // A call between its load and its save runs the attempts of its own operation on what the store
  // still holds.
  predicate PhaseInv(p: Phase, op: Op, retried: bool, session: Session, log: seq<Saved>, key: string, i: nat) {
    match p
    case Trying(loaded, rest) =>
      && (retried || Unsaved(log, i))
      && ((!retried && loaded == session && rest == Attempts(op, loaded) && rest != [])
          || (IsInit(op, rest) && (retried || StoredFails(op, session))))
    case Saving(a, next, out, rest) =>
      && (retried || Unsaved(log, i))
      && AttemptOf(op, a) && next.Valid() && Apply(a, session) == Some((out, next))
      && (a.InitDec? ==> retried || StoredFails(op, session))
      && (rest == [] || (a.Dec? && IsInit(op, rest)))
    case Returned(out, at) => at < |log| && log[at].key == key && log[at].task == i && OutputOf(log, at) == Some(out)
    case ReturnedNull(at) => at <= |log| && Attempts(op, SessionOf(log[..at], key)) == []
    case Rejected => true
    case _ => !retried && Unsaved(log, i)
  }

  // A save was made by a started call on its conversation: of an attempt of that call's operation,
  // on the session stored before; and of its INIT attempt only if the attempt with that session fails
  // or the save of that attempt had failed.
  predicate SaveInv(slots: seq<Locks.Slot>, ops: seq<Op>, retried: set<nat>, log: seq<Saved>, x: nat)
    requires x < |log|
  {
    var e, before := log[x], SessionOf(log[..x], log[x].key);
    && e.task < |slots| == |ops| && slots[e.task].key == e.key && slots[e.task].status != Locks.Waiting
    && AttemptOf(ops[e.task], e.a) && Apply(e.a, before).Some?
    && (e.a.InitDec? ==> e.task in retried || StoredFails(ops[e.task], before))
  }

  // The saves of a conversation were made in call order, one for each call unless it retried.
  predicate InOrder(log: seq<Saved>, retried: set<nat>) {
    forall x, y | 0 <= x < y < |log| && log[x].key == log[y].key ::
      log[x].task < log[y].task || (log[x].task == log[y].task && log[x].task in retried)
  }

  predicate LogInv(slots: seq<Locks.Slot>, ops: seq<Op>, retried: set<nat>, log: seq<Saved>) {
    (forall x | 0 <= x < |log| :: SaveInv(slots, ops, retried, log, x)) && InOrder(log, retried)
  }

  predicate PhasesInv(c: Client, i: nat)
    requires Shape(c) && i < |c.phases|
  {
    PhaseInv(c.phases[i], c.ops[i], i in c.retried, Stored(c, KeyOf(c, i)), c.log, KeyOf(c, i), i)
  }

  ghost predicate Inv(c: Client) {
    && Shape(c) && Locks.Inv(c.locks) && LogInv(c.locks.slots, c.ops, c.retried, c.log)
    && (forall key :: Stored(c, key) == SessionOf(c.log, key))
    && (forall i: nat | i < |c.phases| :: PhasesInv(c, i))
    && (forall i | i in c.retried :: i < |c.phases|)
  }

  lemma LogFrame(slots: seq<Locks.Slot>, u: seq<Locks.Slot>, ops: seq<Op>, uops: seq<Op>, retried: set<nat>, log: seq<Saved>)
    requires LogInv(slots, ops, retried, log) && |ops| == |slots| <= |u| == |uops| && ops <= uops
    requires forall i | 0 <= i < |slots| ::
               u[i].key == slots[i].key && (u[i].status == Locks.Waiting ==> slots[i].status == Locks.Waiting)
    ensures LogInv(u, uops, retried, log)
  {
    hide SessionOf, Apply;
    forall x | 0 <= x < |log|
      ensures SaveInv(u, uops, retried, log, x)
    {
      assert SaveInv(slots, ops, retried, log, x);
    }
  }

  lemma CallInv(c: Client, key: string, op: Op)
    requires Inv(c)
    ensures Inv(Step(c, Call(key, op)))
  {
    hide SessionOf, Apply, OutputOf;
    var d := Step(c, Call(key, op));
    Locks.CallInv(c.locks, key);
    assert Shape(d);
    LogFrame(c.locks.slots, d.locks.slots, c.ops, d.ops, c.retried, c.log);
    forall k
      ensures Stored(d, k) == SessionOf(d.log, k)
    {
      assert Stored(d, k) == Stored(c, k);
    }
    forall j: nat | j < |d.phases|
      ensures PhasesInv(d, j)
    {
      if j < |c.phases| {
        assert PhasesInv(c, j) && KeyOf(d, j) == KeyOf(c, j);
      } else {
        NotSavedYet(c);
      }
    }
  }

  // No save belongs to a call that has not been made.
  lemma NotSavedYet(c: Client)
    requires Inv(c)
    ensures Unsaved(c.log, |c.phases|) && |c.phases| !in c.retried
  {
    forall x | 0 <= x < |c.log|
      ensures c.log[x].task != |c.phases|
    {
      assert SaveInv(c.locks.slots, c.ops, c.retried, c.log, x);
    }
  }

  // Moving one call along without touching the store.
  lemma GotoInv(c: Client, i: nat, p: Phase)
    requires Inv(c) && i < |c.phases| && !p.Queued?
    requires (p.Loading? && Locks.CanStart(c.locks, i)) || StatusOf(c.phases[i]) == Locks.Running
    requires PhaseInv(p, c.ops[i], i in c.retried, Stored(c, KeyOf(c, i)), c.log, KeyOf(c, i), i)
    ensures Inv(Goto(c, i, p))
  {
    hide PhaseInv, SessionOf;
    var d := Goto(c, i, p);
    if StatusOf(p) == StatusOf(c.phases[i]) {
      assert d.locks == c.locks;
    } else {
      Locks.StatusInv(c.locks, i, StatusOf(p));
    }
    assert Shape(d);
    LogFrame(c.locks.slots, d.locks.slots, c.ops, d.ops, c.retried, c.log);
    forall k
      ensures Stored(d, k) == SessionOf(d.log, k)
    {
      assert Stored(d, k) == Stored(c, k);
    }
    forall j: nat | j < |d.phases|
      ensures PhasesInv(d, j)
    {
      assert PhasesInv(c, j) && KeyOf(d, j) == KeyOf(c, j);
    }
  }

  // No other call on the key is between its load and its return.
  lemma OthersAreIdle(c: Client, i: nat, j: nat)
    requires Inv(c) && i < |c.phases| && j < |c.phases| && i != j && KeyOf(c, i) == KeyOf(c, j)
    requires StatusOf(c.phases[i]) == Locks.Running
    ensures StatusOf(c.phases[j]) != Locks.Running
  {
    if i < j {
      if c.locks.slots[j].status != Locks.Waiting {
        Locks.CallOrder(c.locks, i, j);
      }
    } else {
      Locks.CallOrder(c.locks, j, i);
    }
  }

  // The state after the save of call `i` reached the store, if it does; the call is still running.
  lemma StoreShape(c: Client, i: nat)
    requires Inv(c) && i < |c.phases| && c.phases[i].Saving?
    ensures Shape(Store(c, i)) && Store(c, i).locks == c.locks && Store(c, i).phases == c.phases
    ensures Store(c, i).ops == c.ops && Store(c, i).retried == c.retried
  {
    assert PhasesInv(c, i);
  }

  lemma StoreSessions(c: Client, i: nat, key: string)
    requires Inv(c) && i < |c.phases| && c.phases[i].Saving?
    ensures Shape(Store(c, i)) && Stored(Store(c, i), key) == SessionOf(Store(c, i).log, key)
    ensures key != KeyOf(c, i) ==> Stored(Store(c, i), key) == Stored(c, key)
    ensures OutputOf(Store(c, i).log, |c.log|) == Some(c.phases[i].out)
  {
    var own, p := KeyOf(c, i), c.phases[i];
    StoreShape(c, i);
    assert PhasesInv(c, i);
    assert Stored(c, own) == SessionOf(c.log, own) && Stored(c, key) == SessionOf(c.log, key);
    hide SessionOf, OutputOf;
    SessionAppend(c.log, Saved(own, i, p.a), key);
    OutputAppend(c.log, Saved(own, i, p.a), |c.log|);
  }

  // Earlier saves stay what they were when one is appended.
  lemma SaveFrame(slots: seq<Locks.Slot>, ops: seq<Op>, retried: set<nat>, log: seq<Saved>, e: Saved, x: nat)
    requires x < |log| && SaveInv(slots, ops, retried, log, x)
    ensures SaveInv(slots, ops, retried, log + [e], x)
  {
    assert (log + [e])[..x] == log[..x];
  }

  // The call that saves is the latest started on its conversation.
  lemma LatestSaves(c: Client, i: nat, x: nat)
    requires Inv(c) && i < |c.phases| && c.phases[i].Saving? && x < |c.log| && c.log[x].key == KeyOf(c, i)
    ensures c.log[x].task < i || (c.log[x].task == i && i in c.retried)
  {
    hide SessionOf, Apply;
    assert SaveInv(c.locks.slots, c.ops, c.retried, c.log, x) && PhasesInv(c, i);
    if c.log[x].task > i {
      Locks.CallOrder(c.locks, i, c.log[x].task);
    }
  }

  lemma StoreLog(c: Client, i: nat)
    requires Inv(c) && i < |c.phases| && c.phases[i].Saving?
    ensures LogInv(c.locks.slots, c.ops, c.retried, Store(c, i).log)
  {
    var log, own := Store(c, i).log, KeyOf(c, i);
    assert PhasesInv(c, i) && Stored(c, own) == SessionOf(c.log, own);
    assert log[..|c.log|] == c.log;
    assert SaveInv(c.locks.slots, c.ops, c.retried, log, |c.log|);
    hide SaveInv, PhaseInv, SessionOf;
    forall x: nat | x < |log|
      ensures SaveInv(c.locks.slots, c.ops, c.retried, log, x)
    {
      if x < |c.log| {
        SaveFrame(c.locks.slots, c.ops, c.retried, c.log, log[|c.log|], x);
      }
    }
    forall x: nat | x < |c.log| && c.log[x].key == own
      ensures c.log[x].task < i || (c.log[x].task == i && i in c.retried)
    {
      LatestSaves(c, i, x);
    }
  }

  // A settled or waiting call is not affected by a save of another, nor is one on another conversation.
  lemma PhaseFrame(p: Phase, op: Op, retried: bool, session: Session, next: Session, log: seq<Saved>, e: Saved, key: string, i: nat)
    requires PhaseInv(p, op, retried, session, log, key, i) && e.task != i
    requires next == session || StatusOf(p) != Locks.Running
    ensures PhaseInv(p, op, retried, next, log + [e], key, i)
  {
    hide Apply, OutputOf, SessionOf;
    if p.Returned? {
      OutputAppend(log, e, p.at);
    } else if p.ReturnedNull? {
      assert (log + [e])[..p.at] == log[..p.at];
    }
  }

  lemma StoreKeepsOthers(c: Client, i: nat, j: nat)
    requires Inv(c) && i < |c.phases| && j < |c.phases| && i != j && c.phases[i].Saving?
    ensures Shape(Store(c, i)) && PhasesInv(Store(c, i), j)
  {
    hide SessionOf, OutputOf, Apply, PhaseInv;
    var key, p := KeyOf(c, j), c.phases[j];
    StoreShape(c, i);
    StoreSessions(c, i, key);
    assert PhasesInv(c, j);
    if key == KeyOf(c, i) {
      OthersAreIdle(c, i, j);
    } else if p.Loading? {
      assert Stored(Store(c, i), key) == Stored(c, key);
    }
    PhaseFrame(p, c.ops[j], j in c.retried, Stored(c, key), Stored(Store(c, i), key), c.log,
               Saved(KeyOf(c, i), i, c.phases[i].a), key, j);
  }

  lemma StoredLocks(c: Client, i: nat, q: Phase)
    requires Inv(c) && i < |c.phases| && c.phases[i].Saving? && !q.Queued? && Shape(Store(c, i))
    ensures var e := Goto(Store(c, i), i, q);
            Shape(e) && Locks.Inv(e.locks) && LogInv(e.locks.slots, e.ops, e.retried, e.log)
  {
    hide PhaseInv, SessionOf;
    var e := Goto(Store(c, i), i, q);
    Locks.StatusInvIfChanged(c.locks, i, StatusOf(q));
    StoreLog(c, i);
    LogFrame(c.locks.slots, e.locks.slots, c.ops, e.ops, c.retried, e.log);
  }

  // A save that reaches the store, and what becomes of its call.
  lemma StoredInv(c: Client, i: nat, q: Phase)
    requires Inv(c) && i < |c.phases| && c.phases[i].Saving? && !q.Queued? && Shape(Store(c, i))
    requires PhaseInv(q, c.ops[i], i in c.retried, Stored(Store(c, i), KeyOf(c, i)), Store(c, i).log, KeyOf(c, i), i)
    ensures Inv(Goto(Store(c, i), i, q))
  {
    hide PhaseInv, SessionOf, Locks.Inv, LogInv;
    var d := Store(c, i);
    var e := Goto(d, i, q);
    StoredLocks(c, i, q);
    forall k
      ensures Stored(e, k) == SessionOf(e.log, k)
    {
      StoreSessions(c, i, k);
      assert Stored(e, k) == Stored(d, k);
    }
    forall j: nat | j < |e.phases|
      ensures PhasesInv(e, j)
    {
      StoredPhase(c, i, q, j);
    }
  }

  lemma StoredPhase(c: Client, i: nat, q: Phase, j: nat)
    requires Inv(c) && i < |c.phases| && c.phases[i].Saving? && !q.Queued? && j < |c.phases| && Shape(Store(c, i))
    requires PhaseInv(q, c.ops[i], i in c.retried, Stored(Store(c, i), KeyOf(c, i)), Store(c, i).log, KeyOf(c, i), i)
    requires Shape(Goto(Store(c, i), i, q))
    ensures PhasesInv(Goto(Store(c, i), i, q), j)
  {
    hide PhaseInv, SessionOf;
    StoreShape(c, i);
    assert KeyOf(Goto(Store(c, i), i, q), j) == KeyOf(c, j);
    if j != i {
      StoreKeepsOthers(c, i, j);
    }
  }

  // Noting that a save failed changes nothing else.
  lemma NotedInv(c: Client, i: nat, ok: bool)
    requires Inv(c) && i < |c.phases| && c.phases[i].Saving?
    ensures Inv(Noted(c, i, ok))
  {
    hide SessionOf, OutputOf, Apply;
    var d := Noted(c, i, ok);
    forall x: nat | x < |d.log|
      ensures SaveInv(d.locks.slots, d.ops, d.retried, d.log, x)
    {
      assert SaveInv(c.locks.slots, c.ops, c.retried, c.log, x);
    }
    forall j: nat | j < |d.phases|
      ensures PhasesInv(d, j)
    {
      assert PhasesInv(c, j);
    }
    forall k
      ensures Stored(d, k) == SessionOf(d.log, k)
    {
      assert Stored(d, k) == Stored(c, k);
    }
  }

  lemma SavingInv(c: Client, i: nat, ok: bool, stored: bool)
    requires Inv(c) && Enabled(c, Save(i, ok, stored))
    ensures Inv(Step(c, Save(i, ok, stored)))
  {
    hide Apply;
    var d, key, q := Noted(c, i, ok), KeyOf(c, i), AfterSave(c.phases[i], ok, |c.log|);
    NotedInv(c, i, ok);
    assert PhasesInv(c, i) && PhasesInv(d, i);
    hide SessionOf, OutputOf;
    if stored {
      StoreSessions(d, i, key);
      StoredInv(d, i, q);
    } else {
      GotoInv(d, i, q);
    }
  }

  lemma LoadInv(c: Client, i: nat, ok: bool)
    requires Inv(c) && Enabled(c, Load(i, ok))
    ensures Inv(Step(c, Load(i, ok)))
  {
    hide OutputOf, Apply;
    assert PhasesInv(c, i) && Stored(c, KeyOf(c, i)) == SessionOf(c.log, KeyOf(c, i));
    assert c.log[..|c.log|] == c.log;
    hide SessionOf;
    GotoInv(c, i, if ok then AfterLoad(c.ops[i], Stored(c, KeyOf(c, i)), |c.log|) else Rejected);
  }

  // What is left of a call's attempts after its first.
  lemma RestOfAttempts(op: Op, loaded: Session)
    requires Attempts(op, loaded) != []
    ensures var a, rest := Attempts(op, loaded)[0], Attempts(op, loaded)[1..];
            && AttemptOf(op, a) && (rest == [] || (a.Dec? && IsInit(op, rest)))
            && (a.InitDec? ==> loaded.None? && IsInit(op, [a]))
  {
  }

  lemma TryPhase(p: Phase, op: Op, retried: bool, session: Session, log: seq<Saved>, key: string, i: nat)
    requires p.Trying? && PhaseInv(p, op, retried, session, log, key, i)
    ensures PhaseInv(AfterTry(p), op, retried, session, log, key, i)
  {
    hide SessionOf, OutputOf;
    if IsInit(op, p.rest) {
      assert p.rest[1..] == [];
    } else {
      RestOfAttempts(op, p.loaded);
    }
  }

  lemma TryInv(c: Client, i: nat)
    requires Inv(c) && Enabled(c, Try(i))
    ensures Inv(Step(c, Try(i)))
  {
    hide SessionOf, OutputOf, Apply, PhaseInv;
    assert PhasesInv(c, i);
    TryPhase(c.phases[i], c.ops[i], i in c.retried, Stored(c, KeyOf(c, i)), c.log, KeyOf(c, i), i);
    GotoInv(c, i, AfterTry(c.phases[i]));
  }

  lemma StartInv(c: Client, i: nat)
    requires Inv(c) && Enabled(c, Start(i))
    ensures Inv(Step(c, Start(i)))
  {
    hide SessionOf, OutputOf, Apply;
    assert PhasesInv(c, i);
    GotoInv(c, i, Loading);
  }

  lemma StepInv(c: Client, e: Event)
    requires Inv(c) && Enabled(c, e)
    ensures Inv(Step(c, e))
  {
    match e
    case Call(key, op) => CallInv(c, key, op);
    case Start(i) => StartInv(c, i);
    case Load(i, ok) => LoadInv(c, i, ok);
    case Try(i) => TryInv(c, i);
    case Save(i, ok, stored) => SavingInv(c, i, ok, stored);
  }

  lemma {:induction false} RunInv(trace: seq<Client>, events: seq<Event>, n: nat)
    requires Run(trace, events) && n < |trace|
    ensures Inv(trace[n])
  {
    if n > 0 {
      RunInv(trace, events, n - 1);
      StepInv(trace[n - 1], events[n - 1]);
    }
  }

  // ---------------------------------------------------------------------------------------------
  // The store as the calls one after the other.

  // The INIT attempt of a call whose first attempt had succeeded but could not be saved.
  predicate Retry(c: Client, x: nat)
    requires x < |c.log|
  {
    c.log[x].a.InitDec? && c.log[x].task in c.retried
  }

  lemma EntryIsAlone(op: Op, a: Attempt, before: Session)
    requires AttemptOf(op, a) && Apply(a, before).Some? && (a.InitDec? ==> StoredFails(op, before))
    ensures Alone(op, before) == (Returns(Apply(a, before).value.0), Some(Apply(a, before).value.1))
  {
    match op
    case Encrypt(_, _, _, _, _) => FirstOfOne(a, before);
    case Decrypt(init, w, spk, gen, gen2) => FirstOfDecrypt(init, w, spk, gen, gen2, before);
  }

  // A save is a call on its own: of the operation of the call that made it, on the session stored
  // before it, unless it is a retry; then it is that call's INIT attempt.
  ghost predicate SavedAt(c: Client, x: nat)
    requires x < |c.log|
  {
    var e := c.log[x];
    var before, after := SessionOf(c.log[..x], e.key), SessionOf(c.log[..x + 1], e.key);
    && e.task < |c.ops| && AttemptOf(c.ops[e.task], e.a) && OutputOf(c.log, x).Some?
    && (!Retry(c, x) ==> Alone(c.ops[e.task], before) == (Returns(OutputOf(c.log, x).value), after))
    && (Retry(c, x) ==> Apply(e.a, None).Some? && after == Some(Apply(e.a, None).value.1))
  }

  lemma SaveIsCall(c: Client, x: nat)
    requires Inv(c) && x < |c.log|
    ensures SavedAt(c, x)
  {
    var e := c.log[x];
    var before := SessionOf(c.log[..x], e.key);
    assert SaveInv(c.locks.slots, c.ops, c.retried, c.log, x);
    assert c.log[..x + 1] == c.log[..x] + [e];
    SessionAppend(c.log[..x], e, e.key);
    if !Retry(c, x) {
      EntryIsAlone(c.ops[e.task], e.a, before);
    }
  }

  // Serialization.  In every state of every run the store holds, for each conversation, the result of
  // the saves that reached it.  These were made in call order, at most one for each call unless it
  // retried, and each is the operation of its call applied on its own to the session stored before
  // (or, for a retry, its INIT attempt).  What a call returned is what its operation gives there.
  lemma StoreIsSequential(trace: seq<Client>, events: seq<Event>, n: nat)
    requires Run(trace, events) && n < |trace|
    ensures var c := trace[n];
            && Shape(c) && InOrder(c.log, c.retried)
            && (forall key :: Stored(c, key) == SessionOf(c.log, key))
            && (forall x: nat | x < |c.log| :: SavedAt(c, x))
            && (forall i: nat | i < |c.phases| :: SettledAt(c, i))
  {
    RunInv(trace, events, n);
    var c := trace[n];
    hide SavedAt, SettledAt, SessionOf;
    forall x: nat | x < |c.log|
      ensures SavedAt(c, x)
    {
      SaveIsCall(c, x);
    }
    forall i: nat | i < |c.phases|
      ensures SettledAt(c, i)
    {
      SettledCall(c, i);
    }
  }

  // A call retries only after its attempt with the stored session succeeded and the save of it failed.
  lemma {:induction false} RetriedAfterFailedSave(trace: seq<Client>, events: seq<Event>, n: nat, i: nat) returns (k: nat)
    requires Run(trace, events) && n < |trace| && i in trace[n].retried
    ensures k < n && events[k].Save? && events[k].i == i && !events[k].ok
    ensures i < |trace[k].phases| && trace[k].phases[i].Saving? && trace[k].phases[i].a.Dec?
    decreases n
  {
    hide SessionOf, Apply;
    var c := trace[n - 1];
    if i in c.retried {
      k := RetriedAfterFailedSave(trace, events, n - 1, i);
    } else {
      k := n - 1;
      RunInv(trace, events, k);
      assert trace[n] == Step(c, events[k]) && PhasesInv(c, i);
      assert events[k] == Save(i, false, events[k].stored) && c.phases[i].rest != [];
    }
  }

  // A call that returned did so as its operation, alone, does at its place in the log.
  ghost predicate SettledAt(c: Client, i: nat)
    requires Shape(c) && i < |c.phases|
  {
    match c.phases[i]
    case Returned(out, at) =>
      && at < |c.log| && c.log[at].key == KeyOf(c, i) && c.log[at].task == i && OutputOf(c.log, at) == Some(out)
      && (i !in c.retried ==>
            Alone(c.ops[i], SessionOf(c.log[..at], KeyOf(c, i))) == (Returns(out), SessionOf(c.log[..at + 1], KeyOf(c, i))))
    case ReturnedNull(at) =>
      at <= |c.log| && Alone(c.ops[i], SessionOf(c.log[..at], KeyOf(c, i))).0 == ReturnsNull
    case _ => true
  }

  lemma SettledCall(c: Client, i: nat)
    requires Inv(c) && i < |c.phases|
    ensures SettledAt(c, i)
  {
    hide SessionOf, OutputOf;
    assert PhasesInv(c, i);
    if c.phases[i].Returned? {
      SaveIsCall(c, c.phases[i].at);
    }
  }

  // The session after some operations, each on its own.
  function AfterOps(ops: seq<Op>): Session {
    if ops == [] then None else Alone(ops[|ops| - 1], AfterOps(ops[..|ops| - 1])).1
  }

  // The operations whose save reached the store of a conversation.
  function SavedOps(ops: seq<Op>, log: seq<Saved>, key: string): seq<Op>
    requires forall x | 0 <= x < |log| :: log[x].task < |ops|
  {
    if log == [] then []
    else
      var before, x := SavedOps(ops, log[..|log| - 1], key), log[|log| - 1];
      if x.key == key then before + [ops[x.task]] else before
  }

  lemma {:induction false} SavedOpsGive(c: Client, n: nat, key: string)
    requires Inv(c) && n <= |c.log| && (forall x | 0 <= x < |c.log| :: c.log[x].task < |c.ops|)
    requires forall x: nat | x < n && c.log[x].key == key :: !Retry(c, x)
    ensures SessionOf(c.log[..n], key) == AfterOps(SavedOps(c.ops, c.log[..n], key))
    decreases n
  {
    if n > 0 {
      SavedOpsGive(c, n - 1, key);
      var e := c.log[n - 1];
      assert c.log[..n] == c.log[..n - 1] + [e] && c.log[..n][..n - 1] == c.log[..n - 1];
      SessionAppend(c.log[..n - 1], e, key);
      if e.key == key {
        SaveIsCall(c, n - 1);
        var before := SavedOps(c.ops, c.log[..n - 1], key);
        assert (before + [c.ops[e.task]])[..|before|] == before;
      }
    }
  }

  // So, on a conversation without retries, the stored session is the sequential application of the
  // calls whose save reached the store, each once and in call order.
  lemma StoreIsTheCalls(trace: seq<Client>, events: seq<Event>, n: nat, key: string)
    requires Run(trace, events) && n < |trace|
    ensures var c := trace[n];
            && Shape(c) && (forall x | 0 <= x < |c.log| :: c.log[x].task < |c.ops|)
            && ((forall x: nat | x < |c.log| && c.log[x].key == key :: c.log[x].task !in c.retried) ==>
                  && Stored(c, key) == AfterOps(SavedOps(c.ops, c.log, key))
                  && (forall x, y | 0 <= x < y < |c.log| && c.log[x].key == key == c.log[y].key :: c.log[x].task < c.log[y].task))
  {
    StoreIsSequential(trace, events, n);
    RunInv(trace, events, n);
    var c := trace[n];
    forall x | 0 <= x < |c.log|
      ensures c.log[x].task < |c.ops|
    {
      assert SavedAt(c, x);
    }
    if forall x: nat | x < |c.log| && c.log[x].key == key :: c.log[x].task !in c.retried {
      SavedOpsGive(c, |c.log|, key);
      assert c.log[..|c.log|] == c.log;
    }
  }

  predicate ReturnedCipher(c: Client, i: nat) {
    i < |c.phases| && c.phases[i].Returned? && c.phases[i].out.Cipher?
  }

  // Save before release.  With concurrent calls on any conversations, and failing loads and saves, no
  // two ciphertexts returned share a message key.
  lemma ReturnedKeysUnique(trace: seq<Client>, events: seq<Event>, n: nat, i: nat, j: nat)
    requires Run(trace, events) && n < |trace| && FreshKeys(trace[n].log)
    requires ReturnedCipher(trace[n], i) && ReturnedCipher(trace[n], j) && i != j
    ensures var a, b := trace[n].phases[i].out.wire.ct, trace[n].phases[j].out.wire.ct;
            a.Sealed? && b.Sealed? && a.key != b.key
  {
    var c := trace[n];
    StoreIsSequential(trace, events, n);
    assert SettledAt(c, i) && SettledAt(c, j);
    var x, y := c.phases[i].at, c.phases[j].at;
    assert c.log[x].task == i && c.log[y].task == j;
    if x < y {
      SequentialKeysUnique(c.log, x, y);
    } else {
      SequentialKeysUnique(c.log, y, x);
    }
  }

  // ---------------------------------------------------------------------------------------------
  // A call that is not interrupted comes to its end.

  lemma GotoShape(c: Client, i: nat, p: Phase)
    requires Shape(c) && i < |c.phases|
    ensures var d := Goto(c, i, p);
            && Shape(d) && d.phases == c.phases[i := p] && d.ops == c.ops && d.store == c.store && d.log == c.log
            && KeyOf(d, i) == KeyOf(c, i)
  {
  }

  // Its ratchet runs, to the save or the failure.
  ghost function Tries(c: Client, i: nat): Client
    requires Shape(c) && i < |c.phases|
    decreases if c.phases[i].Trying? then |c.phases[i].rest| else 0, if c.phases[i].Trying? then 1 else 0
  {
    if c.phases[i].Trying? then
      GotoShape(c, i, AfterTry(c.phases[i]));
      Tries(Step(c, Try(i)), i)
    else c
  }

  lemma {:induction false} TriesAre(c: Client, i: nat)
    requires Shape(c) && i < |c.phases|
    ensures var d := Tries(c, i);
            && Shape(d) && i < |d.phases| && d.phases[i] == Tried(c.phases[i])
            && d.ops == c.ops && d.store == c.store && d.log == c.log && KeyOf(d, i) == KeyOf(c, i)
    decreases if c.phases[i].Trying? then |c.phases[i].rest| else 0, if c.phases[i].Trying? then 1 else 0
  {
    if c.phases[i].Trying? {
      GotoShape(c, i, AfterTry(c.phases[i]));
      TriesAre(Step(c, Try(i)), i);
    }
  }

  // A call whose turn it is, on its own from there on and with its load and save succeeding, does what its
  // operation says on the session stored when it started: it returns the result after storing the new
  // session, or returns null, or rejects, and then leaves the store as it was.
  lemma CallCompletes(c: Client, i: nat)
    requires Shape(c) && i < |c.phases| && Locks.CanStart(c.locks, i)
    ensures Enabled(c, Start(i)) && Enabled(Step(c, Start(i)), Load(i, true))
    ensures var d := Step(Step(c, Start(i)), Load(i, true));
            && Shape(d) && i < |d.phases|
            && var t := Tries(d, i);
               var (r, next) := Alone(c.ops[i], Stored(c, KeyOf(c, i)));
               && Shape(t) && i < |t.phases|
               && match r
                  case ReturnsNull => t.phases[i] == ReturnedNull(|c.log|) && t.store == c.store
                  case Throws => t.phases[i] == Rejected && t.store == c.store
                  case Returns(out) =>
                    && Enabled(t, Save(i, true, true))
                    && var u := Step(t, Save(i, true, true));
                       && Shape(u) && i < |u.phases| && u.phases[i] == Returned(out, |c.log|)
                       && Stored(u, KeyOf(c, i)) == next && u.store - {KeyOf(c, i)} == c.store - {KeyOf(c, i)}
  {
    var key := KeyOf(c, i);
    GotoShape(c, i, Loading);
    var c1 := Step(c, Start(i));
    var p := AfterLoad(c.ops[i], Stored(c, key), |c.log|);
    GotoShape(c1, i, p);
    var d := Step(c1, Load(i, true));
    TriesAre(d, i);
    var t := Tries(d, i);
    AloneIsTried(c.ops[i], Stored(c, key), |c.log|);
    hide Alone, Tried, AfterLoad, Tries;
    if t.phases[i].Saving? {
      SaveStores(t, i);
    }
  }

  lemma SaveStores(t: Client, i: nat)
    requires Shape(t) && i < |t.phases| && t.phases[i].Saving? && t.phases[i].next.Valid()
    ensures Enabled(t, Save(i, true, true))
    ensures var u := Step(t, Save(i, true, true));
            && Shape(u) && i < |u.phases| && u.phases[i] == Returned(t.phases[i].out, |t.log|)
            && Stored(u, KeyOf(t, i)) == Some(t.phases[i].next) && u.store - {KeyOf(t, i)} == t.store - {KeyOf(t, i)}
  {
    var s := Store(Noted(t, i, true), i);
    GotoShape(s, i, Returned(t.phases[i].out, |t.log|));
  }

  // A decryption whose save with the stored session fails goes on to its INIT part, if it has one, whether
  // or not that save reached the store; from there it comes to its end the same way.
  lemma FailedSaveRetries(c: Client, i: nat, stored: bool)
    requires Shape(c) && i < |c.phases| && Locks.CanStart(c.locks, i) && c.ops[i].Decrypt? && c.ops[i].init.Some?
    requires Apply(Dec(c.ops[i].wire, c.ops[i].gen), Stored(c, KeyOf(c, i))).Some?
    ensures Enabled(c, Start(i)) && Enabled(Step(c, Start(i)), Load(i, true))
    ensures var d := Step(Step(c, Start(i)), Load(i, true));
            && Shape(d) && i < |d.phases|
            && var t := Tries(d, i);
               && Enabled(t, Save(i, false, stored))
               && var u := Step(t, Save(i, false, stored));
                  && Shape(u) && i < |u.phases|
                  && var v := Tries(u, i);
                     && Shape(v) && i < |v.phases|
                     && match Apply(InitDec(c.ops[i].init.value, c.ops[i].spk, c.ops[i].wire, c.ops[i].gen2), None)
                        case None => v.phases[i] == Rejected
                        case Some((out, next)) =>
                          && Enabled(v, Save(i, true, true))
                          && var e := Step(v, Save(i, true, true));
                             Shape(e) && i < |e.phases| && e.phases[i] == Returned(out, |v.log|)
                             && Stored(e, KeyOf(c, i)) == Some(next)
  {
    var op, key := c.ops[i], KeyOf(c, i);
    var init := InitDec(op.init.value, op.spk, op.wire, op.gen2);
    GotoShape(c, i, Loading);
    var c1 := Step(c, Start(i));
    var p := AfterLoad(op, Stored(c, key), |c.log|);
    GotoShape(c1, i, p);
    var d := Step(c1, Load(i, true));
    TriesAre(d, i);
    var t := Tries(d, i);
    SavingFirst(op, Stored(c, key), |c.log|);
    hide Apply, Tries, AfterLoad;
    var s := if stored then Store(Noted(t, i, false), i) else Noted(t, i, false);
    GotoShape(s, i, Trying(None, [init]));
    var u := Step(t, Save(i, false, stored));
    assert u.phases[i] == Trying(None, [init]);
    TriesAre(u, i);
    TriedLast(init);
    var v := Tries(u, i);
    if v.phases[i].Saving? {
      SaveStores(v, i);
    }
  }

  lemma SavingFirst(op: Op, session: Session, at: nat)
    requires op.Decrypt? && op.init.Some? && Apply(Dec(op.wire, op.gen), session).Some?
    ensures var (out, t) := Apply(Dec(op.wire, op.gen), session).value;
            Tried(AfterLoad(op, session, at))
            == Saving(Dec(op.wire, op.gen), t, out, [InitDec(op.init.value, op.spk, op.wire, op.gen2)])
  {
    var first, second := Dec(op.wire, op.gen), InitDec(op.init.value, op.spk, op.wire, op.gen2);
    assert Attempts(op, session) == [first, second] && [first, second][1..] == [second];
    var p := Trying(session, [first, second]);
    assert Tried(p) == Tried(AfterTry(p));
  }

  lemma TriedLast(a: Attempt)
    ensures Tried(Trying(None, [a]))
         == match Apply(a, None) case None => Rejected case Some((out, t)) => Saving(a, t, out, [])
  {
    hide Apply;
    var p := Trying(None, [a]);
    assert [a][1..] == [];
    assert Tried(p) == Tried(AfterTry(p));
  }
}
