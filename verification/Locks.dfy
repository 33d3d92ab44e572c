/**
  The promise-chain lock `withLock` (client/src/hooks/useE2E.ts).

  Each call creates a promise chained on the one the map holds for its key, and stores its own.  A
  call's function starts once the promise it is chained on has settled, whether it was fulfilled or
  rejected.  A slot is one call; slots are numbered in call order.
 */
module Locks {
  import opened Symbolic

  datatype Status = Waiting | Running | Settled(fulfilled: bool)

  datatype Slot = Slot(key: string, prev: Option<nat>, status: Status)

  datatype Table = Table(tails: map<string, nat>, slots: seq<Slot>)

  function Called(t: Table, key: string): Table {
    Table(t.tails[key := |t.slots|],
          t.slots + [Slot(key, if key in t.tails then Some(t.tails[key]) else None, Waiting)])
  }

  predicate CanStart(t: Table, i: nat) {
    && i < |t.slots| && t.slots[i].status == Waiting
    && match t.slots[i].prev
       case None => true
       case Some(q) => q < |t.slots| && t.slots[q].status.Settled?
  }

  function WithStatus(t: Table, i: nat, s: Status): Table
    requires i < |t.slots|
  {
    t.(slots := t.slots[i := t.slots[i].(status := s)])
  }

  class LockMap {
    var tails: map<string, nat>
    var slots: seq<Slot>

    function View(): Table
      reads this
    {
      Table(tails, slots)
    }

    constructor ()
      ensures View() == Table(map[], [])
    {
      tails, slots := map[], [];
    }

    method WithLock(key: string) returns (id: nat)
      modifies this
      ensures id == |old(slots)| && View() == Called(old(View()), key)
    {
      var prev := if key in tails then Some(tails[key]) else None;
      id := |slots|;
      slots := slots + [Slot(key, prev, Waiting)];
      tails := tails[key := id];
    }

    // The event loop runs the function of a call whose predecessor has settled.
    method Start(id: nat)
      requires CanStart(View(), id)
      modifies this
      ensures View() == WithStatus(old(View()), id, Running)
    {
      slots := slots[id := slots[id].(status := Running)];
    }

    method Settle(id: nat, fulfilled: bool)
      requires id < |slots| && slots[id].status == Running
      modifies this
      ensures View() == WithStatus(old(View()), id, Settled(fulfilled))
    {
      slots := slots[id := slots[id].(status := Settled(fulfilled))];
    }
  }

  datatype Event = Call(key: string) | Start(id: nat) | Settle(id: nat, fulfilled: bool)

  predicate Enabled(t: Table, e: Event) {
    match e
    case Call(_) => true
    case Start(i) => CanStart(t, i)
    case Settle(i, _) => i < |t.slots| && t.slots[i].status == Running
  }

  function Step(t: Table, e: Event): Table
    requires Enabled(t, e)
  {
    match e
    case Call(key) => Called(t, key)
    case Start(i) => WithStatus(t, i, Running)
    case Settle(i, f) => WithStatus(t, i, Settled(f))
  }

  ghost predicate Run(trace: seq<Table>, events: seq<Event>) {
    && |trace| == |events| + 1
    && trace[0] == Table(map[], [])
    && (forall i | 0 <= i < |events| :: Enabled(trace[i], events[i]) && trace[i + 1] == Step(trace[i], events[i]))
  }

  // ---------------------------------------------------------------------------------------------

  // The predecessor of a slot is the last earlier slot with its key.
  ghost predicate PrevInv(slots: seq<Slot>, i: nat)
    requires i < |slots|
  {
    match slots[i].prev
    case None => forall j | 0 <= j < i :: slots[j].key != slots[i].key
    case Some(q) =>
      && q < i && slots[q].key == slots[i].key
      && (forall j | q < j < i :: slots[j].key != slots[i].key)
      && (slots[i].status == Waiting || slots[q].status.Settled?)
  }

  ghost predicate TailInv(t: Table, key: string)
    requires key in t.tails
  {
    var q := t.tails[key];
    && q < |t.slots| && t.slots[q].key == key
    && (forall j | q < j < |t.slots| :: t.slots[j].key != key)
  }

  ghost predicate Inv(t: Table) {
    && (forall i: nat | i < |t.slots| :: PrevInv(t.slots, i))
    && (forall key | key in t.tails :: TailInv(t, key))
    && (forall i | 0 <= i < |t.slots| :: t.slots[i].key in t.tails)
  }

  lemma CallInv(t: Table, key: string)
    requires Inv(t)
    ensures Inv(Called(t, key))
  {
    var u := Called(t, key);
    forall i: nat | i < |u.slots|
      ensures PrevInv(u.slots, i)
    {
      if i < |t.slots| {
        assert PrevInv(t.slots, i);
      } else if key in t.tails {
        assert TailInv(t, key);
      }
    }
    forall k | k in u.tails
      ensures TailInv(u, k)
    {
      if k != key {
        assert TailInv(t, k);
      }
    }
  }

  lemma StatusInv(t: Table, i: nat, s: Status)
    requires Inv(t) && i < |t.slots|
    requires (s == Running && CanStart(t, i)) || (s.Settled? && t.slots[i].status == Running)
    ensures Inv(WithStatus(t, i, s))
  {
    var u := WithStatus(t, i, s);
    forall j: nat | j < |u.slots|
      ensures PrevInv(u.slots, j)
    {
      assert PrevInv(t.slots, j);
      assert PrevInv(t.slots, i);
    }
    forall k | k in u.tails
      ensures TailInv(u, k)
    {
      assert TailInv(t, k);
    }
  }

  lemma StatusInvIfChanged(t: Table, i: nat, s: Status)
    requires Inv(t) && i < |t.slots|
    requires t.slots[i].status == Running && s != Waiting
    ensures Inv(WithStatus(t, i, s))
  {
    if s == Running {
      assert WithStatus(t, i, s) == t;
    } else {
      StatusInv(t, i, s);
    }
  }

  lemma StepInv(t: Table, e: Event)
    requires Inv(t) && Enabled(t, e)
    ensures Inv(Step(t, e))
  {
    match e
    case Call(key) => CallInv(t, key);
    case Start(i) => StatusInv(t, i, Running);
    case Settle(i, f) => StatusInv(t, i, Settled(f));
  }

  lemma {:induction false} RunInv(trace: seq<Table>, events: seq<Event>, i: nat)
    requires Run(trace, events) && i < |trace|
    ensures Inv(trace[i])
  {
    if i > 0 {
      RunInv(trace, events, i - 1);
      StepInv(trace[i - 1], events[i - 1]);
    }
  }

  // First in, first out: a call starts only after every earlier call on its key has settled.
  lemma {:induction false} CallOrder(t: Table, i: nat, j: nat)
    requires Inv(t) && i < j < |t.slots| && t.slots[i].key == t.slots[j].key
    requires t.slots[j].status != Waiting
    ensures t.slots[i].status.Settled?
    decreases j
  {
    assert PrevInv(t.slots, j);
    var q := t.slots[j].prev.value;
    if q > i {
      CallOrder(t, i, q);
    }
  }

  // ---------------------------------------------------------------------------------------------
  // The abstract lock: one queue of unfinished calls per key.

  function Pending(slots: seq<Slot>, key: string): seq<nat> {
    if slots == [] then []
    else
      var last := |slots| - 1;
      Pending(slots[..last], key) + if slots[last].key == key && !slots[last].status.Settled? then [last] else []
  }

  lemma {:induction false} PendingIndex(slots: seq<Slot>, key: string, i: nat)
    ensures i in Pending(slots, key) <==> i < |slots| && slots[i].key == key && !slots[i].status.Settled?
  {
    if slots != [] {
      PendingIndex(slots[..|slots| - 1], key, i);
    }
  }

  lemma {:induction false} PendingSorted(slots: seq<Slot>, key: string)
    ensures forall a, b | 0 <= a < b < |Pending(slots, key)| :: Pending(slots, key)[a] < Pending(slots, key)[b]
  {
    if slots != [] {
      var init := slots[..|slots| - 1];
      var q := Pending(init, key);
      PendingSorted(init, key);
      forall a | 0 <= a < |q|
        ensures q[a] < |slots| - 1
      {
        PendingIndex(init, key, q[a]);
      }
    }
  }

  lemma {:induction false} PendingUpdate(slots: seq<Slot>, key: string, i: nat, s: Status)
    requires i < |slots| && !slots[i].status.Settled?
    ensures var u := slots[i := slots[i].(status := s)];
            Pending(u, key) == if slots[i].key == key && s.Settled? then Without(Pending(slots, key), i)
                               else Pending(slots, key)
  {
    var u := slots[i := slots[i].(status := s)];
    var last := |slots| - 1;
    if i == last {
      assert u[..last] == slots[..last];
      if i in Pending(slots[..last], key) {
        PendingIndex(slots[..last], key, i);
      }
      WithoutAbsent(Pending(slots[..last], key), i);
      WithoutAppend(Pending(slots[..last], key), i, i);
    } else {
      assert u[..last] == slots[..last][i := slots[i].(status := s)];
      PendingUpdate(slots[..last], key, i, s);
      var q := Pending(slots[..last], key);
      if slots[last].key == key && !slots[last].status.Settled? {
        assert Pending(slots, key) == q + [last];
        WithoutAppend(q, last, i);
      } else {
        assert Pending(slots, key) == q;
      }
    }
  }

  function Without(q: seq<nat>, i: nat): seq<nat> {
    if q == [] then []
    else Without(q[..|q| - 1], i) + if q[|q| - 1] == i then [] else [q[|q| - 1]]
  }

  lemma {:induction false} WithoutAbsent(q: seq<nat>, i: nat)
    requires i !in q
    ensures Without(q, i) == q
  {
    if q != [] {
      WithoutAbsent(q[..|q| - 1], i);
    }
  }

  lemma WithoutAppend(q: seq<nat>, x: nat, i: nat)
    ensures Without(q + [x], i) == Without(q, i) + if x == i then [] else [x]
  {
    assert (q + [x])[..|q|] == q;
  }

  lemma {:induction false} WithoutHead(q: seq<nat>, i: nat)
    requires q != [] && q[0] == i && forall a, b | 0 <= a < b < |q| :: q[a] < q[b]
    ensures Without(q, i) == q[1..]
    decreases |q|
  {
    var last := |q| - 1;
    if last > 0 {
      assert q[..last][0] == i;
      WithoutHead(q[..last], i);
      assert q[1..] == q[..last][1..] + [q[last]];
    } else {
      assert q[..last] == [];
    }
  }

  // The lock refines the queues: a call is appended to the queue of its key, only the head of a
  // queue may run, settling it removes it, and no other queue changes.
  lemma RefinesQueues(trace: seq<Table>, events: seq<Event>, n: nat, key: string)
    requires Run(trace, events) && n < |events|
    ensures var q := Pending(trace[n].slots, key);
            var r := Pending(trace[n + 1].slots, key);
            match events[n]
            case Call(k) => r == if k == key then q + [|trace[n].slots|] else q
            case Start(i) => r == q && (trace[n].slots[i].key == key ==> q != [] && q[0] == i)
            case Settle(i, _) => if trace[n].slots[i].key == key then q != [] && q[0] == i && r == q[1..] else r == q
  {
    RunInv(trace, events, n);
    var t, u := trace[n], trace[n + 1];
    match events[n]
    case Call(k) =>
      assert u.slots[..|t.slots|] == t.slots;
    case Start(i) =>
      PendingUpdate(t.slots, key, i, Running);
      if t.slots[i].key == key {
        RunningIsHead(t, i);
      }
    case Settle(i, f) =>
      PendingUpdate(t.slots, key, i, Settled(f));
      if t.slots[i].key == key {
        RunningIsHead(t, i);
        PendingSorted(t.slots, key);
        WithoutHead(Pending(t.slots, key), i);
      }
  }

  // A call that runs, or may start, is at the head of its queue.
  lemma RunningIsHead(t: Table, i: nat)
    requires Inv(t) && i < |t.slots|
    requires t.slots[i].status == Running || CanStart(t, i)
    ensures Pending(t.slots, t.slots[i].key) != [] && Pending(t.slots, t.slots[i].key)[0] == i
  {
    var q := Pending(t.slots, t.slots[i].key);
    PendingIndex(t.slots, t.slots[i].key, i);
    PendingSorted(t.slots, t.slots[i].key);
    var h := q[0];
    PendingIndex(t.slots, t.slots[i].key, h);
    if h < i {
      assert PrevInv(t.slots, i);
      var p := t.slots[i].prev.value;
      if h < p {
        CallOrder(t, h, p);
      }
      assert false;
    }
  }

  // At most one call on a key runs at a time, in every state of every run.
  lemma NoOverlap(trace: seq<Table>, events: seq<Event>, n: nat, i: nat, j: nat)
    requires Run(trace, events) && n < |trace| && i < |trace[n].slots| && j < |trace[n].slots|
    requires trace[n].slots[i].key == trace[n].slots[j].key
    requires trace[n].slots[i].status == Running && trace[n].slots[j].status == Running
    ensures i == j
  {
    RunInv(trace, events, n);
    if i < j {
      CallOrder(trace[n], i, j);
    } else if j < i {
      CallOrder(trace[n], j, i);
    }
  }

  // The lock never blocks: the head of a non-empty queue is running or can start.
  lemma HeadProgresses(trace: seq<Table>, events: seq<Event>, n: nat, key: string)
    requires Run(trace, events) && n < |trace| && Pending(trace[n].slots, key) != []
    ensures var i := Pending(trace[n].slots, key)[0];
            i < |trace[n].slots| && (trace[n].slots[i].status == Running || CanStart(trace[n], i))
  {
    RunInv(trace, events, n);
    var t := trace[n];
    var i := Pending(t.slots, key)[0];
    PendingIndex(t.slots, key, i);
    PendingSorted(t.slots, key);
    assert PrevInv(t.slots, i);
    if t.slots[i].prev.Some? {
      PendingIndex(t.slots, key, t.slots[i].prev.value);
    }
  }
}
