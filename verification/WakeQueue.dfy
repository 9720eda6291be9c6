/** A list guarded by a mutex and drained by an event loop that is woken with a
    coalescing signal: the part CallQueue and NativeCallQueue have in common
    (node-launcher.cpp, node-launcher-module.hpp). Producers and the loop
    thread take atomic steps in any order. */
module WakeQueue {

  /** The mutex: free, or held by a producer that has appended its call and
      then, in a second step, signalled the loop. */
  datatype Lock = Free | Appended | Signalled

  /** The loop thread: elsewhere, in the wake-up callback before it has taken
      the list, or working through what it took. */
  datatype Loop = Idle | Woken | Draining

  /** The shared state, and in `accepted` and `handled` its history: everything
      ever appended and everything ever handled, in order. */
  datatype Queue<T> = Queue(
    initialized: bool,
    lock: Lock,
    calls: seq<T>,
    wakePending: bool,
    loop: Loop,
    batch: seq<T>,
    accepted: seq<T>,
    handled: seq<T>)

  function Empty<T>(): Queue<T> {
    Queue(false, Free, [], false, Idle, [], [], [])
  }

  datatype Act<T> =
    | Initialize
    | Append(call: T)      // lock, wait until initialized, emplace_back
    | Amend(call: T)       // change the call just appended
    | Send                 // uv_async_send
    | Unlock
    | WakeUp               // the loop consumes the signal
    | TakeAll              // lock, move the list out, unlock
    | Handle               // run the first call of the batch
    | Leave                // leave the wake-up callback

  predicate Can<T>(q: Queue<T>, a: Act<T>) {
    match a
    case Initialize => q.lock == Free
    case Append(_) => q.lock == Free && q.initialized
    case Amend(_) => q.lock == Appended && q.calls != [] && q.accepted != []
    case Send => q.lock == Appended
    case Unlock => q.lock == Signalled
    case WakeUp => q.loop == Idle && q.wakePending
    case TakeAll => q.loop == Woken && q.lock == Free
    case Handle => q.loop == Draining && q.batch != []
    case Leave => q.loop == Draining && q.batch == []
  }

  function Do<T>(q: Queue<T>, a: Act<T>): Queue<T>
    requires Can(q, a)
  {
    match a
    case Initialize => q.(initialized := true)
    case Append(c) => q.(lock := Appended, calls := q.calls + [c], accepted := q.accepted + [c])
    case Amend(c) =>
      q.(calls := q.calls[|q.calls| - 1 := c], accepted := q.accepted[|q.accepted| - 1 := c])
    case Send => q.(lock := Signalled, wakePending := true)
    case Unlock => q.(lock := Free)
    case WakeUp => q.(wakePending := false, loop := Woken)
    case TakeAll => q.(batch := q.calls, calls := [], loop := Draining)
    case Handle => q.(batch := q.batch[1..], handled := q.handled + [q.batch[0]])
    case Leave => q.(loop := Idle)
  }

  // ---------- what every step keeps ----------

  /** Every accepted call is in exactly one place and the places are in order. */
  predicate InOrder<T(==)>(q: Queue<T>) {
    q.handled + (q.batch + q.calls) == q.accepted
  }

  /** A call in the list will be seen: its producer has yet to signal, or a
      signal is pending, or the loop is about to take the list. */
  predicate NoLostWake<T>(q: Queue<T>) {
    q.calls != [] ==> q.lock == Appended || q.wakePending || q.loop == Woken
  }

  predicate Valid<T(==)>(q: Queue<T>) {
    && InOrder(q)
    && NoLostWake(q)
    && (q.loop != Draining ==> q.batch == [])
    && (q.lock == Appended ==> q.calls != [])
    && (!q.initialized ==> q.lock == Free && !q.wakePending && q.loop == Idle && q.accepted == [])
  }

  lemma AppendInOrder<T>(x: seq<T>, y: seq<T>, z: seq<T>, c: T)
    ensures x + (y + (z + [c])) == (x + (y + z)) + [c]
  {
  }

  lemma AmendInOrder<T>(x: seq<T>, y: seq<T>, z: seq<T>, c: T)
    requires z != []
    ensures x + (y + z[|z| - 1 := c]) == (x + (y + z))[|x + (y + z)| - 1 := c]
  {
  }

  lemma HandleInOrder<T>(x: seq<T>, y: seq<T>, z: seq<T>)
    requires y != []
    ensures (x + [y[0]]) + (y[1..] + z) == x + (y + z)
  {
    assert y == [y[0]] + y[1..];
  }

  lemma DoKeepsValid<T>(q: Queue<T>, a: Act<T>)
    requires Valid(q) && Can(q, a)
    ensures Valid(Do(q, a))
  {
    match a
    case Append(c) => AppendInOrder(q.handled, q.batch, q.calls, c);
    case Amend(c) => AmendInOrder(q.handled, q.batch, q.calls, c);
    case TakeAll => assert q.batch + q.calls == q.calls && q.calls + [] == q.calls;
    case Handle => HandleInOrder(q.handled, q.batch, q.calls);
    case _ =>
  }

  // ---------- every schedule drains the queue ----------

  /** The steps that finish work already accepted; the others bring new work. */
  predicate Progress(a: Act) {
    a.Send? || a.Unlock? || a.WakeUp? || a.TakeAll? || a.Handle? || a.Leave?
  }

  function Work<T>(q: Queue<T>): nat {
    (match q.lock case Free => 0 case Appended => 10 case Signalled => 5)
    + (if q.wakePending then 4 else 0)
    + (match q.loop case Idle => 0 case Woken => 2 case Draining => 1)
    + |q.calls| + |q.batch|
  }

  lemma WorkDecreases<T>(q: Queue<T>, a: Act<T>)
    requires Valid(q) && Can(q, a) && Progress(a)
    ensures Work(Do(q, a)) < Work(q) && Do(q, a).accepted == q.accepted
  {
  }

  ghost predicate Stuck<T(!new)>(q: Queue<T>) {
    forall a: Act<T> | Progress(a) :: !Can(q, a)
  }

  lemma StuckMeansDone<T(!new)>(q: Queue<T>)
    requires Valid(q) && Stuck(q)
    ensures q.handled == q.accepted
  {
    var send: Act<T>, unlock: Act<T>, wakeUp: Act<T> := Send, Unlock, WakeUp;
    var takeAll: Act<T>, handle: Act<T>, leave: Act<T> := TakeAll, Handle, Leave;
    assert !Can(q, send) && !Can(q, unlock) && !Can(q, wakeUp);
    assert !Can(q, takeAll) && !Can(q, handle) && !Can(q, leave);
    assert q.batch + q.calls == [];
  }

  predicate IsRun<T>(q: Queue<T>, acts: seq<Act<T>>)
    decreases |acts|
  {
    acts == [] || (Can(q, acts[0]) && IsRun(Do(q, acts[0]), acts[1..]))
  }

  function End<T>(q: Queue<T>, acts: seq<Act<T>>): Queue<T>
    requires IsRun(q, acts)
    decreases |acts|
  {
    if acts == [] then q else End(Do(q, acts[0]), acts[1..])
  }

  /** However the producers' and the loop's steps are interleaved, they stop
      within Work(q) steps, and where they stop every call accepted so far has
      been handled, in the order of acceptance. */
  lemma {:induction false} EveryScheduleDrains<T(!new)>(q: Queue<T>, acts: seq<Act<T>>)
    requires Valid(q) && IsRun(q, acts) && forall a | a in acts :: Progress(a)
    ensures |acts| <= Work(q)
    ensures Valid(End(q, acts)) && End(q, acts).accepted == q.accepted
    ensures Stuck(End(q, acts)) ==> End(q, acts).handled == q.accepted
    decreases |acts|
  {
    if acts == [] {
      if Stuck(q) {
        StuckMeansDone(q);
      }
    } else {
      assert acts[0] in acts;
      WorkDecreases(q, acts[0]);
      DoKeepsValid(q, acts[0]);
      EveryScheduleDrains(Do(q, acts[0]), acts[1..]);
    }
  }
}
