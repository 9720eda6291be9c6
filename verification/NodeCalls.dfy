/** Calls from Java threads into JavaScript: CallQueue (node-launcher.cpp,
    node-launcher-module.hpp) and PackagedNodeCall (node-launcher-marshal.*),
    as a state machine over the steps of the calling threads, the event loop
    and the JavaScript promises. */
module NodeCalls {
  import opened Options
  import opened WakeQueue

  /** A JavaScript value: InitFromJS turns it into some content, or refuses. */
  datatype JsValue = Marshallable(content: string) | Unmarshallable

  /** What a synchronous caller gets: a value, a js_exception with a message, or
      std::invalid_argument. */
  datatype Result = Value(content: string) | JsException(message: string) | InvalidArgument

  function Marshal(v: JsValue): Result {
    match v
    case Marshallable(c) => Value(c)
    case Unmarshallable => InvalidArgument
  }

  /** What the receiver did with a call. */
  datatype Reply = Threw(message: string) | Returned(v: JsValue) | Promised

  /** How the promise it returned was settled. */
  datatype Settlement = Fulfilled(v: JsValue) | Rejected(message: string)

  function Outcome(st: Settlement): Result {
    match st
    case Fulfilled(v) => Marshal(v)
    case Rejected(m) => JsException(m)
  }

  /** PackagedNodeCall. The shared state of its std::promise goes by `id`. */
  datatype Call = Call(id: nat, fn: string, args: seq<string>, useReturn: bool)

  /** The shared state behind a future. Setting it a second time is an error. */
  datatype Slot = Unset | Set(result: Result) | SetTwice

  function Put(slot: Slot, r: Result): Slot {
    if slot.Unset? then Set(r) else SetTwice
  }

  datatype State = State(
    asyncReady: bool,              // uv_async_init done
    receiver: bool,                // the receiver function is known
    queue: Queue<Call>,
    slots: map<nat, Slot>,         // the futures handed out
    holders: map<nat, bool>,       // promise holders; true while the pointer is not null
    asked: seq<bool>,              // per accepted call: was it InvokeSync?
    replies: seq<Reply>,           // per handled call: what the receiver did
    settled: map<nat, Settlement>, // how the promises returned were settled, first time
    collected: map<nat, Result>)   // what the blocked callers got

  const START := State(false, false, Empty(), map[], map[], [], [], map[], map[])

  datatype Action =
    | Init
    | SetReceiver
    | Enter(fn: string, args: seq<string>, sync: bool)
    | GetFuture
    | Signal
    | Release
    | Wake
    | Take
    | Invoke(reply: Reply)
    | Finish
    | Callback(id: nat, how: Settlement)
    | Collect(id: nat)

  predicate Enabled(s: State, a: Action) {
    var q := s.queue;
    match a
    case Init => q.lock == Free
    case SetReceiver => Can(q, Initialize) && s.asyncReady
    case Enter(fn, args, _) => Can(q, Append(Call(|q.accepted|, fn, args, false)))
    case GetFuture =>
      q.lock == Appended && q.calls != [] && q.accepted != [] && s.asked != [] &&
      s.asked[|s.asked| - 1] && !q.calls[|q.calls| - 1].useReturn
    case Signal =>
      Can(q, Send) && q.calls != [] && s.asked != [] &&
      (s.asked[|s.asked| - 1] ==> q.calls[|q.calls| - 1].useReturn)
    case Release => Can(q, Unlock)
    case Wake => Can(q, WakeUp)
    case Take => Can(q, TakeAll)
    case Invoke(_) => Can(q, Handle)
    case Finish => Can(q, Leave)
    // then() and catch() are attached when there is a promise to complete,
    // catch() alone when there is none
    case Callback(id, how) =>
      id in s.holders && id < |q.accepted| && (q.accepted[id].useReturn || how.Rejected?)
    case Collect(id) => id in s.slots && s.slots[id].Set?
  }

  function Settle(s: State, id: nat, r: Result): State {
    if id in s.slots then s.(slots := s.slots[id := Put(s.slots[id], r)]) else s
  }

  /** PackagedNodeCall::Invoke, given what the receiver did. */
  function Invoked(s: State, c: Call, reply: Reply): State {
    match reply
    case Threw(m) => if c.useReturn then Settle(s, c.id, JsException(m)) else s
    case Returned(v) => if c.useReturn then Settle(s, c.id, Marshal(v)) else s
    case Promised => s.(holders := s.holders[c.id := c.useReturn])
  }

  /** then_promise and catch_promise: complete the promise unless the holder's
      pointer is null already. */
  function CalledBack(s: State, id: nat, how: Settlement): State
    requires id in s.holders
  {
    if s.holders[id] then Settle(s.(holders := s.holders[id := false]), id, Outcome(how)) else s
  }

  function Next(s: State, a: Action): State
    requires Enabled(s, a)
  {
    var q := s.queue;
    match a
    case Init => s.(asyncReady := true)
    case SetReceiver => s.(receiver := true, queue := Do(q, Initialize))
    case Enter(fn, args, sync) =>
      s.(queue := Do(q, Append(Call(|q.accepted|, fn, args, false))), asked := s.asked + [sync])
    case GetFuture =>
      var c := q.calls[|q.calls| - 1];
      s.(queue := Do(q, Amend(c.(useReturn := true))), slots := s.slots[c.id := Unset])
    case Signal => s.(queue := Do(q, Send))
    case Release => s.(queue := Do(q, Unlock))
    case Wake => s.(queue := Do(q, WakeUp))
    case Take => s.(queue := Do(q, TakeAll))
    case Invoke(reply) =>
      Invoked(s.(queue := Do(q, Handle), replies := s.replies + [reply]), q.batch[0], reply)
    case Finish => s.(queue := Do(q, Leave))
    case Callback(id, how) =>
      CalledBack(if id in s.settled then s else s.(settled := s.settled[id := how]), id, how)
    case Collect(id) => s.(collected := s.collected[id := s.slots[id].result])
  }

  /** An action that is not enabled has to wait. */
  function Step(s: State, a: Action): State {
    if Enabled(s, a) then Next(s, a) else s
  }

  function Steps(s: State, actions: seq<Action>): State
    decreases |actions|
  {
    if actions == [] then s else Steps(Step(s, actions[0]), actions[1..])
  }

  // ---------- the invariant ----------

  /** Everything the state holds about one call. */
  datatype View = View(
    call: Call,
    asked: bool,
    unflagged: bool,   // still between emplace_back and GetReturnValue
    reply: Option<Reply>,
    settlement: Option<Settlement>,
    slot: Option<Slot>,
    holder: Option<bool>,
    collected: Option<Result>)

  function ViewOf(s: State, i: nat): View
    requires i < |s.queue.accepted| == |s.asked|
  {
    View(
      s.queue.accepted[i],
      s.asked[i],
      s.queue.lock == Appended && i == |s.asked| - 1,
      if i < |s.replies| then Some(s.replies[i]) else None,
      Lookup(s.settled, i),
      Lookup(s.slots, i),
      Lookup(s.holders, i),
      Lookup(s.collected, i))
  }

  /** What the caller is owed so far: nothing until the call has run and, if it
      returned a promise, until that is settled. */
  function Owed(reply: Option<Reply>, settlement: Option<Settlement>): Slot {
    match reply
    case None => Unset
    case Some(Threw(m)) => Set(JsException(m))
    case Some(Returned(v)) => Set(Marshal(v))
    case Some(Promised) => if settlement.Some? then Set(Outcome(settlement.value)) else Unset
  }

  predicate Right(v: View, i: nat) {
    && v.call.id == i
    && (v.call.useReturn ==> v.asked)
    && (v.asked && !v.call.useReturn ==> v.unflagged)
    && (v.unflagged ==> v.reply.None?)
    && v.slot == (if v.call.useReturn then Some(Owed(v.reply, v.settlement)) else None)
    && (v.holder.Some? <==> v.reply == Some(Promised))
    && (v.holder.Some? ==> (v.holder.value <==> v.call.useReturn && v.settlement.None?))
    && (v.settlement.Some? ==> v.holder.Some?)
    && (v.collected.Some? ==> v.slot == Some(Set(v.collected.value)))
  }

  ghost predicate Bounded<T>(m: map<nat, T>, n: nat) {
    forall i | i in m :: i < n
  }

  ghost predicate Inv(s: State) {
    && Valid(s.queue)
    && |s.asked| == |s.queue.accepted|
    && |s.replies| == |s.queue.handled|
    && Bounded(s.slots, |s.asked|)
    && Bounded(s.holders, |s.asked|)
    && Bounded(s.settled, |s.asked|)
    && Bounded(s.collected, |s.asked|)
    && (forall i | 0 <= i < |s.asked| :: Right(ViewOf(s, i), i))
    && (s.queue.initialized ==> s.receiver && s.asyncReady)
  }

  lemma LastCall(q: Queue<Call>)
    requires Valid(q) && q.calls != []
    ensures q.accepted != [] && q.accepted[|q.accepted| - 1] == q.calls[|q.calls| - 1]
    ensures |q.handled| < |q.accepted|
  {
  }

  lemma FirstOfBatch(q: Queue<Call>)
    requires Valid(q) && q.batch != []
    ensures |q.handled| < |q.accepted| && q.accepted[|q.handled|] == q.batch[0]
    ensures q.lock == Appended ==> |q.handled| < |q.accepted| - 1
  {
  }

  lemma EnterKeeps(s: State, a: Action)
    requires Inv(s) && a.Enter? && Enabled(s, a)
    ensures Inv(Next(s, a))
  {
    var t := Next(s, a);
    DoKeepsValid(s.queue, Append(Call(|s.queue.accepted|, a.fn, a.args, false)));
    LastCall(t.queue);
    forall i | 0 <= i < |t.asked|
      ensures Right(ViewOf(t, i), i)
    {
      if i < |s.asked| {
        assert ViewOf(t, i) == ViewOf(s, i);
      }
    }
  }

  lemma GetFutureKeeps(s: State)
    requires Inv(s) && Enabled(s, GetFuture)
    ensures Inv(Next(s, GetFuture))
  {
    LastCall(s.queue);
    var t := Next(s, GetFuture);
    var n := |s.asked| - 1;
    var c := s.queue.calls[|s.queue.calls| - 1];
    assert Right(ViewOf(s, n), n);
    DoKeepsValid(s.queue, Amend(c.(useReturn := true)));
    forall i | 0 <= i < |t.asked|
      ensures Right(ViewOf(t, i), i)
    {
      if i != n {
        assert ViewOf(t, i) == ViewOf(s, i);
      }
    }
  }

  lemma SignalKeeps(s: State)
    requires Inv(s) && Enabled(s, Signal)
    ensures Inv(Next(s, Signal))
  {
    LastCall(s.queue);
    var t := Next(s, Signal);
    DoKeepsValid(s.queue, Send);
    forall i | 0 <= i < |t.asked|
      ensures Right(ViewOf(t, i), i)
    {
      assert ViewOf(t, i) == ViewOf(s, i).(unflagged := false);
      assert Right(ViewOf(s, i), i);
    }
  }

  function AfterReply(v: View, reply: Reply): View {
    v.(reply := Some(reply),
       slot := if v.call.useReturn then Some(Owed(Some(reply), None)) else None,
       holder := if reply.Promised? then Some(v.call.useReturn) else None)
  }

  lemma InvokedView(s: State, reply: Reply)
    requires Inv(s) && Enabled(s, Invoke(reply))
    ensures |s.replies| < |s.asked| == |Next(s, Invoke(reply)).asked|
    ensures ViewOf(Next(s, Invoke(reply)), |s.replies|) == AfterReply(ViewOf(s, |s.replies|), reply)
  {
    FirstOfBatch(s.queue);
    assert Right(ViewOf(s, |s.replies|), |s.replies|);
  }

  lemma InvokedOther(s: State, reply: Reply, i: nat)
    requires Inv(s) && Enabled(s, Invoke(reply)) && i < |s.asked| && i != |s.replies|
    ensures |s.asked| == |Next(s, Invoke(reply)).asked|
    ensures ViewOf(Next(s, Invoke(reply)), i) == ViewOf(s, i)
  {
    FirstOfBatch(s.queue);
    assert Right(ViewOf(s, |s.replies|), |s.replies|);
  }

  lemma InvokeKeeps(s: State, reply: Reply)
    requires Inv(s) && Enabled(s, Invoke(reply))
    ensures Inv(Next(s, Invoke(reply)))
  {
    FirstOfBatch(s.queue);
    var t := Next(s, Invoke(reply));
    var n := |s.replies|;
    assert Right(ViewOf(s, n), n);
    DoKeepsValid(s.queue, Handle);
    InvokedView(s, reply);
    forall i | 0 <= i < |t.asked|
      ensures Right(ViewOf(t, i), i)
    {
      if i != n {
        InvokedOther(s, reply, i);
      }
    }
  }

  lemma CallbackKeeps(s: State, id: nat, how: Settlement)
    requires Inv(s) && Enabled(s, Callback(id, how))
    ensures Inv(Next(s, Callback(id, how)))
  {
    var t := Next(s, Callback(id, how));
    assert Right(ViewOf(s, id), id);
    forall i | 0 <= i < |t.asked|
      ensures Right(ViewOf(t, i), i)
    {
      if i != id {
        assert ViewOf(t, i) == ViewOf(s, i);
      }
    }
  }

  lemma CollectKeeps(s: State, id: nat)
    requires Inv(s) && Enabled(s, Collect(id))
    ensures Inv(Next(s, Collect(id)))
  {
    var t := Next(s, Collect(id));
    assert Right(ViewOf(s, id), id);
    forall i | 0 <= i < |t.asked|
      ensures Right(ViewOf(t, i), i)
    {
      if i != id {
        assert ViewOf(t, i) == ViewOf(s, i);
      }
    }
  }

  /** The remaining steps leave what is known about each call as it is. */
  lemma SameCalls(s: State, t: State)
    requires Inv(s) && Valid(t.queue)
    requires t == s.(asyncReady := t.asyncReady, receiver := t.receiver, queue := t.queue)
    requires t.queue.accepted == s.queue.accepted && t.queue.handled == s.queue.handled
    requires s.queue.lock.Appended? <==> t.queue.lock.Appended?
    requires t.queue.initialized ==> t.receiver && t.asyncReady
    ensures Inv(t)
  {
    forall i | 0 <= i < |t.asked|
      ensures Right(ViewOf(t, i), i)
    {
      assert ViewOf(t, i) == ViewOf(s, i);
    }
  }

  lemma NextKeeps(s: State, a: Action)
    requires Inv(s) && Enabled(s, a)
    ensures Inv(Next(s, a))
  {
    match a
    case Init => SameCalls(s, Next(s, a));
    case SetReceiver => DoKeepsValid(s.queue, Initialize); SameCalls(s, Next(s, a));
    case Enter(_, _, _) => EnterKeeps(s, a);
    case GetFuture => GetFutureKeeps(s);
    case Signal => SignalKeeps(s);
    case Release => DoKeepsValid(s.queue, Unlock); SameCalls(s, Next(s, a));
    case Wake => DoKeepsValid(s.queue, WakeUp); SameCalls(s, Next(s, a));
    case Take => DoKeepsValid(s.queue, TakeAll); SameCalls(s, Next(s, a));
    case Invoke(reply) => InvokeKeeps(s, reply);
    case Finish => DoKeepsValid(s.queue, Leave); SameCalls(s, Next(s, a));
    case Callback(id, how) => CallbackKeeps(s, id, how);
    case Collect(id) => CollectKeeps(s, id);
  }

  lemma StepKeeps(s: State, a: Action)
    requires Inv(s)
    ensures Inv(Step(s, a))
  {
    if Enabled(s, a) {
      NextKeeps(s, a);
    }
  }

  lemma {:induction false} StepsKeep(s: State, actions: seq<Action>)
    requires Inv(s)
    ensures Inv(Steps(s, actions))
    decreases |actions|
  {
    if actions != [] {
      StepKeeps(s, actions[0]);
      StepsKeep(Step(s, actions[0]), actions[1..]);
    }
  }

  // ---------- what holds in every run ----------

  /** Calls are run once each, in the order they were made. */
  lemma ExactlyOnceInOrder(actions: seq<Action>)
    ensures var s := Steps(START, actions);
      var q := s.queue;
      && q.handled + (q.batch + q.calls) == q.accepted
      && |s.replies| == |q.handled|
      && (forall i | 0 <= i < |q.accepted| :: q.accepted[i].id == i)
  {
    StepsKeep(START, actions);
    var s := Steps(START, actions);
    forall i | 0 <= i < |s.asked|
      ensures s.queue.accepted[i].id == i
    {
      assert Right(ViewOf(s, i), i);
    }
  }

  /** Wake-ups coalesce, and still a call in the list has one coming; and the
      assertion at the head of the callback never fails. */
  lemma WakeUpComing(actions: seq<Action>)
    ensures var s := Steps(START, actions);
      && NoLostWake(s.queue)
      && (s.queue.loop != Idle || s.queue.wakePending ==> s.receiver && s.asyncReady)
  {
    StepsKeep(START, actions);
  }

  /** By the time a synchronous call is drained it carries use_return, and its
      future holds exactly what the call came to: its own value or exception,
      or nothing while a promise it returned is open. It is never set twice. */
  lemma FutureHoldsOwnResult(actions: seq<Action>, i: nat)
    requires var s := Steps(START, actions); i < |s.asked| && i < |s.queue.handled|
    ensures var s := Steps(START, actions);
      && i < |s.replies| && i < |s.queue.accepted|
      && (s.asked[i] <==> s.queue.accepted[i].useReturn)
      && (s.asked[i] <==> i in s.slots)
      && (s.asked[i] ==>
            s.slots[i] == match s.replies[i]
              case Threw(m) => Set(JsException(m))
              case Returned(v) => Set(Marshal(v))
              case Promised => if i in s.settled then Set(Outcome(s.settled[i])) else Unset)
      && (i in s.collected ==> s.asked[i] && s.slots[i] == Set(s.collected[i]))
  {
    StepsKeep(START, actions);
    assert Right(ViewOf(Steps(START, actions), i), i);
  }

  /** Call i gave v: the receiver returned it, or the promise it returned was
      first fulfilled with it. */
  predicate Gave(s: State, i: nat, v: JsValue) {
    i < |s.replies| &&
    (s.replies[i] == Returned(v) || (s.replies[i] == Promised && Lookup(s.settled, i) == Some(Fulfilled(v))))
  }

  predicate FailedWith(s: State, i: nat, m: string) {
    i < |s.replies| &&
    (s.replies[i] == Threw(m) || (s.replies[i] == Promised && Lookup(s.settled, i) == Some(Rejected(m))))
  }

  /** What the future of a drained synchronous call holds, case by case: the
      value it gave, the exception it failed with, the refusal of a value that
      cannot be marshalled, or nothing yet. */
  lemma ResultExact(actions: seq<Action>, i: nat, text: string)
    requires var s := Steps(START, actions); i < |s.asked| && i < |s.queue.handled| && s.asked[i]
    ensures var s := Steps(START, actions);
      && i in s.slots && i < |s.replies|
      && (s.slots[i] == Set(Value(text)) <==> Gave(s, i, Marshallable(text)))
      && (s.slots[i] == Set(JsException(text)) <==> FailedWith(s, i, text))
      && (s.slots[i] == Set(InvalidArgument) <==> Gave(s, i, Unmarshallable))
      && (s.slots[i] == Unset <==> s.replies[i] == Promised && i !in s.settled)
  {
    FutureHoldsOwnResult(actions, i);
  }

  /** A promise still open can be settled at any time, and the caller blocked on
      it then gets what it was settled with. */
  lemma SettlingAnswers(s: State, i: nat, how: Settlement)
    requires Inv(s) && i < |s.replies| && i < |s.asked|
    requires s.asked[i] && s.replies[i] == Promised && i !in s.settled
    ensures var t := Step(Step(s, Callback(i, how)), Collect(i));
      i in t.collected && t.collected[i] ==
        match how
        case Fulfilled(Marshallable(c)) => Value(c)
        case Fulfilled(Unmarshallable) => InvalidArgument
        case Rejected(m) => JsException(m)
  {
    assert Right(ViewOf(s, i), i);
    var t := Step(s, Callback(i, how));
    assert Enabled(s, Callback(i, how)) && Enabled(t, Collect(i));
  }

  // ---------- the history is the run ----------

  /** The actions of a run that did not have to wait. */
  function Taken(s: State, actions: seq<Action>): seq<Action>
    decreases |actions|
  {
    if actions == [] then [] else Took(s, actions[0]) + Taken(Step(s, actions[0]), actions[1..])
  }

  function Took(s: State, a: Action): seq<Action> {
    if Enabled(s, a) then [a] else []
  }

  function Entries(taken: seq<Action>): seq<Action> {
    if taken == [] then [] else (if taken[0].Enter? then [taken[0]] else []) + Entries(taken[1..])
  }

  function Replies(taken: seq<Action>): seq<Reply> {
    if taken == [] then []
    else (if taken[0].Invoke? then [taken[0].reply] else []) + Replies(taken[1..])
  }

  function FirstSettlement(taken: seq<Action>, i: nat): Option<Settlement> {
    if taken == [] then None
    else if taken[0].Callback? && taken[0].id == i then Some(taken[0].how)
    else FirstSettlement(taken[1..], i)
  }

  /** The calls accepted so far, as their callers made them. */
  function Made(s: State): seq<Action>
    requires |s.asked| == |s.queue.accepted|
  {
    seq(|s.asked|, i requires 0 <= i < |s.asked| =>
      Enter(s.queue.accepted[i].fn, s.queue.accepted[i].args, s.asked[i]))
  }

  lemma EnterMade(s: State, a: Action)
    requires Inv(s) && Enabled(s, a) && a.Enter? && Inv(Next(s, a))
    ensures Made(Next(s, a)) == Made(s) + [a]
  {
  }

  lemma GetFutureMade(s: State)
    requires Inv(s) && Enabled(s, GetFuture) && Inv(Next(s, GetFuture))
    ensures Made(Next(s, GetFuture)) == Made(s)
  {
    LastCall(s.queue);
  }

  lemma InvokeHistory(s: State, reply: Reply)
    requires Enabled(s, Invoke(reply))
    ensures var t := Next(s, Invoke(reply));
      && t.asked == s.asked && t.queue.accepted == s.queue.accepted
      && t.replies == s.replies + [reply] && t.settled == s.settled
  {
  }

  lemma CalledBackHistory(s: State, id: nat, how: Settlement)
    requires id in s.holders
    ensures var t := CalledBack(s, id, how);
      t.asked == s.asked && t.queue == s.queue && t.replies == s.replies && t.settled == s.settled
  {
  }

  lemma CallbackHistory(s: State, id: nat, how: Settlement)
    requires Enabled(s, Callback(id, how))
    ensures var t := Next(s, Callback(id, how));
      && t.asked == s.asked && t.queue == s.queue && t.replies == s.replies
      && t.settled == if id in s.settled then s.settled else s.settled[id := how]
  {
    CalledBackHistory(if id in s.settled then s else s.(settled := s.settled[id := how]), id, how);
  }

  lemma OtherHistory(s: State, a: Action)
    requires Enabled(s, a) && !a.Invoke? && !a.Callback?
    ensures Next(s, a).replies == s.replies && Next(s, a).settled == s.settled
    ensures !a.Enter? && !a.GetFuture? ==>
      Next(s, a).asked == s.asked && Next(s, a).queue.accepted == s.queue.accepted
  {
  }

  lemma StepMade(s: State, a: Action)
    requires Inv(s) && Enabled(s, a) && Inv(Next(s, a))
    ensures Made(Next(s, a)) == Made(s) + Entries([a])
  {
    match a
    case Enter(_, _, _) => EnterMade(s, a);
    case GetFuture => GetFutureMade(s);
    case Invoke(reply) => InvokeHistory(s, reply);
    case Callback(id, how) => CallbackHistory(s, id, how);
    case _ => OtherHistory(s, a);
  }

  lemma StepAnswers(s: State, a: Action, i: nat)
    requires Enabled(s, a)
    ensures Next(s, a).replies == s.replies + Replies([a])
    ensures Lookup(Next(s, a).settled, i) ==
      if i in s.settled then Some(s.settled[i]) else FirstSettlement([a], i)
  {
    match a
    case Invoke(reply) => InvokeHistory(s, reply);
    case Callback(id, how) => CallbackHistory(s, id, how);
    case _ => OtherHistory(s, a);
  }

  /** From s to t the history has grown by what was taken in between. */
  ghost predicate Grown(s: State, taken: seq<Action>, t: State, i: nat) {
    && |s.asked| == |s.queue.accepted| && |t.asked| == |t.queue.accepted|
    && Made(t) == Made(s) + Entries(taken)
    && t.replies == s.replies + Replies(taken)
    && Lookup(t.settled, i) == if i in s.settled then Some(s.settled[i]) else FirstSettlement(taken, i)
  }

  lemma StepGrown(s: State, a: Action, i: nat)
    requires Inv(s)
    ensures Inv(Step(s, a)) && Grown(s, Took(s, a), Step(s, a), i)
  {
    StepKeeps(s, a);
    if Enabled(s, a) {
      StepMade(s, a);
      StepAnswers(s, a, i);
    }
  }

  lemma FirstEntry(a: Action, taken: seq<Action>)
    ensures Entries([a] + taken) == Entries([a]) + Entries(taken)
  {
    assert ([a] + taken)[1..] == taken;
    assert Entries([a]) == (if a.Enter? then [a] else []);
  }

  lemma FirstReply(a: Action, taken: seq<Action>)
    ensures Replies([a] + taken) == Replies([a]) + Replies(taken)
  {
    assert ([a] + taken)[1..] == taken;
    assert Replies([a]) == (if a.Invoke? then [a.reply] else []);
  }

  lemma FirstCallback(a: Action, taken: seq<Action>, i: nat)
    ensures FirstSettlement([a] + taken, i) ==
      if FirstSettlement([a], i).Some? then FirstSettlement([a], i) else FirstSettlement(taken, i)
  {
    assert ([a] + taken)[1..] == taken;
  }

  lemma GrownTwice(s: State, took: seq<Action>, m: State, taken: seq<Action>, t: State, i: nat)
    requires |took| <= 1 && Grown(s, took, m, i) && Grown(m, taken, t, i)
    ensures Grown(s, took + taken, t, i)
  {
    if took == [] {
      assert took + taken == taken;
    } else {
      assert took == [took[0]];
      FirstEntry(took[0], taken);
      FirstReply(took[0], taken);
      FirstCallback(took[0], taken, i);
    }
  }

  /** What the theorems call accepted calls are the calls made in the run, with
      their functions and arguments and in its order; the replies and the first
      settlement of each promise are those of the run, too. */
  lemma {:induction false} HistoryIsTheRun(s: State, actions: seq<Action>, i: nat)
    requires Inv(s)
    ensures Grown(s, Taken(s, actions), Steps(s, actions), i)
    decreases |actions|
  {
    if actions != [] {
      var a := actions[0];
      StepGrown(s, a, i);
      HistoryIsTheRun(Step(s, a), actions[1..], i);
      GrownTwice(s, Took(s, a), Step(s, a), Taken(Step(s, a), actions[1..]), Steps(s, actions), i);
    }
  }

  /** Once the loop is set up and the receiver known, callers are let in as soon
      as the lock is free, and not before. */
  lemma CallersLetIn(s: State, fn: string, args: seq<string>, sync: bool)
    requires Inv(s)
    ensures s.queue.lock == Free ==> Enabled(Step(Step(s, Init), SetReceiver), Enter(fn, args, sync))
    ensures Enabled(s, Enter(fn, args, sync)) ==> s.receiver && s.asyncReady && s.queue.lock == Free
  {
    if s.queue.lock == Free {
      assert Enabled(s, Init) && Enabled(Step(s, Init), SetReceiver);
    }
  }

  predicate InQueue(s: State, i: nat) {
    exists c | c in s.queue.batch + s.queue.calls :: c.id == i
  }

  predicate InHolder(s: State, i: nat) {
    i in s.holders && s.holders[i]
  }

  lemma QueuedFrom(q: Queue<Call>, i: nat)
    requires Valid(q) && i < |q.accepted|
    requires forall k | 0 <= k < |q.accepted| :: q.accepted[k].id == k
    ensures (exists c | c in q.batch + q.calls :: c.id == i) <==> |q.handled| <= i
  {
    var rest := q.batch + q.calls;
    assert forall k | 0 <= k < |rest| :: rest[k] == q.accepted[|q.handled| + k];
    if |q.handled| <= i {
      assert rest[i - |q.handled|].id == i;
    }
  }

  lemma SlotOwner(s: State, i: nat)
    requires i < |s.asked| == |s.queue.accepted| && Right(ViewOf(s, i), i) && i in s.slots
    ensures s.slots[i] == Unset <==> |s.replies| <= i || InHolder(s, i)
    ensures InHolder(s, i) ==> i < |s.replies|
    ensures s.slots[i] != SetTwice
  {
  }

  /** A result slot has exactly one owner that can still set it, the queued call
      or the promise holder, until it is set; then it has none. */
  lemma OneOwner(actions: seq<Action>, i: nat)
    requires i in Steps(START, actions).slots
    ensures var s := Steps(START, actions);
      && (s.slots[i] == Unset <==> InQueue(s, i) || InHolder(s, i))
      && !(InQueue(s, i) && InHolder(s, i))
      && s.slots[i] != SetTwice
  {
    StepsKeep(START, actions);
    ExactlyOnceInOrder(actions);
    var s := Steps(START, actions);
    SlotOwner(s, i);
    QueuedFrom(s.queue, i);
  }

  lemma SettledStays(s: State, a: Action, i: nat)
    requires Inv(s) && Enabled(s, a) && i in s.slots && s.slots[i].Set?
    requires a.GetFuture? ==> |s.asked| > 0 && s.queue.accepted[|s.asked| - 1] == s.queue.calls[|s.queue.calls| - 1]
    requires a.Invoke? ==> |s.replies| < |s.asked| && s.queue.accepted[|s.replies|] == s.queue.batch[0]
    ensures i in Next(s, a).slots && Next(s, a).slots[i] == s.slots[i]
  {
    assert Right(ViewOf(s, i), i);
    if a.GetFuture? {
      assert Right(ViewOf(s, |s.asked| - 1), |s.asked| - 1);
    } else if a.Invoke? {
      assert Right(ViewOf(s, |s.replies|), |s.replies|);
    }
  }

  /** Once set, a result stays through every continuation of the run. */
  lemma {:induction false} SetForGood(s: State, actions: seq<Action>, i: nat)
    requires Inv(s) && i in s.slots && s.slots[i].Set?
    ensures i in Steps(s, actions).slots && Steps(s, actions).slots[i] == s.slots[i]
    decreases |actions|
  {
    if actions != [] {
      var a := actions[0];
      if Enabled(s, a) {
        match a {
          case GetFuture => LastCall(s.queue);
          case Invoke(_) => FirstOfBatch(s.queue);
          case _ =>
        }
        SettledStays(s, a, i);
      }
      StepKeeps(s, a);
      SetForGood(Step(s, a), actions[1..], i);
    }
  }

  // ---------- every schedule answers every call ----------

  predicate Progresses(a: Action) {
    a.GetFuture? || a.Signal? || a.Release? || a.Wake? || a.Take? || a.Invoke? || a.Finish?
  }

  function Todo(s: State): nat {
    Work(s.queue) + if Enabled(s, GetFuture) then 1 else 0
  }

  /** A run in which no further call is made. Promises may settle and callers
      collect their results at any point of it. */
  predicate IsSchedule(s: State, actions: seq<Action>)
    decreases |actions|
  {
    actions == [] ||
    (!actions[0].Enter? && Enabled(s, actions[0]) && IsSchedule(Step(s, actions[0]), actions[1..]))
  }

  function ProgressSteps(actions: seq<Action>): nat
    decreases |actions|
  {
    if actions == [] then 0 else (if Progresses(actions[0]) then 1 else 0) + ProgressSteps(actions[1..])
  }

  ghost predicate Quiet(s: State) {
    forall a | Progresses(a) :: !Enabled(s, a)
  }

  lemma QueueMove(s: State, t: State, act: Act<Call>)
    requires Inv(s) && Progress(act) && Can(s.queue, act)
    requires t.queue == Do(s.queue, act) && t.asked == s.asked
    ensures Todo(t) < Todo(s) && |t.queue.accepted| == |s.queue.accepted|
  {
    WorkDecreases(s.queue, act);
  }

  lemma TodoDecreases(s: State, a: Action)
    requires Inv(s) && Progresses(a) && Enabled(s, a)
    ensures Todo(Next(s, a)) < Todo(s)
    ensures |Next(s, a).queue.accepted| == |s.queue.accepted|
  {
    match a
    case Signal => QueueMove(s, Next(s, a), Send);
    case Release => QueueMove(s, Next(s, a), Unlock);
    case Wake => QueueMove(s, Next(s, a), WakeUp);
    case Take => QueueMove(s, Next(s, a), TakeAll);
    case Invoke(_) => QueueMove(s, Next(s, a), Handle);
    case Finish => QueueMove(s, Next(s, a), Leave);
    case GetFuture =>
  }

  lemma TodoStays(s: State, a: Action)
    requires Inv(s) && !Progresses(a) && !a.Enter? && Enabled(s, a)
    ensures Todo(Next(s, a)) == Todo(s)
    ensures |Next(s, a).queue.accepted| == |s.queue.accepted|
  {
  }

  lemma ProducerMoves(s: State)
    requires Inv(s)
    ensures s.queue.lock == Appended ==> Enabled(s, GetFuture) || Enabled(s, Signal)
  {
  }

  lemma QuietMeansRun(s: State)
    requires Inv(s) && Quiet(s)
    ensures |s.replies| == |s.queue.accepted|
  {
    ProducerMoves(s);
    assert !Enabled(s, GetFuture) && !Enabled(s, Signal) && !Enabled(s, Release);
    assert !Enabled(s, Wake) && !Enabled(s, Take);
    assert !Enabled(s, Invoke(Promised)) && !Enabled(s, Finish);
    assert s.queue.batch + s.queue.calls == [];
  }

  /** However the steps of the threads, the settling of promises and the
      collecting of results interleave, once no new calls are made the threads
      take at most Todo(s) steps, and when they have none left every call
      accepted has been run, so every synchronous caller whose call did not
      leave a promise open has its result. */
  lemma {:induction false} EveryScheduleAnswers(s: State, actions: seq<Action>, i: nat)
    requires Inv(s) && IsSchedule(s, actions) && i < |s.asked|
    ensures ProgressSteps(actions) <= Todo(s)
    ensures var t := Steps(s, actions);
      && (Quiet(t) ==> i < |t.replies| && i < |t.asked|)
      && (Quiet(t) && t.asked[i] && (t.replies[i] == Promised ==> i in t.settled) ==>
            i in t.slots && t.slots[i].Set?)
    decreases |actions|
  {
    if actions == [] {
      assert Right(ViewOf(s, i), i);
      if Quiet(s) {
        QuietMeansRun(s);
      }
    } else {
      if Progresses(actions[0]) {
        TodoDecreases(s, actions[0]);
      } else {
        TodoStays(s, actions[0]);
      }
      NextKeeps(s, actions[0]);
      EveryScheduleAnswers(Step(s, actions[0]), actions[1..], i);
    }
  }

  // ---------- the class ----------

  /** What one wake-up does: `answer` is how the receiver treats each call. */
  function Invokes(calls: seq<Call>, answer: nat -> Reply): seq<Action> {
    if calls == [] then [Finish] else [Invoke(answer(calls[0].id))] + Invokes(calls[1..], answer)
  }

  /** What a producer leaves behind when it has appended its call. */
  lemma Entered(s: State, fn: string, args: seq<string>, sync: bool)
    requires s.queue.initialized && s.queue.lock == Free
    ensures var q := s.queue;
      var call := Call(|q.accepted|, fn, args, false);
      Step(s, Enter(fn, args, sync)) == s.(
        queue := q.(lock := Appended, calls := q.calls + [call], accepted := q.accepted + [call]),
        asked := s.asked + [sync])
    ensures sync ==> Enabled(Step(s, Enter(fn, args, sync)), GetFuture)
  {
    assert Enabled(s, Enter(fn, args, sync));
  }

  lemma SignalIs(s: State)
    requires Enabled(s, Signal)
    ensures Step(s, Signal) == s.(queue := s.queue.(lock := Signalled, wakePending := true))
  {
  }

  lemma ReleaseIs(s: State)
    requires s.queue.lock == Signalled
    ensures Step(s, Release) == s.(queue := s.queue.(lock := Free))
  {
    assert Enabled(s, Release);
  }

  /** The end of a producer's critical section. */
  lemma SignalAndRelease(s: State)
    requires s.queue.lock == Appended && s.queue.calls != [] && s.asked != []
    requires s.asked[|s.asked| - 1] ==> s.queue.calls[|s.queue.calls| - 1].useReturn
    ensures Step(Step(s, Signal), Release) == s.(queue := s.queue.(lock := Free, wakePending := true))
  {
    assert Enabled(s, Signal);
    SignalIs(s);
    ReleaseIs(Step(s, Signal));
  }

  /** The call just appended has its own number and no slot yet. */
  lemma JustAppended(s: State)
    requires Inv(s) && Enabled(s, GetFuture)
    ensures |s.queue.accepted| == |s.asked| > 0 && |s.asked| - 1 !in s.slots
    ensures s.queue.calls[|s.queue.calls| - 1] == s.queue.accepted[|s.asked| - 1]
    ensures s.queue.accepted[|s.asked| - 1].id == |s.asked| - 1
  {
    LastCall(s.queue);
    assert Right(ViewOf(s, |s.asked| - 1), |s.asked| - 1);
  }

  /** The state after the first call of the batch has been run. */
  function AfterCall(s: State, reply: Reply, slots: map<nat, Slot>, holders: map<nat, bool>): State
    requires s.queue.batch != []
  {
    var q := s.queue;
    s.(queue := q.(batch := q.batch[1..], handled := q.handled + [q.batch[0]]),
       replies := s.replies + [reply], slots := slots, holders := holders)
  }

  function SlotsWith(s: State, c: Call, r: Result): map<nat, Slot> {
    if c.useReturn && c.id in s.slots then s.slots[c.id := Put(s.slots[c.id], r)] else s.slots
  }

  /** The state after a promise callback has run. */
  lemma CallbackIs(s: State, id: nat, how: Settlement)
    requires id in s.holders && id < |s.queue.accepted| && (s.queue.accepted[id].useReturn || how.Rejected?)
    ensures var settled := if id in s.settled then s.settled else s.settled[id := how];
      Step(s, Callback(id, how)) ==
      if !s.holders[id] then s.(settled := settled)
      else s.(settled := settled, holders := s.holders[id := false],
              slots := if id in s.slots then s.slots[id := Put(s.slots[id], Outcome(how))] else s.slots)
  {
    assert Enabled(s, Callback(id, how));
  }

  lemma InvokeIs(s: State, reply: Reply)
    requires s.queue.loop == Draining && s.queue.batch != []
    ensures var c := s.queue.batch[0];
      Step(s, Invoke(reply)) ==
      match reply
      case Threw(m) => AfterCall(s, reply, SlotsWith(s, c, JsException(m)), s.holders)
      case Promised => AfterCall(s, reply, s.slots, s.holders[c.id := c.useReturn])
      case Returned(v) => AfterCall(s, reply, SlotsWith(s, c, Marshal(v)), s.holders)
  {
    assert Enabled(s, Invoke(reply));
  }

  class CallQueue {
    var asyncReady: bool
    var receiver: bool
    var initialized: bool
    var calls: seq<Call>
    var wakePending: bool
    var slots: map<nat, Slot>
    var holders: map<nat, bool>
    // history
    var accepted: seq<Call>
    var handled: seq<Call>
    var asked: seq<bool>
    var replies: seq<Reply>
    var settled: map<nat, Settlement>
    var collected: map<nat, Result>

    ghost function Inside(lock: Lock, loop: Loop, batch: seq<Call>): State
      reads this
    {
      State(asyncReady, receiver,
            Queue(initialized, lock, calls, wakePending, loop, batch, accepted, handled),
            slots, holders, asked, replies, settled, collected)
    }

    ghost function During(loop: Loop, batch: seq<Call>): State
      reads this
    {
      Inside(Free, loop, batch)
    }

    /** The state between the methods: lock free, loop elsewhere. */
    ghost function Current(): State
      reads this
    {
      During(Idle, [])
    }

    constructor ()
      ensures Current() == START
    {
      asyncReady, receiver, initialized := false, false, false;
      calls, wakePending := [], false;
      slots, holders := map[], map[];
      accepted, handled, asked, replies := [], [], [], [];
      settled, collected := map[], map[];
    }

    method Init()
      modifies this
      ensures Current() == Step(old(Current()), Action.Init) && asyncReady
    {
      asyncReady := true;
    }

    method SetNodeReceiver()
      requires asyncReady
      modifies this
      ensures Current() == Step(old(Current()), SetReceiver)
      ensures receiver && initialized && calls == old(calls)
    {
      receiver := true;
      initialized := true;
    }

    /** calls.emplace_back, with the lock just taken. */
    method EmplaceBack(fn: string, args: seq<string>, sync: bool)
      requires Inv(Current()) && initialized
      modifies this
      ensures Inside(Appended, Idle, []) == Step(old(Current()), Enter(fn, args, sync))
      ensures Inv(Inside(Appended, Idle, [])) && calls != [] && asked == old(asked) + [sync]
      ensures |accepted| == |old(accepted)| + 1
      ensures sync ==> Enabled(Inside(Appended, Idle, []), GetFuture)
    {
      Entered(Current(), fn, args, sync);
      StepKeeps(Current(), Enter(fn, args, sync));
      var call := Call(|accepted|, fn, args, false);
      calls := calls + [call];
      accepted, asked := accepted + [call], asked + [sync];
    }

    /** uv_async_send, and the lock is given up. */
    method SendAndUnlock()
      requires calls != [] && asked != [] && (asked[|asked| - 1] ==> calls[|calls| - 1].useReturn)
      modifies this
      ensures Current() == Step(Step(old(Inside(Appended, Idle, [])), Signal), Release)
    {
      SignalAndRelease(Inside(Appended, Idle, []));
      wakePending := true;
    }

    /** Past the wait for `initialized`. */
    method InvokeAsync(fn: string, args: seq<string>)
      requires Inv(Current()) && initialized
      modifies this
      ensures Current() == Step(Step(Step(old(Current()), Enter(fn, args, false)), Signal), Release)
    {
      EmplaceBack(fn, args, false);
      SendAndUnlock();
    }

    method InvokeSync(fn: string, args: seq<string>) returns (future: nat)
      requires Inv(Current()) && initialized
      modifies this
      ensures future == |old(accepted)|
      ensures Current() ==
        Step(Step(Step(Step(old(Current()), Enter(fn, args, true)), GetFuture), Signal), Release)
    {
      EmplaceBack(fn, args, true);
      future := |accepted| - 1;
      GetReturnValue();
      SendAndUnlock();
    }

    /** calls.back().GetReturnValue(), with the lock held on the call just
        appended: the protocol's step, which keeps its invariant, so the future
        handed out is the unset slot of that call and of no other. */
    method GetReturnValue()
      requires Inv(Inside(Appended, Idle, [])) && Enabled(Inside(Appended, Idle, []), GetFuture)
      modifies this
      ensures Inside(Appended, Idle, []) == Step(old(Inside(Appended, Idle, [])), GetFuture)
      ensures Inv(Inside(Appended, Idle, []))
      ensures |accepted| == |old(accepted)| > 0 && |accepted| - 1 !in old(slots)
      ensures slots == old(slots)[|accepted| - 1 := Unset]
      ensures calls != [] && calls[|calls| - 1].useReturn && asked == old(asked) && asked != []
    {
      GetFutureKeeps(Inside(Appended, Idle, []));
      JustAppended(Inside(Appended, Idle, []));
      var back := calls[|calls| - 1].(useReturn := true);
      calls := calls[|calls| - 1 := back];
      accepted := accepted[|accepted| - 1 := back];
      slots := slots[back.id := Unset];
    }

    /** future.get(); None while the caller stays blocked. */
    method Get(future: nat) returns (r: Option<Result>)
      modifies this
      ensures Current() == Step(old(Current()), Collect(future))
      ensures r.Some? <==> future in old(slots) && old(slots)[future].Set?
      ensures r.Some? ==> old(slots)[future] == Set(r.value)
    {
      if future !in slots || !slots[future].Set? {
        return None;
      }
      r := Some(slots[future].result);
      collected := collected[future := r.value];
    }

    method SettleSlot(id: nat, r: Result)
      modifies this`slots
      ensures slots == if id in old(slots) then old(slots)[id := Put(old(slots)[id], r)] else old(slots)
    {
      if id in slots {
        slots := slots[id := Put(slots[id], r)];
      }
    }

    /** PackagedNodeCall::SetReturn and SetException. */
    method SetResult(call: Call, r: Result)
      modifies this`slots
      ensures slots == if call.useReturn && call.id in old(slots)
                       then old(slots)[call.id := Put(old(slots)[call.id], r)] else old(slots)
    {
      if !call.useReturn {
        return;
      }
      SettleSlot(call.id, r);
    }

    /** PackagedNodeCall::Invoke on the first call of what is left of the batch. */
    method Invoke(batch: seq<Call>, reply: Reply)
      requires batch != []
      modifies this
      ensures During(Draining, batch[1..]) == Step(old(During(Draining, batch)), Action.Invoke(reply))
      ensures calls == old(calls) && accepted == old(accepted)
    {
      InvokeIs(During(Draining, batch), reply);
      var call := batch[0];
      handled, replies := handled + [call], replies + [reply];
      match reply {
        case Threw(m) => SetResult(call, JsException(m));
        case Promised => holders := holders[call.id := call.useReturn];
        case Returned(v) => SetResult(call, Marshal(v));
      }
    }

    /** The loop over the batch; returning from it leaves the callback. */
    method InvokeAll(tmp: seq<Call>, answer: nat -> Reply)
      modifies this
      ensures Current() == Steps(old(During(Draining, tmp)), Invokes(tmp, answer))
      ensures calls == old(calls) && accepted == old(accepted)
    {
      ghost var taken := During(Draining, tmp);
      var rest := tmp;
      while rest != []
        invariant Steps(During(Draining, rest), Invokes(rest, answer)) == Steps(taken, Invokes(tmp, answer))
        invariant calls == old(calls) && accepted == old(accepted)
        decreases |rest|
      {
        UnrollInvokes(During(Draining, rest), rest, answer);
        Invoke(rest, answer(rest[0].id));
        rest := rest[1..];
      }
      UnrollFinish(During(Draining, []), answer);
    }

    /** run_all_asyncs, when the loop sees the signal. */
    method RunAllAsyncs(answer: nat -> Reply)
      requires Inv(Current()) && wakePending
      modifies this
      ensures Current() == Steps(old(Current()), [Wake, Take] + Invokes(old(calls), answer))
      ensures Inv(Current())
      ensures calls == [] && handled == accepted == old(accepted)
    {
      WakeAndTake(Current(), Invokes(calls, answer));
      StepsKeep(Current(), [Wake, Take] + Invokes(calls, answer));
      wakePending := false;
      assert receiver;
      var tmp := calls;
      calls := [];
      InvokeAll(tmp, answer);
    }

    /** then_promise, attached to the promise a synchronous call returned. */
    method ThenPromise(id: nat, v: JsValue)
      requires id in holders && id < |accepted| && accepted[id].useReturn
      modifies this
      ensures Current() == Step(old(Current()), Callback(id, Fulfilled(v)))
    {
      CallbackIs(Current(), id, Fulfilled(v));
      if id !in settled {
        settled := settled[id := Fulfilled(v)];
      }
      if !holders[id] {
        return;
      }
      holders := holders[id := false];
      SettleSlot(id, Marshal(v));
    }

    /** catch_promise; without a promise to complete the exception is only logged. */
    method CatchPromise(id: nat, message: string)
      requires id in holders && id < |accepted|
      modifies this
      ensures Current() == Step(old(Current()), Callback(id, Rejected(message)))
    {
      CallbackIs(Current(), id, Rejected(message));
      if id !in settled {
        settled := settled[id := Rejected(message)];
      }
      if !holders[id] {
        return;
      }
      holders := holders[id := false];
      SettleSlot(id, JsException(message));
    }
  }

  lemma WakeAndTake(s: State, rest: seq<Action>)
    requires s.queue.lock == Free && s.queue.loop == Idle && s.queue.wakePending
    ensures var q := s.queue;
      Steps(s, [Wake, Take] + rest) ==
      Steps(s.(queue := q.(wakePending := false, loop := Draining, batch := q.calls, calls := [])), rest)
  {
    var both := [Wake, Take] + rest;
    assert both[1..] == [Take] + rest && both[1..][1..] == rest;
  }

  lemma UnrollInvokes(s: State, calls: seq<Call>, answer: nat -> Reply)
    requires calls != []
    ensures Steps(s, Invokes(calls, answer)) ==
      Steps(Step(s, Invoke(answer(calls[0].id))), Invokes(calls[1..], answer))
  {
    assert Invokes(calls, answer)[1..] == Invokes(calls[1..], answer);
  }

  lemma UnrollFinish(s: State, answer: nat -> Reply)
    ensures Steps(s, Invokes([], answer)) == Step(s, Finish)
  {
    assert Steps(Step(s, Finish), [Finish][1..]) == Step(s, Finish);
  }
}
