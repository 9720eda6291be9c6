/** Calls from JavaScript into Java that return a promise: JavaInvoker
    (node-launcher.cpp, node-launcher-module.hpp), the pool thread's
    completePromise, and the NativeCallQueue that brings completions back to
    the loop thread. */
module JavaPromises {
  import opened Options
  import opened WakeQueue

  /** What a promise is settled with. */
  datatype Outcome = Ok(content: string) | Failed(message: string)

  /** What Java reports, with or without an exception: a result InitFromJava can convert, or one it cannot. */
  datatype Report = Report(error: Option<string>, content: Option<string>)

  /** A call of CompletePromise waiting in the native queue. */
  datatype Completion = Completion(id: nat, error: Option<string>, value: string)

  /** Settling a promise a second time would be an error. */
  datatype Fate = Open | Settled(outcome: Outcome) | SettledTwice

  /** The resolver of a call of fn, with the promise id it was given; 0 when it
      got none. */
  datatype Resolver = Resolver(fn: string, id: nat, fate: Fate)

  function Settle(r: Resolver, o: Outcome): Resolver {
    r.(fate := if r.fate.Open? then Settled(o) else SettledTwice)
  }

  /** The fields of JavaInvoker and the resolvers it has created; `issued` and
      `failed` are history: the resolver of each id, and the ids whose
      submission to the executor threw. */
  datatype Invoker = Invoker(
    live: bool,
    methods: map<string, nat>,
    table: map<nat, nat>,
    nextId: nat,
    resolvers: seq<Resolver>,
    issued: seq<nat>,
    failed: map<nat, string>)

  const NEW_INVOKER := Invoker(true, map[], map[], 1, [], [], map[])

  function NoSuchFunction(fn: string): Outcome {
    Failed("no such function " + fn)
  }

  /** JavaInvoker::InvokeAsync up to the call of asyncCallback. */
  function Begin(v: Invoker, fn: string): Invoker {
    if fn !in v.methods
    then v.(resolvers := v.resolvers + [Resolver(fn, 0, Settled(NoSuchFunction(fn)))])
    else v.(nextId := v.nextId + 1,
            table := v.table[v.nextId := |v.resolvers|],
            resolvers := v.resolvers + [Resolver(fn, v.nextId, Open)],
            issued := v.issued + [|v.resolvers|])
  }

  /** asyncCallback threw. */
  function SubmitFailed(v: Invoker, id: nat, message: string): Invoker {
    if id - 1 < 0 || id - 1 >= |v.issued| || v.issued[id - 1] >= |v.resolvers| then v
    else
      var r := v.issued[id - 1];
      v.(resolvers := v.resolvers[r := Settle(v.resolvers[r], Failed(message))],
         table := v.table - {id},
         failed := v.failed[id := message])
  }

  /** JavaInvoker::CompletePromise with an entry in the table: resolve without an
      error, reject with one. */
  function Answer(c: Completion): Outcome {
    if c.error.None? then Ok(c.value) else Failed(c.error.value)
  }

  function Completed(v: Invoker, c: Completion): Invoker {
    if c.id !in v.table || v.table[c.id] >= |v.resolvers| then v
    else
      var r := v.table[c.id];
      v.(table := v.table - {c.id}, resolvers := v.resolvers[r := Settle(v.resolvers[r], Answer(c))])
  }

  function Deinitialized(v: Invoker): Invoker {
    v.(live := false, methods := map[], table := map[])
  }

  // ---------- the state machine ----------

  /** `submitting` is the id the loop thread is handing to the executor, 0 when
      it is not; `cut` is how many completions had been handled at Deinit. */
  datatype State = State(invoker: Invoker, submitting: nat, queue: Queue<Completion>, cut: Option<nat>)

  const START := State(NEW_INVOKER, 0, Empty(), None)

  datatype Action =
    | Register(fn: string, callback: nat)
    | InitQueue
    | Call(fn: string)
    | Submitted
    | SubmissionThrew(message: string)
    | CompletePromise(id: nat, report: Report)
    | Signal
    | Release
    | Wake
    | Take
    | RunCompletion
    | Finish
    | Shutdown

  /** The queue step a bridge step takes, if it takes one: a result that cannot
      be marshalled is dropped without a word. */
  function QueueAct(a: Action): Option<Act<Completion>> {
    match a
    case InitQueue => Some(Initialize)
    case CompletePromise(id, Report(error, Some(content))) =>
      Some(Append(Completion(id, error, content)))
    case Signal => Some(Send)
    case Release => Some(Unlock)
    case Wake => Some(WakeUp)
    case Take => Some(TakeAll)
    case RunCompletion => Some(Handle)
    case Finish => Some(Leave)
    case _ => None
  }

  /** Java knows only ids that were handed out, but may report one twice, late,
      or after its submission failed. JavaScript, the completions and Deinit
      share the loop thread. */
  predicate Enabled(s: State, a: Action) {
    var act := QueueAct(a);
    && (act.Some? ==> Can(s.queue, act.value))
    && match a
      case Call(_) => s.submitting == 0 && s.cut == None
      case Submitted => s.submitting != 0
      case SubmissionThrew(_) => s.submitting != 0
      case CompletePromise(id, _) => 0 < id < s.invoker.nextId
      case RunCompletion => s.submitting == 0
      case Shutdown => s.submitting == 0 && s.cut == None
      case _ => true
  }

  function Next(s: State, a: Action): State
    requires Enabled(s, a)
  {
    var act := QueueAct(a);
    var t := if act.Some? then s.(queue := Do(s.queue, act.value)) else s;
    match a
    case Register(fn, m) => t.(invoker := s.invoker.(methods := s.invoker.methods[fn := m]))
    case Call(fn) =>
      t.(invoker := Begin(s.invoker, fn),
         submitting := if fn in s.invoker.methods then s.invoker.nextId else 0)
    case Submitted => t.(submitting := 0)
    case SubmissionThrew(m) => t.(invoker := SubmitFailed(s.invoker, s.submitting, m), submitting := 0)
    case RunCompletion => t.(invoker := Completed(s.invoker, s.queue.batch[0]))
    case Shutdown => t.(invoker := Deinitialized(s.invoker), cut := Some(|s.queue.handled|))
    case _ => t
  }

  function Step(s: State, a: Action): State {
    if Enabled(s, a) then Next(s, a) else s
  }

  function Steps(s: State, actions: seq<Action>): State
    decreases |actions|
  {
    if actions == [] then s else Steps(Step(s, actions[0]), actions[1..])
  }

  // ---------- the invariant ----------

  /** The first completion for an id. */
  function FirstFor(handled: seq<Completion>, id: nat): Option<Completion>
    decreases |handled|
  {
    if handled == [] then None
    else
      var earlier := FirstFor(handled[..|handled| - 1], id);
      var c := handled[|handled| - 1];
      if earlier.Some? then earlier else if c.id == id then Some(c) else None
  }

  /** The completions handled while the invoker was alive. */
  function InTime(s: State): seq<Completion> {
    if s.cut.Some? && s.cut.value <= |s.queue.handled| then s.queue.handled[..s.cut.value] else s.queue.handled
  }

  function FateOf(v: Invoker, id: nat): Fate {
    if 0 < id <= |v.issued| && v.issued[id - 1] < |v.resolvers| then v.resolvers[v.issued[id - 1]].fate else Open
  }

  /** What has become of id, as its own submission and completions decide. */
  predicate Right(s: State, id: nat) {
    var v := s.invoker;
    var first := FirstFor(InTime(s), id);
    && (id in v.table ==> 0 < id <= |v.issued| && v.table[id] == v.issued[id - 1])
    && (id == s.submitting ==> id !in v.failed && first == None)
    && (if id in v.failed then FateOf(v, id) == Settled(Failed(v.failed[id])) && id !in v.table
        else if first.Some? then FateOf(v, id) == Settled(Answer(first.value)) && id !in v.table
        else FateOf(v, id) == Open && (id in v.table <==> s.cut == None))
  }

  predicate IdRight(issued: seq<nat>, resolvers: seq<Resolver>, k: nat)
    requires k < |issued|
  {
    issued[k] < |resolvers| && resolvers[issued[k]].id == k + 1
  }

  predicate ResolverRight(issued: seq<nat>, resolvers: seq<Resolver>, r: nat)
    requires r < |resolvers|
  {
    if resolvers[r].id == 0 then resolvers[r].fate == Settled(NoSuchFunction(resolvers[r].fn))
    else resolvers[r].id <= |issued| && issued[resolvers[r].id - 1] == r
  }

  /** Ids and the resolvers that have one determine each other. */
  predicate Numbered(v: Invoker) {
    && v.nextId == |v.issued| + 1
    && (forall k | 0 <= k < |v.issued| :: IdRight(v.issued, v.resolvers, k))
    && (forall r | 0 <= r < |v.resolvers| :: ResolverRight(v.issued, v.resolvers, r))
  }

  ghost predicate Inv(s: State) {
    && Valid(s.queue)
    && Numbered(s.invoker)
    && s.submitting < s.invoker.nextId
    && (s.cut.Some? ==> s.submitting == 0 && s.cut.value <= |s.queue.handled| && s.invoker.table == map[])
    && (forall c | c in s.queue.accepted :: 0 < c.id < s.invoker.nextId)
    && (forall id | id in s.invoker.table || id in s.invoker.failed :: 0 < id < s.invoker.nextId)
    && (forall id | 0 < id < s.invoker.nextId :: Right(s, id))
  }

  lemma {:induction false} FirstForOther(handled: seq<Completion>, id: nat)
    requires forall c | c in handled :: c.id != id
    ensures FirstFor(handled, id) == None
    decreases |handled|
  {
    if handled != [] {
      assert handled[|handled| - 1] in handled;
      FirstForOther(handled[..|handled| - 1], id);
    }
  }

  lemma FirstForSnoc(handled: seq<Completion>, c: Completion, id: nat)
    ensures FirstFor(handled + [c], id) ==
      if FirstFor(handled, id).Some? then FirstFor(handled, id)
      else if c.id == id then Some(c) else None
  {
    assert (handled + [c])[..|handled|] == handled;
  }

  lemma BeginNumbered(v: Invoker, fn: string)
    requires Numbered(v)
    ensures Numbered(Begin(v, fn))
    ensures forall k | 0 < k < v.nextId :: FateOf(Begin(v, fn), k) == FateOf(v, k)
    ensures fn in v.methods ==> FateOf(Begin(v, fn), v.nextId) == Open
  {
    var w := Begin(v, fn);
    forall k | 0 <= k < |v.issued|
      ensures IdRight(w.issued, w.resolvers, k) && FateOf(w, k + 1) == FateOf(v, k + 1)
    {
      assert IdRight(v.issued, v.resolvers, k);
    }
    forall r | 0 <= r < |v.resolvers|
      ensures ResolverRight(w.issued, w.resolvers, r)
    {
      assert ResolverRight(v.issued, v.resolvers, r);
    }
    assert ResolverRight(w.issued, w.resolvers, |v.resolvers|);
    assert |w.issued| > |v.issued| ==> IdRight(w.issued, w.resolvers, |v.issued|);
    forall k | 0 < k < v.nextId
      ensures FateOf(w, k) == FateOf(v, k)
    {
      assert IdRight(w.issued, w.resolvers, k - 1) && FateOf(w, (k - 1) + 1) == FateOf(v, (k - 1) + 1);
    }
  }

  lemma CallKeeps(s: State, fn: string)
    requires Inv(s) && Enabled(s, Call(fn))
    ensures Inv(Next(s, Call(fn)))
  {
    var t := Next(s, Call(fn));
    var id := s.invoker.nextId;
    BeginNumbered(s.invoker, fn);
    forall c | c in s.queue.handled
      ensures c.id != id
    {
      assert c in s.queue.accepted;
    }
    FirstForOther(s.queue.handled, id);
    forall k | 0 < k < t.invoker.nextId
      ensures Right(t, k)
    {
      if k < id {
        assert Right(s, k);
      }
    }
  }

  /** Settling the resolver of one id leaves the others' fates alone. */
  lemma SettledFates(v: Invoker, w: Invoker, id: nat, o: Outcome)
    requires Numbered(v) && 0 < id < v.nextId && FateOf(v, id) == Open && v.issued[id - 1] < |v.resolvers|
    requires w == v.(table := w.table, failed := w.failed,
                     resolvers := v.resolvers[v.issued[id - 1] := Settle(v.resolvers[v.issued[id - 1]], o)])
    ensures Numbered(w) && FateOf(w, id) == Settled(o)
    ensures forall k | 0 < k < v.nextId && k != id :: FateOf(w, k) == FateOf(v, k)
  {
    var r := v.issued[id - 1];
    assert IdRight(v.issued, v.resolvers, id - 1);
    forall k | 0 <= k < |v.issued|
      ensures IdRight(w.issued, w.resolvers, k) && (k != id - 1 ==> v.issued[k] != r && FateOf(w, k + 1) == FateOf(v, k + 1))
    {
      assert IdRight(v.issued, v.resolvers, k);
    }
    forall k | 0 <= k < |v.resolvers|
      ensures ResolverRight(w.issued, w.resolvers, k)
    {
      assert ResolverRight(v.issued, v.resolvers, k);
    }
    forall k | 0 < k < v.nextId && k != id
      ensures FateOf(w, k) == FateOf(v, k)
    {
      assert IdRight(w.issued, w.resolvers, k - 1) && FateOf(w, (k - 1) + 1) == FateOf(v, (k - 1) + 1);
    }
  }

  lemma SubmissionThrewKeeps(s: State, m: string)
    requires Inv(s) && Enabled(s, SubmissionThrew(m))
    ensures Inv(Next(s, SubmissionThrew(m)))
  {
    var t := Next(s, SubmissionThrew(m));
    assert Right(s, s.submitting) && IdRight(s.invoker.issued, s.invoker.resolvers, s.submitting - 1);
    SettledFates(s.invoker, t.invoker, s.submitting, Failed(m));
    forall k | 0 < k < t.invoker.nextId
      ensures Right(t, k)
    {
      assert Right(s, k);
    }
  }

  lemma RunFates(s: State, t: State, c: Completion)
    requires Inv(s) && s.submitting == 0 && c in s.queue.accepted
    requires t == s.(queue := t.queue, invoker := Completed(s.invoker, c))
    ensures Numbered(t.invoker) && t.invoker.nextId == s.invoker.nextId
    ensures t.invoker.table == s.invoker.table - {c.id} && t.invoker.failed == s.invoker.failed
    ensures forall k | 0 < k < s.invoker.nextId ::
      FateOf(t.invoker, k) == if k == c.id && k in s.invoker.table then Settled(Answer(c)) else FateOf(s.invoker, k)
  {
    assert Right(s, c.id);
    if c.id in s.invoker.table {
      assert IdRight(s.invoker.issued, s.invoker.resolvers, c.id - 1);
      SettledFates(s.invoker, t.invoker, c.id, Answer(c));
    } else {
      assert s.invoker.table - {c.id} == s.invoker.table;
    }
  }

  lemma RunInTime(s: State, t: State)
    requires Inv(s) && Enabled(s, RunCompletion) && t == Next(s, RunCompletion)
    ensures InTime(t) == if s.cut == None then InTime(s) + [s.queue.batch[0]] else InTime(s)
  {
  }

  lemma RunRight(s: State, t: State, c: Completion, k: nat)
    requires Right(s, k) && 0 < k <= |s.invoker.issued| && s.submitting == t.submitting == 0
    requires s.cut.Some? ==> s.invoker.table == map[]
    requires t.cut == s.cut && t.invoker.issued == s.invoker.issued
    requires t.invoker.table == s.invoker.table - {c.id} && t.invoker.failed == s.invoker.failed
    requires FateOf(t.invoker, k) ==
      if k == c.id && k in s.invoker.table then Settled(Answer(c)) else FateOf(s.invoker, k)
    requires FirstFor(InTime(t), k) ==
      if s.cut == None && FirstFor(InTime(s), k) == None && c.id == k then Some(c)
      else FirstFor(InTime(s), k)
    ensures Right(t, k)
  {
  }

  lemma RunKeeps(s: State)
    requires Inv(s) && Enabled(s, RunCompletion)
    ensures Inv(Next(s, RunCompletion))
  {
    var t := Next(s, RunCompletion);
    var c := s.queue.batch[0];
    DoKeepsValid(s.queue, Handle);
    assert c in s.queue.accepted;
    RunFates(s, t, c);
    RunInTime(s, t);
    forall k | 0 < k < t.invoker.nextId
      ensures Right(t, k)
    {
      assert Right(s, k);
      FirstForSnoc(InTime(s), c, k);
      RunRight(s, t, c, k);
    }
  }

  lemma ShutdownKeeps(s: State)
    requires Inv(s) && Enabled(s, Shutdown)
    ensures Inv(Next(s, Shutdown))
  {
    var t := Next(s, Shutdown);
    assert InTime(t) == InTime(s);
    forall k | 0 < k < t.invoker.nextId
      ensures Right(t, k)
    {
      assert Right(s, k);
    }
  }

  /** The remaining steps leave resolvers, ids and handled completions alone. */
  lemma SameFates(s: State, t: State)
    requires Inv(s) && Valid(t.queue) && t.queue.handled == s.queue.handled && t.cut == s.cut
    requires forall c | c in t.queue.accepted :: 0 < c.id < s.invoker.nextId
    requires t.invoker == s.invoker.(methods := t.invoker.methods)
    requires t.submitting == s.submitting || t.submitting == 0
    ensures Inv(t)
  {
    assert InTime(t) == InTime(s);
    forall k | 0 < k < t.invoker.nextId
      ensures Right(t, k)
    {
      assert Right(s, k);
    }
  }

  lemma QueueStepKeeps(s: State, a: Action)
    requires Inv(s) && Enabled(s, a) && !a.RunCompletion?
    ensures Valid(Next(s, a).queue) && Next(s, a).queue.handled == s.queue.handled
    ensures forall c | c in Next(s, a).queue.accepted :: 0 < c.id < s.invoker.nextId
  {
    var act := QueueAct(a);
    if act.Some? {
      DoKeepsValid(s.queue, act.value);
    }
  }

  lemma NextKeeps(s: State, a: Action)
    requires Inv(s) && Enabled(s, a)
    ensures Inv(Next(s, a))
  {
    match a
    case Call(fn) => CallKeeps(s, fn);
    case SubmissionThrew(m) => SubmissionThrewKeeps(s, m);
    case RunCompletion => RunKeeps(s);
    case Shutdown => ShutdownKeeps(s);
    case _ =>
      QueueStepKeeps(s, a);
      SameFates(s, Next(s, a));
  }

  /** Ids are never taken back. */
  lemma {:induction false} StepsKeep(s: State, actions: seq<Action>)
    requires Inv(s)
    ensures Inv(Steps(s, actions)) && s.invoker.nextId <= Steps(s, actions).invoker.nextId
    decreases |actions|
  {
    if actions != [] {
      var t := Step(s, actions[0]);
      if Enabled(s, actions[0]) {
        NextKeeps(s, actions[0]);
      }
      assert s.invoker.nextId <= t.invoker.nextId;
      StepsKeep(t, actions[1..]);
    }
  }

  // ---------- what holds in every run ----------

  /** Every promise is settled by its own failed submission, or by the first
      completion carrying its id to arrive before Deinit, or it is still open:
      pending in the table, or dropped by Deinit. Never twice. */
  lemma FateIsOwn(actions: seq<Action>, id: nat)
    requires 0 < id < Steps(START, actions).invoker.nextId
    ensures var s := Steps(START, actions);
      var v := s.invoker;
      var first := FirstFor(InTime(s), id);
      if id in v.failed then FateOf(v, id) == Settled(Failed(v.failed[id])) && id !in v.table
      else if first.Some? then FateOf(v, id) == Settled(Answer(first.value)) && id !in v.table
      else FateOf(v, id) == Open && (id in v.table <==> s.cut == None)
  {
    StepsKeep(START, actions);
    assert Right(Steps(START, actions), id);
  }

  /** A call of a function just registered gets the next id, an open promise and
      the executor's attention. */
  lemma RegisteredIsCalled(s: State, fn: string, callback: nat)
    requires Inv(s) && s.submitting == 0 && s.cut == None
    ensures var t := Step(Step(s, Register(fn, callback)), Call(fn));
      var id := s.invoker.nextId;
      && t.submitting == id && id in t.invoker.table && FateOf(t.invoker, id) == Open
      && t.invoker.resolvers == s.invoker.resolvers + [Resolver(fn, id, Open)]
  {
    assert Enabled(s, Register(fn, callback)) && Enabled(Step(s, Register(fn, callback)), Call(fn));
  }

  /** When the executor refuses a call, its promise is rejected with the reason. */
  lemma RefusalRejects(s: State, m: string)
    requires Inv(s) && s.submitting != 0
    ensures var t := Step(s, SubmissionThrew(m));
      t.submitting == 0 && s.submitting !in t.invoker.table && FateOf(t.invoker, s.submitting) == Settled(Failed(m))
  {
    var t := Step(s, SubmissionThrew(m));
    assert Enabled(s, SubmissionThrew(m));
    assert Right(s, s.submitting) && IdRight(s.invoker.issued, s.invoker.resolvers, s.submitting - 1);
    SettledFates(s.invoker, t.invoker, s.submitting, Failed(m));
  }

  /** A call of a function nobody registered is rejected at once and gets no id. */
  lemma UnknownIsRejected(s: State, fn: string)
    requires s.submitting == 0 && s.cut == None && fn !in s.invoker.methods
    ensures var t := Step(s, Call(fn));
      && t.submitting == 0 && t.invoker.nextId == s.invoker.nextId && t.invoker.table == s.invoker.table
      && t.invoker.resolvers ==
           s.invoker.resolvers + [Resolver(fn, 0, Settled(Failed("no such function " + fn)))]
  {
    assert Enabled(s, Call(fn));
  }

  // ---------- reports decide ----------

  /** The actions of a run that did not have to wait. */
  function Taken(s: State, actions: seq<Action>): seq<Action>
    decreases |actions|
  {
    if actions == [] then [] else Took(s, actions[0]) + Taken(Step(s, actions[0]), actions[1..])
  }

  function Took(s: State, a: Action): seq<Action> {
    if Enabled(s, a) then [a] else []
  }

  /** The reports among them whose result can be marshalled. */
  function Reports(taken: seq<Action>): (reports: seq<Action>)
    ensures forall k | 0 <= k < |reports| :: reports[k].CompletePromise?
  {
    if taken == [] then []
    else (if taken[0].CompletePromise? && taken[0].report.content.Some? then [taken[0]] else []) + Reports(taken[1..])
  }

  function Calls(taken: seq<Action>): seq<Action> {
    if taken == [] then [] else (if taken[0].Call? then [taken[0]] else []) + Calls(taken[1..])
  }

  predicate Matches(c: Completion, a: Action) {
    a.CompletePromise? && c.id == a.id && c.error == a.report.error && Some(c.value) == a.report.content
  }

  /** The native queue has accepted what was reported, and there is a resolver
      for every call. */
  predicate Recorded(s: State, reports: seq<Action>, calls: seq<Action>) {
    && |s.queue.accepted| == |reports| && |s.invoker.resolvers| == |calls|
    && (forall k | 0 <= k < |reports| :: Matches(s.queue.accepted[k], reports[k]))
    && (forall k | 0 <= k < |calls| :: calls[k] == Call(s.invoker.resolvers[k].fn))
  }

  lemma CompletionRecorded(s: State, a: Action)
    requires Enabled(s, a)
    ensures var q := Next(s, a).queue.accepted;
      if a.CompletePromise? && a.report.content.Some?
      then |q| == |s.queue.accepted| + 1 && q[..|q| - 1] == s.queue.accepted && Matches(q[|q| - 1], a)
      else q == s.queue.accepted
  {
  }

  lemma CallRecorded(s: State, a: Action)
    requires Enabled(s, a)
    ensures var n := |s.invoker.resolvers|;
      var t := Next(s, a);
      |t.invoker.resolvers| == (if a.Call? then n + 1 else n)
      && (a.Call? ==> a == Call(t.invoker.resolvers[n].fn))
      && forall k | 0 <= k < n :: t.invoker.resolvers[k].fn == s.invoker.resolvers[k].fn
  {
  }

  lemma StepRecorded(s: State, a: Action, reports: seq<Action>, calls: seq<Action>)
    requires Recorded(s, reports, calls)
    ensures Recorded(Step(s, a), reports + Reports(Took(s, a)), calls + Calls(Took(s, a)))
  {
    if Enabled(s, a) {
      CompletionRecorded(s, a);
      CallRecorded(s, a);
    }
  }

  lemma ThreeParts<T>(x: seq<T>, y: seq<T>, z: seq<T>)
    ensures (x + y) + z == x + (y + z)
  {
  }

  lemma ReportsAppend(reports: seq<Action>, took: seq<Action>, taken: seq<Action>)
    requires |took| <= 1
    ensures reports + Reports(took + taken) == (reports + Reports(took)) + Reports(taken)
  {
    ThreeParts(reports, Reports(took), Reports(taken));
    if took == [] {
      assert took + taken == taken;
    } else {
      assert (took + taken)[1..] == taken && took[1..] == [];
    }
  }

  lemma CallsAppend(calls: seq<Action>, took: seq<Action>, taken: seq<Action>)
    requires |took| <= 1
    ensures calls + Calls(took + taken) == (calls + Calls(took)) + Calls(taken)
  {
    ThreeParts(calls, Calls(took), Calls(taken));
    if took == [] {
      assert took + taken == taken;
    } else {
      assert (took + taken)[1..] == taken && took[1..] == [];
    }
  }

  /** In every run the completions accepted are the reports made, in their
      order, each with its own id, error and result. */
  lemma {:induction false} ReportsAreTheRun(s: State, actions: seq<Action>, reports: seq<Action>, calls: seq<Action>)
    requires Recorded(s, reports, calls)
    ensures var taken := Taken(s, actions);
      Recorded(Steps(s, actions), reports + Reports(taken), calls + Calls(taken))
    decreases |actions|
  {
    if actions == [] {
      assert reports + [] == reports && calls + [] == calls;
    } else {
      var t, took := Step(s, actions[0]), Took(s, actions[0]);
      StepRecorded(s, actions[0], reports, calls);
      ReportsAreTheRun(t, actions[1..], reports + Reports(took), calls + Calls(took));
      ReportsAppend(reports, took, Taken(t, actions[1..]));
      CallsAppend(calls, took, Taken(t, actions[1..]));
    }
  }

  lemma {:induction false} FirstForAt(handled: seq<Completion>, k: nat)
    requires k < |handled| && forall j | 0 <= j < k :: handled[j].id != handled[k].id
    ensures FirstFor(handled, handled[k].id) == Some(handled[k])
    decreases |handled|
  {
    var n := |handled| - 1;
    if k < n {
      FirstForAt(handled[..n], k);
    } else {
      FirstForOther(handled[..n], handled[k].id);
    }
  }

  /** The first report about a promise that is handled in time decides it: a
      result without an error resolves it with that result, and an error rejects
      it with its own message. */
  lemma ReportDecides(actions: seq<Action>, k: nat, text: string)
    requires var reports := Reports(Taken(START, actions));
      var s := Steps(START, actions);
      && k < |reports| && k < |InTime(s)|
      && reports[k].id !in s.invoker.failed
      && forall j | 0 <= j < k :: reports[j].id != reports[k].id
    ensures var r := Reports(Taken(START, actions))[k];
      var v := Steps(START, actions).invoker;
      && (FateOf(v, r.id) == Settled(Ok(text)) <==> r.report.error == None && r.report.content == Some(text))
      && (FateOf(v, r.id) == Settled(Failed(text)) <==> r.report.error == Some(text))
  {
    var reports := Reports(Taken(START, actions));
    var s := Steps(START, actions);
    var calls := Calls(Taken(START, actions));
    assert [] + reports == reports && [] + calls == calls;
    ReportsAreTheRun(START, actions, [], []);
    StepsKeep(START, actions);
    var c := s.queue.accepted[k];
    assert Matches(c, reports[k]);
    assert InTime(s)[k] == c;
    forall j | 0 <= j < k
      ensures InTime(s)[j].id != c.id
    {
      assert Matches(s.queue.accepted[j], reports[j]) && InTime(s)[j] == s.queue.accepted[j];
    }
    FirstForAt(InTime(s), k);
    assert Right(s, c.id);
  }

  /** Each id below next_promise_id went to one call, and no two calls share
      one; a call of an unknown function got none and is rejected. */
  lemma IdsUnique(actions: seq<Action>)
    ensures var v := Steps(START, actions).invoker;
      && |v.issued| == v.nextId - 1
      && (forall j, k | 0 <= j < k < |v.issued| :: v.issued[j] != v.issued[k])
      && (forall r | 0 <= r < |v.resolvers| ::
            (v.resolvers[r].id == 0 ==> v.resolvers[r].fate == Settled(NoSuchFunction(v.resolvers[r].fn)))
            && (v.resolvers[r].id != 0 ==> v.resolvers[r].id < v.nextId && v.issued[v.resolvers[r].id - 1] == r))
  {
    StepsKeep(START, actions);
    var v := Steps(START, actions).invoker;
    forall j, k | 0 <= j < k < |v.issued|
      ensures v.issued[j] != v.issued[k]
    {
      assert IdRight(v.issued, v.resolvers, j) && IdRight(v.issued, v.resolvers, k);
    }
    forall r | 0 <= r < |v.resolvers|
      ensures v.resolvers[r].id == 0 ==> v.resolvers[r].fate == Settled(NoSuchFunction(v.resolvers[r].fn))
      ensures v.resolvers[r].id != 0 ==> v.resolvers[r].id < v.nextId && v.issued[v.resolvers[r].id - 1] == r
    {
      assert ResolverRight(v.issued, v.resolvers, r);
    }
  }

  /** A completion changes nothing exactly when it is a duplicate, or its
      submission failed, or the invoker is gone. */
  lemma LateChangesNothing(s: State, c: Completion)
    requires Inv(s) && 0 < c.id < s.invoker.nextId
    ensures Completed(s.invoker, c) == s.invoker <==>
      c.id in s.invoker.failed || FirstFor(InTime(s), c.id).Some? || s.cut.Some?
  {
    assert Right(s, c.id);
    if c.id in s.invoker.table {
      assert IdRight(s.invoker.issued, s.invoker.resolvers, c.id - 1);
      assert c.id !in Completed(s.invoker, c).table;
    }
  }

  lemma {:induction false} FirstForPresent(handled: seq<Completion>, c: Completion)
    requires c in handled
    ensures FirstFor(handled, c.id).Some?
    decreases |handled|
  {
    var n := |handled| - 1;
    if c != handled[n] {
      var i :| 0 <= i < |handled| && handled[i] == c;
      assert handled[..n][i] == c;
      FirstForPresent(handled[..n], c);
    }
  }

  /** When the native queue comes to rest before Deinit, as every schedule of
      its steps makes it, every id reported back has its promise settled. */
  lemma ReportedMeansSettled(s: State, c: Completion)
    requires Inv(s) && s.cut == None && Stuck(s.queue) && c in s.queue.accepted
    ensures FateOf(s.invoker, c.id).Settled?
  {
    StuckMeansDone(s.queue);
    FirstForPresent(s.queue.handled, c);
    assert Right(s, c.id);
  }

  /** Steps that finish the delivery of completions already reported. */
  predicate IsDelivery(s: State, actions: seq<Action>)
    decreases |actions|
  {
    actions == [] ||
    (var act := QueueAct(actions[0]);
     act.Some? && Progress(act.value) && Enabled(s, actions[0]) && IsDelivery(Next(s, actions[0]), actions[1..]))
  }

  lemma DeliveryStep(s: State, a: Action)
    requires Enabled(s, a) && QueueAct(a).Some? && Progress(QueueAct(a).value)
    ensures var t := Next(s, a);
      t.queue == Do(s.queue, QueueAct(a).value) && t.cut == s.cut && t.submitting == s.submitting
  {
  }

  /** However the deliveries are scheduled, they come to rest within a bound,
      and then every promise whose completion was reported is settled. */
  lemma {:induction false} EveryDeliverySettles(s: State, actions: seq<Action>, c: Completion)
    requires Inv(s) && s.cut == None && s.submitting == 0 && IsDelivery(s, actions)
    requires c in s.queue.accepted
    ensures |actions| <= Work(s.queue)
    ensures Stuck(Steps(s, actions).queue) ==> FateOf(Steps(s, actions).invoker, c.id).Settled?
    decreases |actions|
  {
    if actions == [] {
      if Stuck(s.queue) {
        ReportedMeansSettled(s, c);
      }
    } else {
      WorkDecreases(s.queue, QueueAct(actions[0]).value);
      DeliveryStep(s, actions[0]);
      NextKeeps(s, actions[0]);
      EveryDeliverySettles(Next(s, actions[0]), actions[1..], c);
    }
  }

  /** Once settled, a promise keeps its outcome through every continuation. */
  lemma {:induction false} SettledForGood(s: State, actions: seq<Action>, id: nat)
    requires Inv(s) && 0 < id < s.invoker.nextId && FateOf(s.invoker, id).Settled?
    ensures FateOf(Steps(s, actions).invoker, id) == FateOf(s.invoker, id)
    decreases |actions|
  {
    if actions != [] {
      if Enabled(s, actions[0]) {
        NextKeeps(s, actions[0]);
      }
      FateStays(s, actions[0], id);
      SettledForGood(Step(s, actions[0]), actions[1..], id);
    }
  }

  lemma RunStays(s: State, id: nat)
    requires Inv(s) && Enabled(s, RunCompletion)
    requires 0 < id < s.invoker.nextId && FateOf(s.invoker, id).Settled?
    ensures id < Next(s, RunCompletion).invoker.nextId
    ensures FateOf(Next(s, RunCompletion).invoker, id) == FateOf(s.invoker, id)
  {
    var c := s.queue.batch[0];
    assert Right(s, id) && c in s.queue.accepted;
    RunFates(s, Next(s, RunCompletion), c);
  }

  lemma SubmissionStays(s: State, m: string, id: nat)
    requires Inv(s) && Enabled(s, SubmissionThrew(m))
    requires 0 < id < s.invoker.nextId && FateOf(s.invoker, id).Settled?
    ensures id < Next(s, SubmissionThrew(m)).invoker.nextId
    ensures FateOf(Next(s, SubmissionThrew(m)).invoker, id) == FateOf(s.invoker, id)
  {
    assert Right(s, s.submitting) && IdRight(s.invoker.issued, s.invoker.resolvers, s.submitting - 1);
    SettledFates(s.invoker, Next(s, SubmissionThrew(m)).invoker, s.submitting, Failed(m));
  }

  lemma FateStays(s: State, a: Action, id: nat)
    requires Inv(s) && 0 < id < s.invoker.nextId && FateOf(s.invoker, id).Settled?
    ensures id < Step(s, a).invoker.nextId && FateOf(Step(s, a).invoker, id) == FateOf(s.invoker, id)
  {
    if Enabled(s, a) {
      match a
      case Call(fn) => BeginNumbered(s.invoker, fn);
      case RunCompletion => RunStays(s, id);
      case SubmissionThrew(m) => SubmissionStays(s, m, id);
      case _ =>
    }
  }

  // ---------- the class ----------

  /** What the invoker alone keeps: its table leads from ids to their own, open
      resolvers. */
  ghost predicate Sound(v: Invoker) {
    && Numbered(v)
    && (forall id | id in v.table ::
          0 < id < v.nextId && v.table[id] == v.issued[id - 1] && FateOf(v, id) == Open)
  }

  lemma BeginSound(v: Invoker, fn: string)
    requires Sound(v)
    ensures Sound(Begin(v, fn))
  {
    BeginNumbered(v, fn);
  }

  lemma SubmitFailedSound(v: Invoker, id: nat, m: string)
    requires Sound(v) && id in v.table
    ensures Sound(SubmitFailed(v, id, m)) && FateOf(SubmitFailed(v, id, m), id) == Settled(Failed(m))
  {
    assert IdRight(v.issued, v.resolvers, id - 1);
    SettledFates(v, SubmitFailed(v, id, m), id, Failed(m));
  }

  /** What the executor is given: the promise id and the callback to run. */
  datatype Submission = Submission(id: nat, callback: nat)

  /** InvokeAsync as a whole. */
  function Called(v: Invoker, fn: string, thrown: Option<string>): Invoker {
    if fn in v.methods && thrown.Some? then SubmitFailed(Begin(v, fn), v.nextId, thrown.value) else Begin(v, fn)
  }

  lemma CalledSound(v: Invoker, fn: string, thrown: Option<string>)
    requires Sound(v)
    ensures Sound(Called(v, fn, thrown)) && |Called(v, fn, thrown).resolvers| == |v.resolvers| + 1
    ensures Called(v, fn, thrown).resolvers[|v.resolvers|].fate ==
      if fn !in v.methods then Settled(NoSuchFunction(fn))
      else if thrown.Some? then Settled(Failed(thrown.value)) else Open
  {
    BeginSound(v, fn);
    if fn in v.methods && thrown.Some? {
      SubmitFailedSound(Begin(v, fn), v.nextId, thrown.value);
    }
  }

  lemma CompletedSound(v: Invoker, c: Completion)
    requires Sound(v)
    ensures Sound(Completed(v, c))
    ensures c.id in v.table ==> v.table[c.id] < |v.resolvers| && FateOf(Completed(v, c), c.id) == Settled(Answer(c))
  {
    if c.id in v.table {
      assert IdRight(v.issued, v.resolvers, c.id - 1);
      SettledFates(v, Completed(v, c), c.id, Answer(c));
    }
  }

  class JavaInvoker {
    var live: bool
    var methods: map<string, nat>
    var callbacks: map<nat, nat>
    var nextPromiseId: nat
    // the resolvers made, and history
    var resolvers: seq<Resolver>
    var issued: seq<nat>
    var failed: map<nat, string>

    ghost function Current(): Invoker
      reads this
    {
      Invoker(live, methods, callbacks, nextPromiseId, resolvers, issued, failed)
    }

    ghost predicate Valid()
      reads this
    {
      Sound(Current())
    }

    constructor ()
      ensures Current() == NEW_INVOKER && Valid()
    {
      live, methods, callbacks, nextPromiseId := true, map[], map[], 1;
      resolvers, issued, failed := [], [], map[];
    }

    method Register(fn: string, callback: nat)
      modifies this
      ensures Current() == old(Current()).(methods := old(methods)[fn := callback])
    {
      methods := methods[fn := callback];
    }

    /** InvokeAsync; `thrown` is the exception of the executor, if any. */
    method InvokeAsync(fn: string, thrown: Option<string>) returns (resolver: nat, submitted: Option<Submission>)
      requires Valid()
      modifies this
      ensures Current() == Called(old(Current()), fn, thrown)
      ensures Valid() && resolver == |old(resolvers)| && |resolvers| == resolver + 1
      ensures resolvers[resolver].fn == fn
      ensures submitted ==
        if fn in old(methods) then Some(Submission(old(nextPromiseId), old(methods)[fn])) else None
      ensures resolvers[resolver].fate ==
        if fn !in old(methods) then Settled(Failed("no such function " + fn))
        else if thrown.Some? then Settled(Failed(thrown.value)) else Open
    {
      CalledSound(Current(), fn, thrown);
      resolver, submitted := |resolvers|, None;
      if fn !in methods {
        resolvers := resolvers + [Resolver(fn, 0, Settled(NoSuchFunction(fn)))];
        return;
      }
      var promiseId := nextPromiseId;
      nextPromiseId := nextPromiseId + 1;
      callbacks := callbacks[promiseId := resolver];
      resolvers := resolvers + [Resolver(fn, promiseId, Open)];
      issued := issued + [resolver];
      submitted := Some(Submission(promiseId, methods[fn]));
      if thrown.Some? {
        resolvers := resolvers[resolver := Settle(resolvers[resolver], Failed(thrown.value))];
        callbacks := callbacks - {promiseId};
        failed := failed[promiseId := thrown.value];
      }
    }

    method CompletePromise(promiseId: nat, error: Option<string>, result: string)
      requires Valid()
      modifies this
      ensures Valid()
      ensures Current() == Completed(old(Current()), Completion(promiseId, error, result))
      ensures promiseId !in old(callbacks) ==> Current() == old(Current())
      ensures promiseId in old(callbacks) ==>
        FateOf(Current(), promiseId) == Settled(if error.None? then Ok(result) else Failed(error.value))
    {
      if promiseId !in callbacks {
        return;
      }
      CompletedSound(Current(), Completion(promiseId, error, result));
      var fn := callbacks[promiseId];
      callbacks := callbacks - {promiseId};
      match error {
        case None => resolvers := resolvers[fn := Settle(resolvers[fn], Ok(result))];
        case Some(message) => resolvers := resolvers[fn := Settle(resolvers[fn], Failed(message))];
      }
    }

    method Deinit()
      requires Valid()
      modifies this
      ensures Valid() && Current() == Deinitialized(old(Current()))
      ensures !live && methods == map[] && callbacks == map[] && resolvers == old(resolvers)
    {
      methods := map[];
      callbacks := map[];
      live := false;
    }
  }
}
