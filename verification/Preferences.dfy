/** AndroidSharedPreferences of jsapp/platform.js over the Android preference
    store of SharedPreferencesAPI.java: writes are buffered and flushed by a
    timer or by the next read, as one JSON text. */
module Preferences {
  import opened Json
  import opened JsonTheorems
  import opened Options

  /** One buffered [name, JSON.stringify(value)]. */
  datatype Write = Write(name: Text, text: Text)

  type Store = map<Text, Text>

  // ---------- the Java side ----------

  function Put(store: Store, w: Write): Store {
    store[w.name := w.text]
  }

  function PutAll(store: Store, writes: seq<Write>): Store
    decreases |writes|
  {
    if writes == [] then store else PutAll(Put(store, writes[0]), writes[1..])
  }

  /** JSON.stringify(writes): an array of pairs of strings. */
  function Pair(w: Write): Json {
    Arr([Str(w.name), Str(w.text)])
  }

  function Pairs(writes: seq<Write>): seq<Json> {
    seq(|writes|, i requires 0 <= i < |writes| => Pair(writes[i]))
  }

  function ToWire(writes: seq<Write>): Text {
    Stringify(Arr(Pairs(writes)))
  }

  /** writeSharedPref: None where Java throws a JSONException. */
  function FromPairs(vs: seq<Json>): Option<seq<Write>>
    decreases |vs|
  {
    if vs == [] then Some([])
    else match vs[0]
      case Arr(pair) =>
        if |pair| >= 2 && pair[0].Str? && pair[1].Str? && FromPairs(vs[1..]).Some?
        then Some([Write(pair[0].s, pair[1].s)] + FromPairs(vs[1..]).value) else None
      case _ => None
  }

  function FromWire(wire: Text): Option<seq<Write>> {
    match Parse(wire)
    case Parsed(Arr(vs)) => FromPairs(vs)
    case _ => None
  }

  lemma {:induction false} PairsRoundTrip(writes: seq<Write>)
    ensures FromPairs(Pairs(writes)) == Some(writes)
    decreases |writes|
  {
    if writes != [] {
      PairsRoundTrip(writes[1..]);
      assert Pairs(writes)[1..] == Pairs(writes[1..]);
      assert Pairs(writes)[0] == Pair(writes[0]);
      assert writes == [writes[0]] + writes[1..];
    }
  }

  /** What crosses to Java arrives, in order. */
  lemma WireRoundTrip(writes: seq<Write>)
    ensures FromWire(ToWire(writes)) == Some(writes)
  {
    var v := Arr(Pairs(writes));
    forall i | 0 <= i < |writes|
      ensures WellFormed(Pair(writes[i]))
    {
      assert WellFormed(Str(writes[i].name)) && WellFormed(Str(writes[i].text));
    }
    assert WellFormed(v);
    ParseStringify(v);
    PairsRoundTrip(writes);
  }

  // ---------- the state ----------

  /** The buffer, the timer flag, the timers outstanding in the event loop, and
      the store on the Java side. */
  datatype State = State(writes: seq<Write>, scheduledWrite: bool, timers: nat, store: Store)

  datatype Op = Set(name: Text, value: Json) | Get(name: Text) | Timer

  function Flush(s: State): State {
    if s.writes == [] then s
    else
      var arrived := FromWire(ToWire(s.writes));
      s.(writes := [], store := if arrived.Some? then PutAll(s.store, arrived.value) else s.store)
  }

  /** A timer only fires when one is outstanding. */
  function Next(s: State, op: Op): State {
    match op
    case Set(name, value) =>
      var t := s.(writes := s.writes + [Write(name, Stringify(value))]);
      if s.scheduledWrite then t else t.(scheduledWrite := true, timers := s.timers + 1)
    case Get(_) => Flush(s)
    case Timer => if s.timers == 0 then s else Flush(s).(scheduledWrite := false, timers := s.timers - 1)
  }

  /** What the caller gets back; None for undefined. */
  function Output(s: State, op: Op): Option<Json> {
    match op
    case Set(_, value) => Some(value)
    case Get(name) =>
      var store := Flush(s).store;
      if name !in store then None
      else (match Parse(store[name])
            case Parsed(v) => Some(v)
            case SyntaxError => None)
    case Timer => None
  }

  function Outputs(s: State, ops: seq<Op>): seq<Option<Json>>
    decreases |ops|
  {
    if ops == [] then [] else [Output(s, ops[0])] + Outputs(Next(s, ops[0]), ops[1..])
  }

  function Run(s: State, ops: seq<Op>): State
    decreases |ops|
  {
    if ops == [] then s else Run(Next(s, ops[0]), ops[1..])
  }

  // ---------- the plain map ----------

  type Model = map<Text, Json>

  function MapNext(m: Model, op: Op): Model {
    if op.Set? then m[op.name := op.value] else m
  }

  function MapOutput(m: Model, op: Op): Option<Json> {
    match op
    case Set(_, value) => Some(value)
    case Get(name) => if name in m then Some(m[name]) else None
    case Timer => None
  }

  function MapOutputs(m: Model, ops: seq<Op>): seq<Option<Json>>
    decreases |ops|
  {
    if ops == [] then [] else [MapOutput(m, ops[0])] + MapOutputs(MapNext(m, ops[0]), ops[1..])
  }

  function MapRun(m: Model, ops: seq<Op>): Model
    decreases |ops|
  {
    if ops == [] then m else MapRun(MapNext(m, ops[0]), ops[1..])
  }

  function AsStore(m: Model): Store {
    map k | k in m :: Stringify(m[k])
  }

  // ---------- refinement ----------

  /** The store with the buffered writes applied is the map, and a write in the
      buffer has a timer coming. */
  ghost predicate Represents(s: State, m: Model) {
    && PutAll(s.store, s.writes) == AsStore(m)
    && (forall k | k in m :: WellFormed(m[k]))
    && s.timers == (if s.scheduledWrite then 1 else 0)
    && (s.writes != [] ==> s.scheduledWrite)
  }

  lemma {:induction false} PutLast(store: Store, writes: seq<Write>, w: Write)
    ensures PutAll(store, writes + [w]) == Put(PutAll(store, writes), w)
    decreases |writes|
  {
    if writes == [] {
      assert [w][1..] == [] && PutAll(Put(store, w), [w][1..]) == Put(store, w);
    } else {
      PutLast(Put(store, writes[0]), writes[1..], w);
      assert (writes + [w])[1..] == writes[1..] + [w];
    }
  }

  lemma FlushIs(s: State)
    ensures Flush(s) == s.(writes := [], store := PutAll(s.store, s.writes))
  {
    WireRoundTrip(s.writes);
  }

  lemma NextRepresents(s: State, m: Model, op: Op)
    requires Represents(s, m) && (op.Set? ==> WellFormed(op.value))
    ensures Represents(Next(s, op), MapNext(m, op))
    ensures Output(s, op) == MapOutput(m, op)
  {
    FlushIs(s);
    match op
    case Set(name, value) =>
      PutLast(s.store, s.writes, Write(name, Stringify(value)));
      assert AsStore(m)[name := Stringify(value)] == AsStore(m[name := value]);
    case Get(name) =>
      if name in m {
        ParseStringify(m[name]);
      }
    case Timer =>
  }

  /** Every run of set, get and timer steps looks like a run on a plain map. */
  lemma {:induction false} LooksLikeAMap(s: State, m: Model, ops: seq<Op>)
    requires Represents(s, m) && forall op | op in ops :: op.Set? ==> WellFormed(op.value)
    ensures Outputs(s, ops) == MapOutputs(m, ops)
    ensures Represents(Run(s, ops), MapRun(m, ops))
    decreases |ops|
  {
    if ops != [] {
      assert ops[0] in ops;
      NextRepresents(s, m, ops[0]);
      LooksLikeAMap(Next(s, ops[0]), MapNext(m, ops[0]), ops[1..]);
    }
  }

  /** No write is stranded: a buffer that is not empty has a timer outstanding,
      and when it fires the store itself is the map. */
  lemma TimerWritesEverything(s: State, m: Model)
    requires Represents(s, m)
    ensures s.writes != [] ==> s.timers > 0
    ensures s.timers > 0 ==> Next(s, Timer).writes == [] && Next(s, Timer).store == AsStore(m)
    ensures s.timers > 0 ==> Next(s, Timer).timers == 0 && !Next(s, Timer).scheduledWrite
    ensures s.timers == 0 ==> s.store == AsStore(m)
  {
    FlushIs(s);
  }

  /** A write is buffered and starts a timer exactly when none is outstanding; a
      read leaves no write in the buffer and starts none. */
  lemma OneTimer(s: State, m: Model, name: Text, value: Json)
    requires Represents(s, m)
    ensures Next(s, Set(name, value)).timers == 1 && Next(s, Set(name, value)).store == s.store
    ensures Next(s, Get(name)).timers == s.timers && Next(s, Get(name)).writes == []
  {
  }

  // ---------- the class ----------

  class AndroidSharedPreferences {
    var writes: seq<Write>
    var scheduledWrite: bool
    var timers: nat
    var store: Store
    ghost var model: Model

    ghost function Current(): State
      reads this
    {
      State(writes, scheduledWrite, timers, store)
    }

    ghost predicate Valid()
      reads this
    {
      Represents(Current(), model)
    }

    /** The store as earlier runs have left it. */
    constructor (stored: Store, ghost earlier: Model)
      requires stored == AsStore(earlier) && forall k | k in earlier :: WellFormed(earlier[k])
      ensures Valid() && model == earlier && Current() == State([], false, 0, stored)
    {
      writes, scheduledWrite, timers, store := [], false, 0, stored;
      model := earlier;
    }

    method WriteSharedPref(wire: Text)
      modifies this`store
      ensures store == if FromWire(wire).Some? then PutAll(old(store), FromWire(wire).value) else old(store)
    {
      var parsed := FromWire(wire);
      if parsed.None? {
        return;
      }
      var i := 0;
      while i < |parsed.value|
        invariant 0 <= i <= |parsed.value|
        invariant PutAll(store, parsed.value[i..]) == PutAll(old(store), parsed.value)
      {
        assert parsed.value[i..][1..] == parsed.value[i + 1..];
        store := Put(store, parsed.value[i]);
        i := i + 1;
      }
    }

    method FlushWrites()
      requires Valid()
      modifies this`writes, this`store
      ensures Valid() && Current() == Flush(old(Current()))
    {
      if writes == [] {
        return;
      }
      FlushIs(Current());
      WireRoundTrip(writes);
      var taken := writes;
      writes := [];
      WriteSharedPref(ToWire(taken));
    }

    method Get(name: Text) returns (value: Option<Json>)
      requires Valid()
      modifies this`writes, this`store
      ensures Valid() && Current() == Next(old(Current()), Op.Get(name))
      ensures value == if name in model then Some(model[name]) else None
    {
      NextRepresents(Current(), model, Op.Get(name));
      FlushWrites();
      if name !in store {
        return None;
      }
      var p := Parse(store[name]);
      value := if p.Parsed? then Some(p.v) else None;
    }

    method Set(name: Text, value: Json) returns (r: Json)
      requires Valid() && WellFormed(value)
      modifies this
      ensures Valid() && Current() == Next(old(Current()), Op.Set(name, value))
      ensures model == old(model)[name := value] && r == value
      ensures store == old(store) && scheduledWrite && timers == 1
    {
      NextRepresents(Current(), model, Op.Set(name, value));
      model := model[name := value];
      writes := writes + [Write(name, Stringify(value))];
      if !scheduledWrite {
        scheduledWrite := true;
        timers := timers + 1;
      }
      r := value;
    }

    /** The callback given to setTimeout. */
    method OnTimer()
      requires Valid() && timers > 0
      modifies this
      ensures Valid() && Current() == Next(old(Current()), Timer)
      ensures model == old(model) && writes == [] && store == AsStore(model)
      ensures !scheduledWrite && timers == 0
    {
      NextRepresents(Current(), model, Timer);
      TimerWritesEverything(Current(), model);
      timers := timers - 1;
      FlushIs(Current());
      if writes != [] {
        WireRoundTrip(writes);
        var taken := writes;
        writes := [];
        WriteSharedPref(ToWire(taken));
      }
      scheduledWrite := false;
    }
  }
}
