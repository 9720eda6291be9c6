/** InteropValue and ByteBuffer of node-launcher-marshal.hpp and .cpp: a tagged
    union whose buffer case owns a malloc'ed block. */
module InteropValues {

  /** The tag and the live member of the union; a null data pointer is 0. */
  datatype Storage =
    | Empty
    | NullValue
    | Boolean(b: bool)
    | Number(n: real)
    | Str(s: string)
    | JsonText(s: string)
    | Buffer(data: nat, len: nat)

  /** What a value means, wherever its bytes are kept. */
  datatype Value =
    | NoValue
    | VNull
    | VBoolean(b: bool)
    | VNumber(n: real)
    | VString(s: string)
    | VJson(s: string)
    | VBytes(bytes: seq<bv8>)

  /** The blocks malloc has handed out and not taken back, the next address, the
      blocks freed so far, and the objects alive. */
  datatype State = State(
    blocks: map<nat, seq<bv8>>,
    next: nat,
    freed: seq<nat>,
    objects: map<nat, Storage>)

  const START := State(map[], 1, [], map[])

  datatype Op =
    | Construct(x: nat)
    | Init(x: nat, v: Value)                      // InitFromJS, InitFromJava
    | Copy(x: nat, y: nat, outOfMemory: bool)     // x(y)
    | Move(x: nat, y: nat, leftover: string)      // x(std::move(y))
    | Destroy(x: nat)

  predicate Enabled(s: State, op: Op) {
    match op
    case Construct(x) => x !in s.objects
    case Init(x, _) => x in s.objects && s.objects[x] == Empty
    case Copy(x, y, _) => x !in s.objects && y in s.objects
    case Move(x, y, _) => x !in s.objects && y in s.objects
    case Destroy(x) => x in s.objects
  }

  function BlockAt(s: State, p: nat): seq<bv8> {
    if p in s.blocks then s.blocks[p] else []
  }

  /** malloc and memcpy. */
  function WithBlock(s: State, x: nat, bytes: seq<bv8>): State {
    s.(blocks := s.blocks[s.next := bytes], next := s.next + 1,
       objects := s.objects[x := Buffer(s.next, |bytes|)])
  }

  /** free(p), of a live block or of a null pointer. */
  function Free(s: State, p: nat): State {
    if p == 0 then s else s.(blocks := s.blocks - {p}, freed := s.freed + [p])
  }

  function Next(s: State, op: Op): State
    requires Enabled(s, op)
  {
    match op
    case Construct(x) => s.(objects := s.objects[x := Empty])
    case Init(x, v) =>
      (match v
       case NoValue => s
       case VNull => s.(objects := s.objects[x := NullValue])
       case VBoolean(b) => s.(objects := s.objects[x := Boolean(b)])
       case VNumber(n) => s.(objects := s.objects[x := Number(n)])
       case VString(t) => s.(objects := s.objects[x := Str(t)])
       case VJson(t) => s.(objects := s.objects[x := JsonText(t)])
       case VBytes(bytes) => WithBlock(s, x, bytes))
    case Copy(x, y, outOfMemory) =>
      if !s.objects[y].Buffer? then s.(objects := s.objects[x := s.objects[y]])
      else if outOfMemory then s
      else WithBlock(s, x, BlockAt(s, s.objects[y].data))
    case Move(x, y, leftover) =>
      var from := s.objects[y];
      var left := match from
        case Buffer(_, _) => Buffer(0, 0)
        case Str(_) => Str(leftover)
        case JsonText(_) => JsonText(leftover)
        case _ => from;
      s.(objects := s.objects[x := from][y := left])
    case Destroy(x) =>
      var t := if s.objects[x].Buffer? then Free(s, s.objects[x].data) else s;
      t.(objects := t.objects - {x})
  }

  function Step(s: State, op: Op): State {
    if Enabled(s, op) then Next(s, op) else s
  }

  function Steps(s: State, ops: seq<Op>): State
    decreases |ops|
  {
    if ops == [] then s else Steps(Step(s, ops[0]), ops[1..])
  }

  function Denote(s: State, x: nat): Value
    requires x in s.objects
  {
    match s.objects[x]
    case Empty => NoValue
    case NullValue => VNull
    case Boolean(b) => VBoolean(b)
    case Number(n) => VNumber(n)
    case Str(t) => VString(t)
    case JsonText(t) => VJson(t)
    case Buffer(data, _) => VBytes(BlockAt(s, data))
  }

  // ---------- ownership ----------

  predicate Owns(s: State, x: nat, p: nat) {
    x in s.objects && s.objects[x].Buffer? && s.objects[x].data == p
  }

  predicate SoleOwner(s: State, x: nat, p: nat) {
    Owns(s, x, p) && forall y | y in s.objects && y != x :: !Owns(s, y, p)
  }

  predicate NoRepeats(freed: seq<nat>) {
    forall i, j | 0 <= i < j < |freed| :: freed[i] != freed[j]
  }

  ghost predicate Inv(s: State) {
    && s.next > 0
    && (forall p: nat :: p in s.blocks || p in s.freed <==> 0 < p < s.next)
    && (forall p | p in s.blocks :: p !in s.freed)
    && NoRepeats(s.freed)
    && (forall x | x in s.objects && s.objects[x].Buffer? ::
          if s.objects[x].data == 0 then s.objects[x].len == 0
          else s.objects[x].data in s.blocks && |s.blocks[s.objects[x].data]| == s.objects[x].len)
    && Owned(s)
  }

  ghost predicate Owned(s: State) {
    forall p | p in s.blocks :: exists x :: SoleOwner(s, x, p)
  }

  lemma SameOwner(s: State, t: State, p: nat)
    requires exists x :: SoleOwner(s, x, p)
    requires forall x :: Owns(t, x, p) <==> Owns(s, x, p)
    ensures exists x :: SoleOwner(t, x, p)
  {
    var x :| SoleOwner(s, x, p);
    assert SoleOwner(t, x, p);
  }

  lemma WithBlockKeeps(s: State, x: nat, bytes: seq<bv8>)
    requires Inv(s) && (x in s.objects ==> !s.objects[x].Buffer?)
    ensures Inv(WithBlock(s, x, bytes))
  {
    var t := WithBlock(s, x, bytes);
    assert SoleOwner(t, x, s.next);
    forall p | p in s.blocks
      ensures exists x :: SoleOwner(t, x, p)
    {
      SameOwner(s, t, p);
    }
  }

  lemma MoveOwned(s: State, t: State, x: nat, y: nat)
    requires Owned(s) && x !in s.objects && y in s.objects && t.blocks == s.blocks && 0 !in s.blocks
    requires t.objects.Keys == s.objects.Keys + {x} && t.objects[x] == s.objects[y]
    requires t.objects[y].Buffer? ==> t.objects[y].data == 0
    requires forall z | z in s.objects && z != y :: t.objects[z] == s.objects[z]
    ensures Owned(t)
  {
    forall p | p in t.blocks
      ensures exists x :: SoleOwner(t, x, p)
    {
      var o :| SoleOwner(s, o, p);
      assert SoleOwner(t, if o == y then x else o, p);
    }
  }

  lemma MoveKeeps(s: State, op: Op)
    requires Inv(s) && op.Move? && Enabled(s, op)
    ensures Inv(Next(s, op))
  {
    MoveOwned(s, Next(s, op), op.x, op.y);
  }

  lemma OwnerIs(s: State, x: nat)
    requires Inv(s) && x in s.objects && s.objects[x].Buffer? && s.objects[x].data != 0
    ensures SoleOwner(s, x, s.objects[x].data)
  {
    var p := s.objects[x].data;
    var o :| SoleOwner(s, o, p);
    assert Owns(s, x, p) && o == x;
  }

  lemma DestroyOwned(s: State, t: State, x: nat)
    requires Owned(s) && x in s.objects && t.objects == s.objects - {x}
    requires t.blocks == s.blocks - {if s.objects[x].Buffer? then s.objects[x].data else 0}
    requires 0 !in s.blocks
    ensures Owned(t)
  {
    forall p | p in t.blocks
      ensures exists y :: SoleOwner(t, y, p)
    {
      var o :| SoleOwner(s, o, p);
      assert o != x;
      assert SoleOwner(t, o, p);
    }
  }

  lemma DestroyKeeps(s: State, x: nat)
    requires Inv(s) && x in s.objects
    ensures Inv(Next(s, Destroy(x)))
  {
    var t := Next(s, Destroy(x));
    assert s.blocks - {0} == s.blocks;
    DestroyOwned(s, t, x);
    if s.objects[x].Buffer? && s.objects[x].data != 0 {
      var p := s.objects[x].data;
      OwnerIs(s, x);
      forall y | y in t.objects
        ensures !Owns(t, y, p)
      {
        assert Owns(t, y, p) ==> Owns(s, y, p);
      }
    }
  }

  lemma PlainKeeps(s: State, x: nat, v: Storage)
    requires Inv(s) && (x in s.objects ==> !s.objects[x].Buffer?) && !v.Buffer?
    ensures Inv(s.(objects := s.objects[x := v]))
  {
    var t := s.(objects := s.objects[x := v]);
    forall p | p in s.blocks
      ensures exists x :: SoleOwner(t, x, p)
    {
      SameOwner(s, t, p);
    }
  }

  lemma NextKeeps(s: State, op: Op)
    requires Inv(s) && Enabled(s, op)
    ensures Inv(Next(s, op))
  {
    match op
    case Construct(x) => PlainKeeps(s, x, Empty);
    case Init(x, v) =>
      if v.VBytes? {
        WithBlockKeeps(s, x, v.bytes);
      } else if v != NoValue {
        PlainKeeps(s, x, Next(s, op).objects[x]);
      }
    case Copy(x, y, _) =>
      if s.objects[y].Buffer? {
        WithBlockKeeps(s, x, BlockAt(s, s.objects[y].data));
      } else {
        PlainKeeps(s, x, s.objects[y]);
      }
    case Move(_, _, _) => MoveKeeps(s, op);
    case Destroy(x) => DestroyKeeps(s, x);
  }

  lemma {:induction false} StepsKeep(s: State, ops: seq<Op>)
    requires Inv(s)
    ensures Inv(Steps(s, ops))
    decreases |ops|
  {
    if ops != [] {
      if Enabled(s, ops[0]) {
        NextKeeps(s, ops[0]);
      }
      StepsKeep(Step(s, ops[0]), ops[1..]);
    }
  }

  lemma BlocksHaveOwners(s: State)
    requires Inv(s)
    ensures s.objects == map[] ==> s.blocks == map[]
  {
    if s.blocks != map[] {
      var p :| p in s.blocks;
      var x :| SoleOwner(s, x, p);
      assert x in s.objects;
    }
  }

  /** In every run each live block has exactly one owner, no block is freed
      twice, and the blocks not freed are the live ones; so when no object is
      left every block has been freed, once. */
  lemma OwnedAndFreedOnce(ops: seq<Op>)
    ensures var s := Steps(START, ops);
      && (forall p | p in s.blocks :: exists x :: SoleOwner(s, x, p))
      && NoRepeats(s.freed)
      && (forall p: nat | 0 < p < s.next :: p in s.blocks <==> p !in s.freed)
      && (s.objects == map[] ==> forall p: nat | 0 < p < s.next :: p in s.freed)
  {
    StepsKeep(START, ops);
    var s := Steps(START, ops);
    BlocksHaveOwners(s);
  }

  /** A step frees a block exactly when it destroys the object that owns it. */
  lemma FreedByOwner(s: State, op: Op, p: nat)
    requires Inv(s) && Enabled(s, op)
    ensures p in Next(s, op).freed <==> p in s.freed || (op.Destroy? && p != 0 && Owns(s, op.x, p))
    ensures op.Destroy? && p != 0 && Owns(s, op.x, p) ==> p in s.blocks && p !in Next(s, op).blocks
  {
  }

  /** Which objects are alive after a step. */
  lemma AliveAfter(s: State, op: Op, z: nat)
    requires Enabled(s, op)
    ensures z in Next(s, op).objects <==>
      match op
      case Construct(x) => z in s.objects || z == x
      case Init(_, _) => z in s.objects
      case Copy(x, y, outOfMemory) => z in s.objects || (z == x && !(outOfMemory && s.objects[y].Buffer?))
      case Move(x, _, _) => z in s.objects || z == x
      case Destroy(x) => z in s.objects && z != x
  {
  }

  /** In every run a block has been freed exactly when no object owns it any
      more. */
  lemma FreedExactly(ops: seq<Op>, p: nat)
    requires 0 < p < Steps(START, ops).next
    ensures var s := Steps(START, ops);
      p in s.freed <==> forall x | x in s.objects :: !Owns(s, x, p)
  {
    StepsKeep(START, ops);
    var s := Steps(START, ops);
    if p in s.blocks {
      var x :| SoleOwner(s, x, p);
      assert x in s.objects && Owns(s, x, p);
    }
  }

  function DestroyAll(xs: seq<nat>): seq<Op> {
    seq(|xs|, i requires 0 <= i < |xs| => Destroy(xs[i]))
  }

  lemma {:induction false} DestroyedAll(s: State, xs: seq<nat>)
    ensures var t := Steps(s, DestroyAll(xs));
      t.next == s.next && forall x | x in t.objects :: x in s.objects && x !in xs
    decreases |xs|
  {
    if xs != [] {
      assert DestroyAll(xs)[1..] == DestroyAll(xs[1..]);
      DestroyedAll(Step(s, Destroy(xs[0])), xs[1..]);
    }
  }

  lemma {:induction false} StepsAppend(s: State, a: seq<Op>, b: seq<Op>)
    ensures Steps(s, a + b) == Steps(Steps(s, a), b)
    decreases |a|
  {
    if a == [] {
      assert a + b == b;
    } else {
      assert (a + b)[1..] == a[1..] + b;
      StepsAppend(Step(s, a[0]), a[1..], b);
    }
  }

  /** However a run went, destroying all its objects gives every block back. */
  lemma NothingLeaks(ops: seq<Op>, xs: seq<nat>)
    requires forall x | x in Steps(START, ops).objects :: x in xs
    ensures var t := Steps(START, ops + DestroyAll(xs));
      && t.objects == map[] && t.blocks == map[]
      && t.next == Steps(START, ops).next
      && forall p: nat | 0 < p < t.next :: p in t.freed
  {
    StepsAppend(START, ops, DestroyAll(xs));
    DestroyedAll(Steps(START, ops), xs);
    StepsKeep(START, ops + DestroyAll(xs));
    var t := Steps(START, ops + DestroyAll(xs));
    assert t.objects == map[];
    BlocksHaveOwners(t);
  }

  lemma DestroyedOther(s: State, x: nat, z: nat)
    requires Inv(s) && x in s.objects && z in s.objects && x != z
    ensures var t := Next(s, Destroy(x)); z in t.objects && Denote(t, z) == Denote(s, z)
  {
    if s.objects[x].Buffer? && s.objects[z].Buffer? && s.objects[x].data != 0 {
      OwnerIs(s, x);
      assert !Owns(s, z, s.objects[x].data);
    }
  }

  lemma OtherKept(s: State, op: Op, z: nat)
    requires Inv(s) && Enabled(s, op) && z in s.objects && op.x != z && !(op.Move? && op.y == z)
    ensures var t := Next(s, op); z in t.objects && Denote(t, z) == Denote(s, z)
  {
    if op.Destroy? {
      DestroyedOther(s, op.x, z);
    }
  }

  /** A copy has the value of the original, and the original keeps it; a move
      transfers it. No operation changes the value of an object it is not
      applied to. */
  lemma ValuesAreOwn(s: State, op: Op, z: nat)
    requires Inv(s) && Enabled(s, op)
    ensures var t := Next(s, op);
      && (op.Copy? && op.x in t.objects ==> Denote(t, op.x) == Denote(s, op.y))
      && (op.Move? ==> op.x in t.objects && Denote(t, op.x) == Denote(s, op.y))
      && (op.Move? ==> op.y in t.objects && (s.objects[op.y].Buffer? ==> t.objects[op.y] == Buffer(0, 0)))
      && (op.Construct? ==> op.x in t.objects && Denote(t, op.x) == NoValue)
      && (op.Init? && op.v != NoValue ==> op.x in t.objects && Denote(t, op.x) == op.v)
      && (z in s.objects && op.x != z && !(op.Move? && op.y == z) ==> z in t.objects && Denote(t, z) == Denote(s, z))
  {
    if z in s.objects && op.x != z && !(op.Move? && op.y == z) {
      OtherKept(s, op, z);
    }
  }

  // ---------- the class ----------

  /** The objects and the heap they share. */
  class Objects {
    var blocks: map<nat, seq<bv8>>
    var next: nat
    var freed: seq<nat>
    var objects: map<nat, Storage>

    ghost function Current(): State
      reads this
    {
      State(blocks, next, freed, objects)
    }

    constructor ()
      ensures Current() == START && Inv(Current())
    {
      blocks, next, freed, objects := map[], 1, [], map[];
    }

    /** malloc of a block that is then filled; null when there is no memory. */
    method Allocate(bytes: seq<bv8>, outOfMemory: bool) returns (p: nat)
      modifies this`blocks, this`next
      ensures outOfMemory ==> p == 0 && blocks == old(blocks) && next == old(next)
      ensures !outOfMemory ==> p == old(next) && next == p + 1 && blocks == old(blocks)[p := bytes]
    {
      if outOfMemory {
        return 0;
      }
      p := next;
      blocks := blocks[p := bytes];
      next := next + 1;
    }

    method CopyConstruct(x: nat, y: nat, outOfMemory: bool)
      requires Inv(Current()) && x !in objects && y in objects
      modifies this
      ensures Inv(Current()) && Current() == Next(old(Current()), Copy(x, y, outOfMemory))
      ensures x in objects <==> !(outOfMemory && old(objects)[y].Buffer?)
    {
      NextKeeps(Current(), Copy(x, y, outOfMemory));
      match objects[y] {
        case Buffer(data, len) =>
          var p := Allocate(if data == 0 then [] else blocks[data], outOfMemory);
          if p == 0 {
            return;
          }
          objects := objects[x := Buffer(p, len)];
        case _ =>
          objects := objects[x := objects[y]];
      }
    }

    method MoveConstruct(x: nat, y: nat, leftover: string)
      requires Inv(Current()) && x !in objects && y in objects
      modifies this
      ensures Inv(Current()) && Current() == Next(old(Current()), Move(x, y, leftover))
    {
      NextKeeps(Current(), Move(x, y, leftover));
      match objects[y] {
        case Buffer(data, len) =>
          objects := objects[x := Buffer(data, len)];
          objects := objects[y := Buffer(0, 0)];
        case Str(s) =>
          objects := objects[x := Str(s)][y := Str(leftover)];
        case JsonText(s) =>
          objects := objects[x := JsonText(s)][y := JsonText(leftover)];
        case from =>
          assert objects[x := from][y := from] == objects[x := from];
          objects := objects[x := from];
      }
    }

    method DestroyObject(x: nat)
      requires Inv(Current()) && x in objects
      modifies this
      ensures Inv(Current()) && Current() == Next(old(Current()), Destroy(x))
      ensures objects == old(objects) - {x}
      ensures old(objects)[x].Buffer? && old(objects)[x].data != 0 ==>
        var p := old(objects)[x].data; p in old(blocks) && blocks == old(blocks) - {p} && freed == old(freed) + [p]
      ensures !old(objects)[x].Buffer? ==> blocks == old(blocks) && freed == old(freed)
    {
      NextKeeps(Current(), Destroy(x));
      match objects[x] {
        case Buffer(data, _) =>
          if data != 0 {
            blocks := blocks - {data};
            freed := freed + [data];
          }
        case _ =>
      }
      objects := objects - {x};
    }
  }
}
