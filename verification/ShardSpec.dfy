/** One shard on values: the index, the clock and the generations, and the four operations that move all three. */
module ShardSpec {
  import opened Types
  import opened RingSums
  import opened ClockSpec
  import Ops = ClockOps
  import Gen = Generations

  const WEIGHT_MOD := 0x1_0000_0000

  /** The 32-bit weight an entry keeps of the weight given to `Put`. */
  function Weight32(w: int): nat {
    w % WEIGHT_MOD
  }

  /** Where a value was allocated: cell `off` of the arena of generation `gen`. */
  datatype Cell = Cell(gen: nat, off: nat)

  /** What the shard reads of an entry. */
  datatype Body = Body(h: nat, key: Key, cell: Cell)

  /** `body` and `clock.tab` hold every entry ever created, the index only the reachable ones. */
  datatype Shard = Shard(index: map<nat, nat>, clock: ClockState, body: seq<Body>, gens: Gen.Gens, hash: Key -> nat)

  datatype Answer = Miss | Hit(val: Value) | Dangling

  function Empty(capBytes: nat, hash: Key -> nat): (s: Shard)
    requires capBytes > 0
    ensures Shaped(s)
  {
    Shard(map[], Ops.Empty(capBytes), [], Gen.New(capBytes), hash)
  }

  /** The index reaches an entry with key `k`. */
  predicate Holds(s: Shard, k: Key) {
    var h := s.hash(k);
    h in s.index && s.index[h] < |s.body| && s.body[s.index[h]].key == k
  }

  // ---------------------------------------------------------------- what every operation keeps

  predicate Indexed(s: Shard) {
    && |s.body| == |s.clock.tab|
    && (forall h | h in s.index :: s.index[h] < |s.body| && s.body[s.index[h]].h == h)
    && (forall e | 0 <= e < |s.body| :: s.body[e].h == s.hash(s.body[e].key))
  }

  /** An entry's cell lies in the generation its 32-bit id names, and is still there while that one is live. */
  predicate CellAt(s: Shard, e: nat)
    requires e < |s.body| && e < |s.clock.tab|
  {
    var c := s.body[e].cell;
    && c.gen < |s.gens.mem|
    && s.clock.tab[e].gen == Gen.Id(c.gen)
    && (Gen.Live(|s.gens.mem|, c.gen) ==> c.off < |s.gens.mem[c.gen]|)
  }

  ghost predicate Shaped(s: Shard) {
    && Indexed(s)
    && Ops.Valid(s.clock)
    && Gen.WellFormed(s.gens)
    && forall e | 0 <= e < |s.body| :: CellAt(s, e)
  }

  // ---------------------------------------------------------------- operations

  /** The update path: new value, weight and generation, same entry and same state byte. */
  function Overwrite(s: Shard, k: Key, v: Value, w: int): Shard
    requires Holds(s, k) && |s.gens.mem| > 0
  {
    var e, g := s.index[s.hash(k)], |s.gens.mem| - 1;
    s.(gens := Gen.Allocate(s.gens, v),
       body := s.body[e := s.body[e].(cell := Cell(g, |s.gens.mem[g]|))],
       clock := Ops.Update(s.clock, e, Weight32(w), Gen.Id(g)))
  }

  /** The insertion path up to the registration with the clock. */
  ghost function Add(s: Shard, k: Key, v: Value, w: int): Shard
    requires Ops.Valid(s.clock) && |s.gens.mem| > 0
  {
    var e, g := |s.body|, |s.gens.mem| - 1;
    s.(gens := Gen.Allocate(s.gens, v),
       body := s.body + [Body(s.hash(k), k, Cell(g, |s.gens.mem[g]|))],
       index := s.index[s.hash(k) := e],
       clock := Ops.Insert(s.clock, Weight32(w), Gen.Id(g)))
  }

  function Recorded(s: Shard, w: int): Shard
    requires |s.gens.bytes| > 0
  {
    s.(gens := Gen.Record(s.gens, w))
  }

  /** Once four generations exist, rotation frees the oldest one and the clock is told. */
  function Rotated(c: ClockState, created: nat): ClockState
    requires Within(c.ring, c.tab)
  {
    if created >= Gen.SLOTS then Ops.GenerationEvicted(c, Gen.Id(created - Gen.SLOTS)) else c
  }

  function Rotate(s: Shard): Shard
    requires Within(s.clock.ring, s.clock.tab)
  {
    s.(gens := Gen.Rotate(s.gens), clock := Rotated(s.clock, |s.gens.mem|))
  }

  function Settle(s: Shard): Shard
    requires Within(s.clock.ring, s.clock.tab) && |s.gens.bytes| > 0
  {
    if Gen.OverBudget(s.gens) then Rotate(s) else s
  }

  ghost function Put(s: Shard, k: Key, v: Value, w: int): Shard
    requires Shaped(s)
  {
    if Holds(s, k) then Overwrite(s, k, v, w) else Settle(Recorded(Add(s, k, v, w), w))
  }

  /** What dereferencing an entry's pointer yields. */
  function Read(s: Shard, c: Cell): Answer {
    if c.gen < |s.gens.mem| && c.off < |s.gens.mem[c.gen]| then Hit(s.gens.mem[c.gen][c.off]) else Dangling
  }

  function Touched(s: Shard, k: Key): Shard {
    if Holds(s, k) then s.(clock := Ops.SetReferenced(s.clock, s.index[s.hash(k)])) else s
  }

  function Get(s: Shard, k: Key): Answer {
    if Holds(s, k) then Read(s, s.body[s.index[s.hash(k)]].cell) else Miss
  }

  function Delete(s: Shard, k: Key): Shard {
    if Holds(s, k) then
      s.(index := s.index - {s.hash(k)}, clock := Ops.Remove(s.clock, s.index[s.hash(k)]))
    else s
  }

  datatype Op =
    | OpPut(k: Key, v: Value, w: int)
    | OpGet(k: Key)
    | OpDelete(k: Key)
    | OpRotate

  ghost function Apply(s: Shard, op: Op): Shard
    requires Shaped(s)
  {
    match op
    case OpPut(k, v, w) => Put(s, k, v, w)
    case OpGet(k) => Touched(s, k)
    case OpDelete(k) => Delete(s, k)
    case OpRotate => Rotate(s)
  }

  // ---------------------------------------------------------------- the shape is kept

  lemma OverwriteShaped(s: Shard, k: Key, v: Value, w: int)
    requires Shaped(s) && Holds(s, k)
    ensures Shaped(Overwrite(s, k, v, w))
  {
    var e, t := s.index[s.hash(k)], Overwrite(s, k, v, w);
    Ops.UpdateAccounts(s.clock, e, Weight32(w), Gen.Id(|s.gens.mem| - 1));
    forall x | 0 <= x < |t.body|
      ensures CellAt(t, x)
    {
      assert CellAt(s, x);
    }
  }

  lemma AddShaped(s: Shard, k: Key, v: Value, w: int)
    requires Shaped(s)
    ensures Shaped(Add(s, k, v, w))
  {
    var e, g, t := |s.body|, |s.gens.mem| - 1, Add(s, k, v, w);
    Ops.InsertEntries(s.clock, Weight32(w), Gen.Id(g));
    forall x | 0 <= x < |t.body|
      ensures CellAt(t, x)
    {
      if x < e {
        assert CellAt(s, x);
      }
    }
  }

  lemma RotateShaped(s: Shard)
    requires Shaped(s)
    ensures Shaped(Rotate(s))
  {
    var t, n := Rotate(s), |s.gens.mem|;
    Gen.RotateWellFormed(s.gens);
    if n >= Gen.SLOTS {
      Ops.GenerationEvictedAccounts(s.clock, Gen.Id(n - Gen.SLOTS));
      Ops.GenerationEvictedEntries(s.clock, Gen.Id(n - Gen.SLOTS));
    }
    forall x | 0 <= x < |t.body|
      ensures CellAt(t, x)
    {
      assert CellAt(s, x);
    }
  }

  lemma RecordedShaped(s: Shard, w: int)
    requires Shaped(s)
    ensures Shaped(Recorded(s, w))
  {
    forall x | 0 <= x < |s.body|
      ensures CellAt(Recorded(s, w), x)
    {
      assert CellAt(s, x);
    }
  }

  lemma PutShaped(s: Shard, k: Key, v: Value, w: int)
    requires Shaped(s)
    ensures Shaped(Put(s, k, v, w))
    ensures !Holds(s, k) ==> Shaped(Add(s, k, v, w)) && Shaped(Recorded(Add(s, k, v, w), w))
  {
    if Holds(s, k) {
      OverwriteShaped(s, k, v, w);
    } else {
      AddShaped(s, k, v, w);
      RecordedShaped(Add(s, k, v, w), w);
      RotateShaped(Recorded(Add(s, k, v, w), w));
    }
  }

  lemma TouchedShaped(s: Shard, k: Key)
    requires Shaped(s)
    ensures Shaped(Touched(s, k))
  {
    if Holds(s, k) {
      Ops.SetReferencedAccounts(s.clock, s.index[s.hash(k)]);
      forall x | 0 <= x < |s.body|
        ensures CellAt(Touched(s, k), x)
      {
        assert CellAt(s, x);
      }
    }
  }

  lemma DeleteShaped(s: Shard, k: Key)
    requires Shaped(s)
    ensures Shaped(Delete(s, k))
  {
    if Holds(s, k) {
      Ops.RemoveAccounts(s.clock, s.index[s.hash(k)]);
      Ops.RemoveSize(s.clock, s.index[s.hash(k)]);
      forall x | 0 <= x < |s.body|
        ensures CellAt(Delete(s, k), x)
      {
        assert CellAt(s, x);
      }
    }
  }

  lemma ApplyShaped(s: Shard, op: Op)
    requires Shaped(s)
    ensures Shaped(Apply(s, op))
  {
    match op
    case OpPut(k, v, w) => PutShaped(s, k, v, w);
    case OpGet(k) => TouchedShaped(s, k);
    case OpDelete(k) => DeleteShaped(s, k);
    case OpRotate => RotateShaped(s);
  }

  /** The answers to the lookups of a run, in order. */
  ghost function Answers(s: Shard, ops: seq<Op>): seq<Answer>
    requires Shaped(s)
    decreases |ops|
  {
    if ops == [] then []
    else
      ApplyShaped(s, ops[0]);
      Reply(s, ops[0]) + Answers(Apply(s, ops[0]), ops[1..])
  }

  function Reply(s: Shard, op: Op): seq<Answer> {
    if op.OpGet? then [Get(s, op.k)] else []
  }

  ghost function RunShard(s: Shard, ops: seq<Op>): (t: Shard)
    requires Shaped(s)
    ensures Shaped(t)
    decreases |ops|
  {
    if ops == [] then s
    else
      ApplyShaped(s, ops[0]);
      RunShard(Apply(s, ops[0]), ops[1..])
  }

  lemma RunOne(s: Shard, op: Op)
    requires Shaped(s)
    ensures RunShard(s, [op]) == Apply(s, op)
  {
    ApplyShaped(s, op);
    assert [op][1..] == [];
    assert RunShard(Apply(s, op), []) == Apply(s, op);
  }

  lemma RunTwo(s: Shard, ops: seq<Op>)
    requires Shaped(s) && |ops| == 2
    ensures Shaped(Apply(s, ops[0])) && RunShard(s, ops) == Apply(Apply(s, ops[0]), ops[1])
  {
    ApplyShaped(s, ops[0]);
    ApplyShaped(Apply(s, ops[0]), ops[1]);
    assert ops[1..] == [ops[1]] && ops[1..][1..] == [];
    assert RunShard(Apply(s, ops[0]), ops[1..]) == RunShard(Apply(Apply(s, ops[0]), ops[1]), []);
  }

  lemma {:induction false} RunMore(s: Shard, ops: seq<Op>, more: seq<Op>)
    requires Shaped(s)
    ensures RunShard(s, ops + more) == RunShard(RunShard(s, ops), more)
    decreases |ops|
  {
    if ops == [] {
      assert ops + more == more;
    } else {
      assert (ops + more)[1..] == ops[1..] + more;
      ApplyShaped(s, ops[0]);
      RunMore(Apply(s, ops[0]), ops[1..], more);
    }
  }
}
