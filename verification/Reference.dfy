/**
 What a client sees of a shard, without clock, ring or arenas: one slot per hash, the latest put
 wins, and a value can be read back until four rotations have passed since it was put.
 */
module Reference {
  import opened Types
  import opened ShardSpec
  import Ops = ClockOps
  import Gen = Generations

  /** `w` is the weight of the last put. */
  datatype Slot = Slot(key: Key, val: Value, born: nat, w: int)

  /** `filled` is what insertions have charged since the last rotation, `rotations` how many there were. */
  datatype Ref = Ref(slots: map<nat, Slot>, rotations: nat, filled: int, perGen: int, hash: Key -> nat)

  function Start(capBytes: nat, hash: Key -> nat): Ref {
    Ref(map[], 0, 0, if capBytes < 4 then capBytes else capBytes / 4, hash)
  }

  predicate Has(r: Ref, k: Key) {
    r.hash(k) in r.slots && r.slots[r.hash(k)].key == k
  }

  function Turn(r: Ref): Ref {
    r.(rotations := r.rotations + 1, filled := 0)
  }

  function RefPut(r: Ref, k: Key, v: Value, w: int): Ref {
    var r' := r.(slots := r.slots[r.hash(k) := Slot(k, v, r.rotations, w)]);
    if Has(r, k) then r'
    else if r.filled + w > r.perGen then Turn(r')
    else r'.(filled := r.filled + w)
  }

  function RefDelete(r: Ref, k: Key): Ref {
    if Has(r, k) then r.(slots := r.slots - {r.hash(k)}) else r
  }

  function RefApply(r: Ref, op: Op): Ref {
    match op
    case OpPut(k, v, w) => RefPut(r, k, v, w)
    case OpGet(k) => r
    case OpDelete(k) => RefDelete(r, k)
    case OpRotate => Turn(r)
  }

  function RefRun(r: Ref, ops: seq<Op>): Ref
    decreases |ops|
  {
    if ops == [] then r else RefRun(RefApply(r, ops[0]), ops[1..])
  }

  /** The latest value put under `k`, if its arena outlived the rotations since. */
  function RefGet(r: Ref, k: Key): Answer {
    if !Has(r, k) then Miss
    else if r.rotations - r.slots[r.hash(k)].born < 4 then Hit(r.slots[r.hash(k)].val)
    else Dangling
  }

  // ---------------------------------------------------------------- the shard refines the reference

  ghost predicate SlotAgrees(s: Shard, r: Ref, h: nat)
    requires Shaped(s) && h in s.index && h in r.slots
  {
    var b, x := s.body[s.index[h]], r.slots[h];
    assert CellAt(s, s.index[h]);
    && b.key == x.key && b.cell.gen == x.born
    && s.clock.tab[s.index[h]].weight == x.w % 0x1_0000_0000
    && (Gen.Live(|s.gens.mem|, b.cell.gen) ==> s.gens.mem[b.cell.gen][b.cell.off] == x.val)
  }

  ghost predicate Agrees(s: Shard, r: Ref)
    requires Shaped(s)
  {
    && s.hash == r.hash && s.gens.perGen == r.perGen
    && |s.gens.mem| == r.rotations + 1 && s.gens.bytes[r.rotations] == r.filled
    && (forall h :: h in s.index <==> h in r.slots)
    && forall h | h in s.index :: SlotAgrees(s, r, h)
  }

  lemma StartAgrees(capBytes: nat, hash: Key -> nat)
    requires capBytes > 0
    ensures Agrees(Empty(capBytes, hash), Start(capBytes, hash))
  {
  }

  lemma OverwriteAgrees(s: Shard, r: Ref, k: Key, v: Value, w: int)
    requires Shaped(s) && Agrees(s, r) && Holds(s, k)
    ensures Shaped(Overwrite(s, k, v, w)) && Has(r, k) && Agrees(Overwrite(s, k, v, w), RefPut(r, k, v, w))
  {
    OverwriteShaped(s, k, v, w);
    var t, q := Overwrite(s, k, v, w), RefPut(r, k, v, w);
    assert SlotAgrees(s, r, s.hash(k));
    forall h | h in t.index
      ensures SlotAgrees(t, q, h)
    {
      assert SlotAgrees(s, r, h);
      assert CellAt(s, s.index[h]);
    }
  }

  lemma AddAgrees(s: Shard, r: Ref, k: Key, v: Value, w: int)
    requires Shaped(s) && Agrees(s, r) && !Holds(s, k)
    ensures !Has(r, k)
    ensures var t := Add(s, k, v, w);
      Shaped(t) && Agrees(t, r.(slots := r.slots[r.hash(k) := Slot(k, v, r.rotations, w)]))
  {
    AddShaped(s, k, v, w);
    Ops.InsertEntries(s.clock, Weight32(w), Gen.Id(|s.gens.mem| - 1));
    var t, q := Add(s, k, v, w), r.(slots := r.slots[r.hash(k) := Slot(k, v, r.rotations, w)]);
    if s.hash(k) in s.index {
      assert SlotAgrees(s, r, s.hash(k));
    }
    forall h | h in t.index
      ensures SlotAgrees(t, q, h)
    {
      if h != s.hash(k) {
        assert SlotAgrees(s, r, h);
        assert CellAt(s, s.index[h]);
      }
    }
  }

  lemma RecordedAgrees(s: Shard, r: Ref, w: int)
    requires Shaped(s) && Agrees(s, r)
    ensures Shaped(Recorded(s, w)) && Agrees(Recorded(s, w), r.(filled := r.filled + w))
  {
    RecordedShaped(s, w);
    forall h | h in s.index
      ensures SlotAgrees(Recorded(s, w), r.(filled := r.filled + w), h)
    {
      assert SlotAgrees(s, r, h);
    }
  }

  lemma RotateAgrees(s: Shard, r: Ref)
    requires Shaped(s) && Agrees(s, r)
    ensures Shaped(Rotate(s)) && Agrees(Rotate(s), Turn(r))
  {
    RotateShaped(s);
    if |s.gens.mem| >= Gen.SLOTS {
      Ops.GenerationEvictedEntries(s.clock, Gen.Id(|s.gens.mem| - Gen.SLOTS));
    }
    forall h | h in s.index
      ensures SlotAgrees(Rotate(s), Turn(r), h)
    {
      assert SlotAgrees(s, r, h);
      assert CellAt(s, s.index[h]);
    }
  }

  lemma TouchedAgrees(s: Shard, r: Ref, k: Key)
    requires Shaped(s) && Agrees(s, r)
    ensures Shaped(Touched(s, k)) && Agrees(Touched(s, k), r)
  {
    TouchedShaped(s, k);
    forall h | h in s.index
      ensures SlotAgrees(Touched(s, k), r, h)
    {
      assert SlotAgrees(s, r, h);
    }
  }

  lemma DeleteAgrees(s: Shard, r: Ref, k: Key)
    requires Shaped(s) && Agrees(s, r)
    ensures Shaped(Delete(s, k)) && Agrees(Delete(s, k), RefDelete(r, k))
  {
    DeleteShaped(s, k);
    if s.hash(k) in s.index {
      assert SlotAgrees(s, r, s.hash(k));
    }
    forall h | h in Delete(s, k).index
      ensures SlotAgrees(Delete(s, k), RefDelete(r, k), h)
    {
      assert SlotAgrees(s, r, h);
    }
  }

  lemma PutAgrees(s: Shard, r: Ref, k: Key, v: Value, w: int)
    requires Shaped(s) && Agrees(s, r)
    ensures Shaped(Put(s, k, v, w)) && Agrees(Put(s, k, v, w), RefPut(r, k, v, w))
  {
    if Holds(s, k) {
      OverwriteAgrees(s, r, k, v, w);
    } else {
      AddAgrees(s, r, k, v, w);
      var t, q := Add(s, k, v, w), r.(slots := r.slots[r.hash(k) := Slot(k, v, r.rotations, w)]);
      RecordedAgrees(t, q, w);
      if Gen.OverBudget(Recorded(t, w).gens) {
        RotateAgrees(Recorded(t, w), q.(filled := q.filled + w));
      }
    }
  }

  lemma ApplyAgrees(s: Shard, r: Ref, op: Op)
    requires Shaped(s) && Agrees(s, r)
    ensures Shaped(Apply(s, op)) && Agrees(Apply(s, op), RefApply(r, op))
  {
    match op
    case OpPut(k, v, w) => PutAgrees(s, r, k, v, w);
    case OpGet(k) => TouchedAgrees(s, r, k);
    case OpDelete(k) => DeleteAgrees(s, r, k);
    case OpRotate => RotateAgrees(s, r);
  }

  lemma {:induction false} RunAgrees(s: Shard, r: Ref, ops: seq<Op>)
    requires Shaped(s) && Agrees(s, r)
    ensures Agrees(RunShard(s, ops), RefRun(r, ops))
    decreases |ops|
  {
    if ops != [] {
      ApplyAgrees(s, r, ops[0]);
      RunAgrees(Apply(s, ops[0]), RefApply(r, ops[0]), ops[1..]);
    }
  }

  lemma GetAgrees(s: Shard, r: Ref, k: Key)
    requires Shaped(s) && Agrees(s, r)
    ensures Get(s, k) == RefGet(r, k)
  {
    if s.hash(k) in s.index {
      assert SlotAgrees(s, r, s.hash(k));
      assert CellAt(s, s.index[s.hash(k)]);
    }
  }

  /**
   After any run the shard answers `get` as the reference does: a miss exactly when the slot does not
   hold the key, else the latest value put if fewer than four rotations followed that put, and
   otherwise a read of a freed arena. Evictions never show.
   */
  lemma ShardRefinesReference(capBytes: nat, hash: Key -> nat, ops: seq<Op>, k: Key)
    requires capBytes > 0
    ensures Get(RunShard(Empty(capBytes, hash), ops), k) == RefGet(RefRun(Start(capBytes, hash), ops), k)
  {
    StartAgrees(capBytes, hash);
    RunAgrees(Empty(capBytes, hash), Start(capBytes, hash), ops);
    GetAgrees(RunShard(Empty(capBytes, hash), ops), RefRun(Start(capBytes, hash), ops), k);
  }

  function RefAnswers(r: Ref, ops: seq<Op>): seq<Answer>
    decreases |ops|
  {
    if ops == [] then []
    else (if ops[0].OpGet? then [RefGet(r, ops[0].k)] else []) + RefAnswers(RefApply(r, ops[0]), ops[1..])
  }

  lemma {:induction false} AnswersAgree(s: Shard, r: Ref, ops: seq<Op>)
    requires Shaped(s) && Agrees(s, r)
    ensures Answers(s, ops) == RefAnswers(r, ops)
    decreases |ops|
  {
    if ops != [] {
      if ops[0].OpGet? {
        GetAgrees(s, r, ops[0].k);
      }
      ApplyAgrees(s, r, ops[0]);
      AnswersAgree(Apply(s, ops[0]), RefApply(r, ops[0]), ops[1..]);
    }
  }

  // ---------------------------------------------------------------- when reading is safe

  /** Rotations `ops` causes from `r` on. */
  function RotationsIn(r: Ref, ops: seq<Op>): int {
    RefRun(r, ops).rotations - r.rotations
  }

  predicate Mentions(op: Op, hash: Key -> nat, h: nat) {
    (op.OpPut? || op.OpDelete?) && hash(op.k) == h
  }

  /** A slot nobody puts to or deletes from is left alone. */
  lemma {:induction false} SlotUntouched(r: Ref, ops: seq<Op>, h: nat)
    requires forall i | 0 <= i < |ops| :: !Mentions(ops[i], r.hash, h)
    ensures var q := RefRun(r, ops);
      && q.hash == r.hash && q.rotations >= r.rotations
      && (h in q.slots <==> h in r.slots)
      && (h in r.slots ==> q.slots[h] == r.slots[h])
    decreases |ops|
  {
    if ops != [] {
      assert !Mentions(ops[0], r.hash, h);
      SlotUntouched(RefApply(r, ops[0]), ops[1..], h);
    }
  }

  lemma {:induction false} RefRunConcat(r: Ref, a: seq<Op>, b: seq<Op>)
    ensures RefRun(r, a + b) == RefRun(RefRun(r, a), b)
    decreases |a|
  {
    if a == [] {
      assert a + b == b;
    } else {
      assert (a + b)[1..] == a[1..] + b;
      RefRunConcat(RefApply(r, a[0]), a[1..], b);
    }
  }

  /** In the reference, a put is read back exactly until the fourth rotation, its own included. */
  lemma PutThenGet(r: Ref, k: Key, v: Value, w: int, after: seq<Op>)
    requires forall i | 0 <= i < |after| :: !Mentions(after[i], r.hash, r.hash(k))
    ensures RefGet(RefRun(r, [OpPut(k, v, w)] + after), k) ==
      if RotationsIn(r, [OpPut(k, v, w)] + after) < 4 then Hit(v) else Dangling
  {
    assert ([OpPut(k, v, w)] + after)[1..] == after;
    SlotUntouched(RefPut(r, k, v, w), after, r.hash(k));
  }

  /**
   The claim that a stored value can always be read safely holds exactly up to the fourth rotation:
   reading a key back after its put gives the value if and only if fewer than four rotations followed,
   counting one the put itself caused.
   */
  lemma ReadBackIff(capBytes: nat, hash: Key -> nat, before: seq<Op>, k: Key, v: Value, w: int, after: seq<Op>)
    requires capBytes > 0
    requires forall i | 0 <= i < |after| :: !Mentions(after[i], hash, hash(k))
    ensures Get(RunShard(Empty(capBytes, hash), before + ([OpPut(k, v, w)] + after)), k) ==
      var r := RefRun(Start(capBytes, hash), before);
      if RotationsIn(r, [OpPut(k, v, w)] + after) < 4 then Hit(v) else Dangling
  {
    var start := Start(capBytes, hash);
    HashKept(start, before);
    ShardRefinesReference(capBytes, hash, before + ([OpPut(k, v, w)] + after), k);
    RefRunConcat(start, before, [OpPut(k, v, w)] + after);
    PutThenGet(RefRun(start, before), k, v, w, after);
  }

  /**
   After any run the entry of a slot has the weight of the last put modulo 2^32, and its id names the
   generation that put went to, be the entry a resident or a ghost, linked or not.
   */
  lemma LastPutCounts(capBytes: nat, hash: Key -> nat, before: seq<Op>, k: Key, v: Value, w: int, after: seq<Op>)
    requires capBytes > 0
    requires forall i | 0 <= i < |after| :: !Mentions(after[i], hash, hash(k))
    ensures var s := RunShard(Empty(capBytes, hash), before + ([OpPut(k, v, w)] + after));
      var gen := RefRun(Start(capBytes, hash), before).rotations;
      && hash(k) in s.index && s.body[s.index[hash(k)]].key == k
      && s.clock.tab[s.index[hash(k)]].weight == w % 0x1_0000_0000
      && (gen < 0xFFFF_FFFF ==> s.clock.tab[s.index[hash(k)]].gen == gen + 1)
  {
    var ops, start := before + ([OpPut(k, v, w)] + after), Start(capBytes, hash);
    var s, r := RunShard(Empty(capBytes, hash), ops), RefRun(start, before);
    StartAgrees(capBytes, hash);
    RunAgrees(Empty(capBytes, hash), start, ops);
    RefRunConcat(start, before, [OpPut(k, v, w)] + after);
    HashKept(start, before);
    assert ([OpPut(k, v, w)] + after)[1..] == after;
    SlotUntouched(RefPut(r, k, v, w), after, hash(k));
    assert SlotAgrees(s, RefRun(start, ops), hash(k));
    assert CellAt(s, s.index[hash(k)]);
    Gen.IdValues(r.rotations);
  }

  /** Once a key is deleted, or another key was put into its slot, it is missed until its slot is put to again. */
  lemma DeletedIsMissed(capBytes: nat, hash: Key -> nat, before: seq<Op>, op: Op, k: Key, after: seq<Op>)
    requires capBytes > 0
    requires op == OpDelete(k) || (op.OpPut? && op.k != k && hash(op.k) == hash(k))
    requires forall i | 0 <= i < |after| :: !Mentions(after[i], hash, hash(k))
    ensures Get(RunShard(Empty(capBytes, hash), before + ([op] + after)), k) == Miss
  {
    var start := Start(capBytes, hash);
    var r := RefRun(start, before);
    HashKept(start, before);
    ShardRefinesReference(capBytes, hash, before + ([op] + after), k);
    RefRunConcat(start, before, [op] + after);
    assert ([op] + after)[1..] == after;
    SlotUntouched(RefApply(r, op), after, hash(k));
  }

  lemma {:induction false} HashKept(r: Ref, ops: seq<Op>)
    ensures RefRun(r, ops).hash == r.hash
    decreases |ops|
  {
    if ops != [] {
      HashKept(RefApply(r, ops[0]), ops[1..]);
    }
  }

  /** One put of the same weight for each key. */
  function Puts(keys: seq<Key>, v: Value, w: int): (ops: seq<Op>)
    ensures |ops| == |keys| && forall i | 0 <= i < |keys| :: ops[i] == OpPut(keys[i], v, w)
  {
    if keys == [] then [] else [OpPut(keys[0], v, w)] + Puts(keys[1..], v, w)
  }

  /** No two of the keys share a slot. */
  predicate Apart(keys: seq<Key>, hash: Key -> nat) {
    forall i, j | 0 <= i < j < |keys| :: hash(keys[i]) != hash(keys[j])
  }

  /** Puts of new keys that outweigh a generation's budget rotate once each. */
  lemma {:induction false} HeavyPutsRotate(r: Ref, keys: seq<Key>, v: Value, w: int)
    requires Apart(keys, r.hash) && forall i | 0 <= i < |keys| :: r.hash(keys[i]) !in r.slots
    requires w > r.perGen && r.filled >= 0
    ensures RotationsIn(r, Puts(keys, v, w)) == |keys|
    decreases |keys|
  {
    if keys != [] {
      assert Puts(keys, v, w)[1..] == Puts(keys[1..], v, w);
      HeavyPutsRotate(RefPut(r, keys[0], v, w), keys[1..], v, w);
    }
  }

  /**
   Arena comments promise that freed data is never read because its entries are ghosts or gone by
   then; but `get` does not look at the TEST bit. A client reads freed memory by putting a value and
   then four more keys, each heavier than a generation's budget: every such put frees the next arena.
   */
  lemma FreedValueIsRead(capBytes: nat, hash: Key -> nat, k: Key, v: Value, keys: seq<Key>, u: Value, w: int)
    requires capBytes > 0 && w > Start(capBytes, hash).perGen && Apart([k] + keys, hash)
    ensures Get(RunShard(Empty(capBytes, hash), [OpPut(k, v, 0)] + Puts(keys, u, w)), k) ==
      if |keys| < 4 then Hit(v) else Dangling
  {
    var after, start := Puts(keys, u, w), Start(capBytes, hash);
    var r := RefPut(start, k, v, 0);
    assert forall i | 0 <= i < |keys| :: keys[i] == ([k] + keys)[i + 1];
    assert ([k] + keys)[0] == k;
    assert forall i | 0 <= i < |keys| :: hash(k) != hash(keys[i]);
    assert Apart(keys, hash);
    HeavyPutsRotate(r, keys, u, w);
    ReadBackIff(capBytes, hash, [], k, v, 0, after);
    assert ([OpPut(k, v, 0)] + after)[1..] == after;
    assert [] + ([OpPut(k, v, 0)] + after) == [OpPut(k, v, 0)] + after;
  }
}
