/** Over whole runs of a shard: an indexed entry without the TEST bit never points into a freed arena. */
module ArenaSafety {
  import opened Types
  import opened ClockSpec
  import opened ShardSpec
  import Ops = ClockOps
  import Fates = EvictionFates
  import Order = EvictionOrder
  import Newest = NewestEntry
  import Gen = Generations

  /** Residents of the clock ring live in unfreed arenas. */
  ghost predicate RingLive(s: Shard)
    requires Shaped(s)
  {
    forall e | e in s.clock.ring && Resident(s.clock.tab[e]) :: Gen.Live(|s.gens.mem|, s.body[e].cell.gen)
  }

  /** Whatever the index reaches and is no ghost is a node of the clock ring. */
  ghost predicate IndexOnRing(s: Shard)
    requires Shaped(s)
  {
    forall h | h in s.index && Resident(s.clock.tab[s.index[h]]) :: s.index[h] in s.clock.ring
  }

  ghost predicate Safe(s: Shard)
    requires Shaped(s)
  {
    RingLive(s) && IndexOnRing(s)
  }

  lemma OverwriteSafe(s: Shard, k: Key, v: Value, w: int)
    requires Shaped(s) && Safe(s) && Holds(s, k)
    ensures Shaped(Overwrite(s, k, v, w)) && Safe(Overwrite(s, k, v, w))
  {
    OverwriteShaped(s, k, v, w);
  }

  lemma AddSafe(s: Shard, k: Key, v: Value, w: int)
    requires Shaped(s) && Safe(s)
    ensures Shaped(Add(s, k, v, w)) && Safe(Add(s, k, v, w))
  {
    AddShaped(s, k, v, w);
    var g, t := Gen.Id(|s.gens.mem| - 1), Add(s, k, v, w);
    var r := Ops.Register(s.clock, Weight32(w), g);
    Ops.InsertEntries(s.clock, Weight32(w), g);
    forall e | e in t.clock.ring && Resident(t.clock.tab[e])
      ensures Gen.Live(|t.gens.mem|, t.body[e].cell.gen)
    {
      assert e in r.ring;
    }
    assert r.ring[|s.clock.ring|] == |s.body|;
    forall h | h in t.index && Resident(t.clock.tab[t.index[h]])
      ensures t.index[h] in t.clock.ring
    {
      assert t.index[h] in r.ring;
    }
  }

  /** Rotation frees one generation, and exactly its entries were made ghosts. */
  lemma RotateSafe(s: Shard)
    requires Shaped(s) && Safe(s)
    ensures Shaped(Rotate(s)) && Safe(Rotate(s))
  {
    RotateShaped(s);
    var n, t := |s.gens.mem|, Rotate(s);
    if n >= Gen.SLOTS {
      var dead := n - Gen.SLOTS;
      Ops.GenerationEvictedEntries(s.clock, Gen.Id(dead));
      forall e | e in t.clock.ring && Resident(t.clock.tab[e])
        ensures Gen.Live(n + 1, t.body[e].cell.gen)
      {
        assert CellAt(s, e);
      }
    }
  }

  lemma TouchedSafe(s: Shard, k: Key)
    requires Shaped(s) && Safe(s)
    ensures Shaped(Touched(s, k)) && Safe(Touched(s, k))
  {
    TouchedShaped(s, k);
  }

  /** Only the slot of the deleted key pointed to its entry, so unlinking it strands no other slot. */
  lemma DeleteSafe(s: Shard, k: Key)
    requires Shaped(s) && Safe(s)
    ensures Shaped(Delete(s, k)) && Safe(Delete(s, k))
  {
    DeleteShaped(s, k);
    if Holds(s, k) && s.index[s.hash(k)] in s.clock.ring {
      Ops.WithoutMembers(s.clock.ring, s.index[s.hash(k)]);
    }
  }

  lemma ApplySafe(s: Shard, op: Op)
    requires Shaped(s) && Safe(s)
    ensures Shaped(Apply(s, op)) && Safe(Apply(s, op))
  {
    match op
    case OpPut(k, v, w) =>
      if Holds(s, k) {
        OverwriteSafe(s, k, v, w);
      } else {
        AddSafe(s, k, v, w);
        RecordedShaped(Add(s, k, v, w), w);
        RotateSafe(Recorded(Add(s, k, v, w), w));
      }
    case OpGet(k) => TouchedSafe(s, k);
    case OpDelete(k) => DeleteSafe(s, k);
    case OpRotate => RotateSafe(s);
  }

  lemma {:induction false} RunSafe(s: Shard, ops: seq<Op>)
    requires Shaped(s) && Safe(s)
    ensures Safe(RunShard(s, ops))
    decreases |ops|
  {
    if ops != [] {
      ApplySafe(s, ops[0]);
      RunSafe(Apply(s, ops[0]), ops[1..]);
    }
  }

  /**
   After any run of operations, whatever their weights, keys and hash collisions: an indexed entry
   without the TEST bit is on the clock ring, its id is that of a generation still in the buffer,
   and its pointer resolves.
   */
  lemma NoDanglingResident(capBytes: nat, hash: Key -> nat, ops: seq<Op>, h: nat)
    requires capBytes > 0
    ensures
      var s := RunShard(Empty(capBytes, hash), ops);
      h in s.index && Resident(s.clock.tab[s.index[h]]) ==>
        var e := s.index[h];
        && e in s.clock.ring
        && Gen.Live(|s.gens.mem|, s.body[e].cell.gen)
        && s.clock.tab[e].gen == Gen.Id(s.body[e].cell.gen)
        && Read(s, s.body[e].cell).Hit?
  {
    RunSafe(Empty(capBytes, hash), ops);
    var s := RunShard(Empty(capBytes, hash), ops);
    if h in s.index {
      assert CellAt(s, s.index[h]);
    }
  }

  lemma VictimWasResident(r: ClockState, e: nat)
    requires Evictable(r) && e in Order.Victims(r)
    ensures e in r.ring && e < |r.tab| && Resident(r.tab[e])
  {
    Fates.EvictionTheorem(r);
    Fates.RunFates(r);
    assert e in Order.Schedule(r.ring, r.tab);
    Newest.ScheduleMembers(r.ring, r.tab, 1);
    Newest.ScheduleMembers(r.ring, r.tab, 2);
    Newest.ScheduleMembers(r.ring, r.tab, 3);
  }

  lemma EjectedReadable(s: Shard, k: Key, v: Value, w: int, e: nat)
    requires Shaped(s) && Safe(s)
    ensures Shaped(Add(s, k, v, w)) && Evictable(BeforeEviction(s, w))
    ensures e in Order.Victims(BeforeEviction(s, w)) ==>
      e <= |s.body| && Read(Add(s, k, v, w), Add(s, k, v, w).body[e].cell).Hit?
  {
    AddShaped(s, k, v, w);
    Ops.RegisterEvictable(s.clock, Weight32(w), Gen.Id(|s.gens.mem| - 1));
    if e in Order.Victims(BeforeEviction(s, w)) {
      VictimWasResident(BeforeEviction(s, w), e);
      if e < |s.body| {
        assert CellAt(s, e);
      }
    }
  }

  /** The clock of an insertion when its eviction loop starts. */
  function BeforeEviction(s: Shard, w: int): ClockState
    requires |s.gens.mem| > 0
  {
    Ops.Register(s.clock, Weight32(w), Gen.Id(|s.gens.mem| - 1))
  }

  /**
   The ejection hook dereferences the pointer of the entry it is called with. In every run, whatever an
   insertion ejects, that pointer still resolves.
   */
  lemma HookNeverDangles(capBytes: nat, hash: Key -> nat, ops: seq<Op>, k: Key, v: Value, w: int, e: nat)
    requires capBytes > 0
    ensures
      var s := RunShard(Empty(capBytes, hash), ops);
      && Evictable(BeforeEviction(s, w))
      && (e in Order.Victims(BeforeEviction(s, w)) ==>
          e <= |s.body| && Read(Add(s, k, v, w), Add(s, k, v, w).body[e].cell).Hit?)
  {
    RunSafe(Empty(capBytes, hash), ops);
    EjectedReadable(RunShard(Empty(capBytes, hash), ops), k, v, w, e);
  }

  /**
   Freeing a generation makes ghosts of its own residents only, although 32-bit ids are reused, and before
   there are four generations nothing is freed.
   */
  lemma OnlyTheFreedGeneration(s: Shard, e: nat)
    requires Shaped(s) && Safe(s) && e in s.clock.ring
    ensures Shaped(Rotate(s))
    ensures Resident(s.clock.tab[e]) && !Resident(Rotate(s).clock.tab[e]) <==>
      Resident(s.clock.tab[e]) && s.body[e].cell.gen + 4 == |s.gens.mem|
  {
    RotateShaped(s);
    assert CellAt(s, e);
    if |s.gens.mem| >= Gen.SLOTS {
      var dead := |s.gens.mem| - Gen.SLOTS;
      Ops.GenerationEvictedEntries(s.clock, Gen.Id(dead));
      if s.body[e].cell.gen > dead && Resident(s.clock.tab[e]) {
        Gen.IdsDiffer(|s.gens.mem|, dead, s.body[e].cell.gen);
      }
    }
  }
}
