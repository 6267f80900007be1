/** What all shards of a cache hold together, against the capacity the cache was created with. */
module CacheCapacity {
  import opened Types
  import opened ClockSpec
  import opened ShardSpec
  import opened Capacity
  import opened CacheSpec
  import Ops = ClockOps
  import Gen = Generations

  /** Weight of the residents of all shards. */
  ghost function Residents(shards: seq<Shard>): int
    requires forall i | 0 <= i < |shards| :: ShardSpec.Shaped(shards[i])
  {
    if shards == [] then 0
    else
      assert ShardSpec.Shaped(shards[0]);
      ResidentWeight(shards[0].clock) + Residents(shards[1..])
  }

  lemma OneMore(n: nat, each: int)
    ensures (n + 1) * each == n * each + each
  {
  }

  lemma {:induction false} ResidentsAtMost(shards: seq<Shard>, each: int)
    requires forall i | 0 <= i < |shards| :: ShardSpec.Shaped(shards[i]) && ResidentWeight(shards[i].clock) <= each
    ensures Residents(shards) <= |shards| * each
  {
    if shards != [] {
      ResidentsAtMost(shards[1..], each);
      OneMore(|shards| - 1, each);
    }
  }

  // ---------------------------------------------------------------- updates that raise no weight

  /** No put of the run replaces a resident's weight by a larger one. */
  ghost predicate NoUpdateRaises(c: Cache, ops: seq<CacheOp>)
    requires CacheSpec.Shaped(c)
    decreases |ops|
  {
    ops == [] ||
    (&& Raise(c.shards[Route(c, ops[0].k)], OnShard(ops[0])) <= 0
     && (ApplyRouted(c, ops[0]); NoUpdateRaises(CacheSpec.Apply(c, ops[0]), ops[1..])))
  }

  /** In every shard `size` covers the residents. */
  ghost predicate Covered(c: Cache, each: int)
    requires CacheSpec.Shaped(c)
  {
    forall i | 0 <= i < |c.shards| :: Phantom(c.shards[i].clock) >= 0 && c.shards[i].clock.cap == each
  }

  lemma {:induction false} RunCovered(c: Cache, ops: seq<CacheOp>, each: int)
    requires CacheSpec.Shaped(c) && Covered(c, each) && NoUpdateRaises(c, ops)
    ensures Covered(CacheSpec.Run(c, ops), each)
    decreases |ops|
  {
    if ops != [] {
      ApplyRouted(c, ops[0]);
      ApplyRaises(c.shards[Route(c, ops[0].k)], OnShard(ops[0]));
      RunCovered(CacheSpec.Apply(c, ops[0]), ops[1..], each);
    }
  }

  /**
   The capacity promise: if no update in place raises a resident's weight, then after any run of the
   public operations the residents of all shards together weigh at most `capBytes`.
   */
  lemma CapacityHolds(capBytes: int, ttl: int, shards: bv8, hashes: nat -> (Key -> nat), ops: seq<CacheOp>)
    requires New(capBytes, ttl, shards, hashes).Ok?
    requires NoUpdateRaises(New(capBytes, ttl, shards, hashes).cache, ops)
    ensures Residents(CacheSpec.Run(New(capBytes, ttl, shards, hashes).cache, ops).shards) <= capBytes
  {
    NewShaped(capBytes, ttl, shards, hashes);
    NewSucceedsIff(capBytes, ttl, shards, hashes);
    var c := New(capBytes, ttl, shards, hashes).cache;
    var d, each := CacheSpec.Run(c, ops), capBytes / |c.shards|;
    RunCovered(c, ops, each);
    ResidentsAtMost(d.shards, each);
  }

  // ---------------------------------------------------------------- any run

  /** What the clocks of all shards count. */
  function Sizes(shards: seq<Shard>): int {
    if shards == [] then 0 else shards[0].clock.size + Sizes(shards[1..])
  }

  /** What the updates of a run add to the weights of residents, reductions subtracted. */
  ghost function UpdatesRaise(c: Cache, ops: seq<CacheOp>): int
    requires CacheSpec.Shaped(c)
    decreases |ops|
  {
    if ops == [] then 0
    else
      ApplyRouted(c, ops[0]);
      Raise(c.shards[Route(c, ops[0].k)], OnShard(ops[0])) + UpdatesRaise(CacheSpec.Apply(c, ops[0]), ops[1..])
  }

  lemma {:induction false} ReplaceShard(shards: seq<Shard>, i: nat, t: Shard)
    requires i < |shards| && ShardSpec.Shaped(t) && forall j | 0 <= j < |shards| :: ShardSpec.Shaped(shards[j])
    ensures Residents(shards[i := t]) - Sizes(shards[i := t]) ==
      Residents(shards) - Sizes(shards) + Phantom(shards[i].clock) - Phantom(t.clock)
  {
    if i == 0 {
      assert shards[0 := t][1..] == shards[1..];
    } else {
      assert shards[i := t][1..] == shards[1..][i - 1 := t];
      ReplaceShard(shards[1..], i - 1, t);
    }
  }

  lemma {:induction false} RunRaised(c: Cache, ops: seq<CacheOp>)
    requires CacheSpec.Shaped(c)
    ensures Residents(CacheSpec.Run(c, ops).shards) - Sizes(CacheSpec.Run(c, ops).shards) ==
      Residents(c.shards) - Sizes(c.shards) + UpdatesRaise(c, ops)
    decreases |ops|
  {
    if ops != [] {
      var i, d := Route(c, ops[0].k), CacheSpec.Apply(c, ops[0]);
      ApplyRouted(c, ops[0]);
      ApplyRaises(c.shards[i], OnShard(ops[0]));
      ReplaceShard(c.shards, i, d.shards[i]);
      assert d.shards == c.shards[i := d.shards[i]];
      RunRaised(d, ops[1..]);
    }
  }

  lemma {:induction false} NewEmpty(shards: seq<Shard>)
    requires forall i | 0 <= i < |shards| ::
      ShardSpec.Shaped(shards[i]) && shards[i].clock.size == 0 && shards[i].clock.ring == []
    ensures Residents(shards) == Sizes(shards) == 0
  {
    if shards != [] {
      NewEmpty(shards[1..]);
    }
  }

  /** In every run the residents of the whole cache weigh what the clocks count plus what updates raised. */
  lemma ResidentsExactly(capBytes: int, ttl: int, shards: bv8, hashes: nat -> (Key -> nat), ops: seq<CacheOp>)
    requires New(capBytes, ttl, shards, hashes).Ok?
    ensures var c := New(capBytes, ttl, shards, hashes).cache;
      Residents(CacheSpec.Run(c, ops).shards) == Sizes(CacheSpec.Run(c, ops).shards) + UpdatesRaise(c, ops)
  {
    NewShaped(capBytes, ttl, shards, hashes);
    var c := New(capBytes, ttl, shards, hashes).cache;
    NewEmpty(c.shards);
    RunRaised(c, ops);
  }

  // ---------------------------------------------------------------- steady weights

  /** Every entry has the weight its key always has. */
  ghost predicate Weighted(s: Shard, weight: Key -> int) {
    && |s.body| == |s.clock.tab|
    && forall e | 0 <= e < |s.body| :: s.clock.tab[e].weight == Weight32(weight(s.body[e].key))
  }

  lemma ApplyWeighted(s: Shard, op: Op, weight: Key -> int)
    requires ShardSpec.Shaped(s) && Weighted(s, weight) && (op.OpPut? ==> op.w == weight(op.k))
    ensures Weighted(ShardSpec.Apply(s, op), weight)
  {
    match op
    case OpPut(k, v, w) =>
      if !Holds(s, k) {
        PutShaped(s, k, v, w);
        Ops.InsertEntries(s.clock, Weight32(w), Gen.Id(|s.gens.mem| - 1));
        RotateWeighted(Recorded(Add(s, k, v, w), w), weight);
      }
    case OpGet(k) =>
    case OpDelete(k) =>
    case OpRotate => RotateWeighted(s, weight);
  }

  lemma RotateWeighted(s: Shard, weight: Key -> int)
    requires ShardSpec.Shaped(s) && Weighted(s, weight)
    ensures Weighted(Rotate(s), weight)
  {
    if |s.gens.mem| >= Gen.SLOTS {
      Ops.GenerationEvictedEntries(s.clock, Gen.Id(|s.gens.mem| - Gen.SLOTS));
    }
  }

  predicate SteadyPuts(ops: seq<CacheOp>, weight: Key -> int) {
    forall i | 0 <= i < |ops| :: ops[i].OpPut? ==> ops[i].w == weight(ops[i].k)
  }

  /** If every put of a key gives it the same weight, no update raises one. */
  lemma {:induction false} SteadyNeverRaises(c: Cache, ops: seq<CacheOp>, weight: Key -> int)
    requires CacheSpec.Shaped(c) && SteadyPuts(ops, weight)
    requires forall i | 0 <= i < |c.shards| :: Weighted(c.shards[i], weight)
    ensures NoUpdateRaises(c, ops)
    decreases |ops|
  {
    if ops != [] {
      var i := Route(c, ops[0].k);
      assert ops[0].OpPut? ==> ops[0].w == weight(ops[0].k);
      ApplyRouted(c, ops[0]);
      ApplyWeighted(c.shards[i], OnShard(ops[0]), weight);
      SteadyNeverRaises(CacheSpec.Apply(c, ops[0]), ops[1..], weight);
    }
  }

  /** The capacity promise for keys of steady weight. */
  lemma SteadyCapacityHolds(capBytes: int, ttl: int, shards: bv8, hashes: nat -> (Key -> nat),
                            ops: seq<CacheOp>, weight: Key -> int)
    requires New(capBytes, ttl, shards, hashes).Ok? && SteadyPuts(ops, weight)
    ensures NoUpdateRaises(New(capBytes, ttl, shards, hashes).cache, ops)
    ensures Residents(CacheSpec.Run(New(capBytes, ttl, shards, hashes).cache, ops).shards) <= capBytes
  {
    NewShaped(capBytes, ttl, shards, hashes);
    SteadyNeverRaises(New(capBytes, ttl, shards, hashes).cache, ops, weight);
    CapacityHolds(capBytes, ttl, shards, hashes, ops);
  }
}
