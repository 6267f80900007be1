/** The capacity over whole runs: what keeps the residents within it, and for how many further puts. */
module CapacityRuns {
  import opened RingSums
  import opened Types
  import opened ClockSpec
  import opened ShardSpec
  import opened EvictionOrder
  import opened Capacity
  import Ops = ClockOps
  import Gen = Generations
  import Ref = Reference
  import Trace = ShardClock

  const HEAVIEST := WEIGHT_MOD - 1

  /** What `n` entries of the heaviest weight weigh. */
  function Heaviest(n: nat): nat {
    n * 0xFFFF_FFFF
  }

  /** What the operations of a run add to the residents' weight beyond `size`. */
  ghost function TotalRaise(s: Shard, ops: seq<Op>): int
    requires Shaped(s)
    decreases |ops|
  {
    if ops == [] then 0
    else
      ApplyShaped(s, ops[0]);
      Raise(s, ops[0]) + TotalRaise(Apply(s, ops[0]), ops[1..])
  }

  lemma {:induction false} RunRaises(s: Shard, ops: seq<Op>)
    requires Shaped(s)
    ensures RunShard(s, ops).clock.cap == s.clock.cap
    ensures Phantom(RunShard(s, ops).clock) == Phantom(s.clock) - TotalRaise(s, ops)
    decreases |ops|
  {
    if ops != [] {
      ApplyRaises(s, ops[0]);
      RunRaises(Apply(s, ops[0]), ops[1..]);
    }
  }

  /** These are the drifts of the clock's own operations. */
  lemma RaisesAreDrifts(s: Shard, ops: seq<Op>)
    requires Shaped(s)
    ensures TotalRaise(s, ops) == Ops.TotalDrift(s.clock, Trace.RunTrace(s, ops))
  {
    RunRaises(s, ops);
    Trace.RunClock(s, ops);
    Ops.DriftLaw(s.clock, Trace.RunTrace(s, ops));
  }

  /** After any run the residents weigh `size` and all raises together; they fit if those add up to at most zero. */
  lemma RunWithinCapacity(capBytes: nat, hash: Key -> nat, ops: seq<Op>)
    requires capBytes > 0
    ensures var s, raised := RunShard(Empty(capBytes, hash), ops), TotalRaise(Empty(capBytes, hash), ops);
      && s.clock.cap == capBytes && s.clock.size <= capBytes
      && ResidentWeight(s.clock) == s.clock.size + raised
      && (raised <= 0 ==> ResidentWeight(s.clock) <= capBytes)
  {
    RunRaises(Empty(capBytes, hash), ops);
  }

  // ---------------------------------------------------------------- further insertions into the clock

  /** Insertions only, of 32-bit weights. */
  predicate Inserts(ops: seq<Ops.Op>) {
    forall i | 0 <= i < |ops| :: ops[i].OpInsert? && ops[i].weight < WEIGHT_MOD
  }

  lemma {:induction false} InsertsKeepPhantom(c: ClockState, ops: seq<Ops.Op>)
    requires Ops.Valid(c) && Inserts(ops)
    ensures Phantom(Ops.RunOps(c, ops)) == Phantom(c)
    decreases |ops|
  {
    if ops != [] {
      assert ops[0].OpInsert?;
      Ops.ApplyAccounts(c, ops[0]);
      InsertsKeepPhantom(Ops.Apply(c, ops[0]), ops[1..]);
    }
  }

  /** Insertions that add `n` to `size`. */
  lemma {:induction false} FillClock(c: ClockState, n: nat) returns (ops: seq<Ops.Op>)
    requires Ops.Valid(c) && c.size + n <= c.cap
    ensures Inserts(ops) && Ops.RunOps(c, ops).size == c.size + n
    decreases n
  {
    if n == 0 {
      ops := [];
    } else {
      var w := if n < WEIGHT_MOD then n else HEAVIEST;
      var op := Ops.OpInsert(w, 0);
      FillsUp(c, w, 0);
      Ops.ApplyAccounts(c, op);
      var rest := FillClock(Ops.Apply(c, op), n - w);
      ops := [op] + rest;
      assert ops[1..] == rest;
    }
  }

  /** All runs of further insertions leave the residents within the capacity exactly if `size` covers them before. */
  lemma InsertRunsFitIff(c: ClockState)
    requires Ops.Valid(c)
    ensures (forall ops | Inserts(ops) :: ResidentWeight(Ops.RunOps(c, ops)) <= c.cap) <==> Phantom(c) >= 0
  {
    forall ops | Inserts(ops)
      ensures Phantom(Ops.RunOps(c, ops)) == Phantom(c)
    {
      InsertsKeepPhantom(c, ops);
    }
    if Phantom(c) < 0 {
      var ops := FillClock(c, c.cap - c.size);
      assert ResidentWeight(Ops.RunOps(c, ops)) > c.cap;
    }
  }

  // ---------------------------------------------------------------- further puts into the shard

  /** Puts of the first |ws| keys, with these weights. */
  function PutEach(keys: seq<Key>, ws: seq<int>, v: Value): seq<Op>
    requires |ws| <= |keys|
  {
    if ws == [] then [] else [OpPut(keys[0], v, ws[0])] + PutEach(keys[1..], ws[1..], v)
  }

  /** The shard holds none of the keys, and no two of them share a slot. */
  predicate Absent(s: Shard, keys: seq<Key>) {
    Ref.Apart(keys, s.hash) && forall i | 0 <= i < |keys| :: !Holds(s, keys[i])
  }

  lemma AbsentNext(s: Shard, keys: seq<Key>, v: Value, w: int)
    requires Shaped(s) && keys != [] && Absent(s, keys)
    ensures Shaped(Put(s, keys[0], v, w)) && Absent(Put(s, keys[0], v, w), keys[1..])
  {
    PutShaped(s, keys[0], v, w);
    var t := Put(s, keys[0], v, w);
    forall i | 0 <= i < |keys[1..]|
      ensures !Holds(t, keys[1..][i])
    {
      assert keys[1..][i] == keys[i + 1];
      assert s.hash(keys[0]) != s.hash(keys[i + 1]);
    }
  }

  lemma {:induction false} SumLower(ring: seq<nat>, tab: seq<Meta>, f: Meta -> int, g: Meta -> int)
    requires Within(ring, tab) && forall m :: f(m) <= g(m)
    ensures Sum(ring, tab, f) <= Sum(ring, tab, g)
  {
    if ring != [] {
      SumLower(ring[1..], tab, f, g);
    }
  }

  /** An inserting put adds no more than its own weight to the residents. */
  lemma PutAddsAtMost(s: Shard, k: Key, v: Value, w: int)
    requires Shaped(s) && !Holds(s, k)
    ensures Shaped(Put(s, k, v, w))
    ensures ResidentWeight(Put(s, k, v, w).clock) <= ResidentWeight(s.clock) + Weight32(w)
  {
    var gen := Gen.Id(|s.gens.mem| - 1);
    var r, f := Ops.Register(s.clock, Weight32(w), gen), SpareLoad(Swept(s, w));
    SettledResidents(s, k, v, w);
    Ops.RegisterEvictable(s.clock, Weight32(w), gen);
    Ops.RegisterAccounts(s.clock, Weight32(w), gen);
    RunSpare(r, Swept(s, w));
    WeighSpareNonNegative(Victims(r), r.tab, Swept(s, w));
    SumLower(r.ring, r.tab, f, Load);
  }

  lemma {:induction false} PutsKeepPhantom(s: Shard, keys: seq<Key>, ws: seq<int>, v: Value)
    requires Shaped(s) && |ws| <= |keys| && Absent(s, keys)
    ensures var c := RunShard(s, PutEach(keys, ws, v)).clock;
      c.cap == s.clock.cap && Phantom(c) == Phantom(s.clock)
    decreases |ws|
  {
    if ws != [] {
      assert PutEach(keys, ws, v)[1..] == PutEach(keys[1..], ws[1..], v);
      ApplyRaises(s, OpPut(keys[0], v, ws[0]));
      AbsentNext(s, keys, v, ws[0]);
      PutsKeepPhantom(Put(s, keys[0], v, ws[0]), keys[1..], ws[1..], v);
    }
  }

  lemma {:induction false} PutsAddAtMost(s: Shard, keys: seq<Key>, ws: seq<int>, v: Value)
    requires Shaped(s) && |ws| <= |keys| && Absent(s, keys)
    ensures ResidentWeight(RunShard(s, PutEach(keys, ws, v)).clock) <= ResidentWeight(s.clock) + Heaviest(|ws|)
    decreases |ws|
  {
    if ws != [] {
      assert PutEach(keys, ws, v)[1..] == PutEach(keys[1..], ws[1..], v);
      PutAddsAtMost(s, keys[0], v, ws[0]);
      AbsentNext(s, keys, v, ws[0]);
      PutsAddAtMost(Put(s, keys[0], v, ws[0]), keys[1..], ws[1..], v);
    }
  }

  /** A weight the clock takes for `chunk` and the active generation for no more than it has left. */
  function Disguised(s: Shard, chunk: nat): int
    requires |s.gens.bytes| > 0
  {
    var left := s.gens.perGen - s.gens.bytes[|s.gens.bytes| - 1];
    if left >= chunk then chunk else chunk - (chunk - left) * WEIGHT_MOD
  }

  lemma FillPut(s: Shard, k: Key, v: Value, chunk: nat)
    requires Shaped(s) && !Holds(s, k) && chunk < WEIGHT_MOD && s.clock.size + chunk <= s.clock.cap
    ensures Shaped(Put(s, k, v, Disguised(s, chunk)))
    ensures Put(s, k, v, Disguised(s, chunk)).clock.size == s.clock.size + chunk
  {
    var w := Disguised(s, chunk);
    assert Weight32(w) == chunk;
    PutShaped(s, k, v, w);
    FillsUp(s.clock, chunk, Gen.Id(|s.gens.mem| - 1));
  }

  /** Puts that add `n` to `size`, without a rotation. */
  lemma {:induction false} FillShard(s: Shard, keys: seq<Key>, v: Value, n: nat) returns (ws: seq<int>)
    requires Shaped(s) && Absent(s, keys)
    requires s.clock.size + n <= s.clock.cap && n <= Heaviest(|keys|)
    ensures |ws| <= |keys|
    ensures RunShard(s, PutEach(keys, ws, v)).clock.size == s.clock.size + n
    decreases |keys|
  {
    if n == 0 {
      ws := [];
    } else {
      var chunk := if n < WEIGHT_MOD then n else HEAVIEST;
      var w := Disguised(s, chunk);
      FillPut(s, keys[0], v, chunk);
      ApplyRaises(s, OpPut(keys[0], v, w));
      AbsentNext(s, keys, v, w);
      var rest := FillShard(Put(s, keys[0], v, w), keys[1..], v, n - chunk);
      ws := [w] + rest;
      assert ws[1..] == rest;
      assert PutEach(keys, ws, v)[1..] == PutEach(keys[1..], rest, v);
    }
  }

  /** What some choice of weights makes of the residents. */
  ghost function After(s: Shard, keys: seq<Key>, ws: seq<int>, v: Value): int
    requires Shaped(s) && |ws| <= |keys|
  {
    ResidentWeight(RunShard(s, PutEach(keys, ws, v)).clock)
  }

  lemma PutsFit(s: Shard, keys: seq<Key>, ws: seq<int>, v: Value)
    requires Shaped(s) && |ws| <= |keys| && Absent(s, keys)
    requires ResidentWeight(s.clock) <= s.clock.size || ResidentWeight(s.clock) + Heaviest(|keys|) <= s.clock.cap
    ensures After(s, keys, ws, v) <= s.clock.cap
  {
    PutsKeepPhantom(s, keys, ws, v);
    PutsAddAtMost(s, keys, ws, v);
  }

  lemma PutsOutgrow(s: Shard, keys: seq<Key>, v: Value) returns (ws: seq<int>)
    requires Shaped(s) && Absent(s, keys)
    requires ResidentWeight(s.clock) > s.clock.size && ResidentWeight(s.clock) + Heaviest(|keys|) > s.clock.cap
    ensures |ws| <= |keys| && After(s, keys, ws, v) > s.clock.cap
  {
    var room := s.clock.cap - s.clock.size;
    ws := FillShard(s, keys, v, if room < Heaviest(|keys|) then room else Heaviest(|keys|));
    PutsKeepPhantom(s, keys, ws, v);
  }

  /**
   Puts of given absent keys, whatever their weights, leave the residents within the capacity exactly if
   `size` covers the residents before, or the heaviest 32-bit weights fit beside them all at once.
   */
  lemma PutsFitIff(s: Shard, keys: seq<Key>, v: Value)
    requires Shaped(s) && Absent(s, keys)
    ensures (forall ws: seq<int> | |ws| <= |keys| :: After(s, keys, ws, v) <= s.clock.cap) <==>
      ResidentWeight(s.clock) <= s.clock.size || ResidentWeight(s.clock) + Heaviest(|keys|) <= s.clock.cap
  {
    if ResidentWeight(s.clock) <= s.clock.size || ResidentWeight(s.clock) + Heaviest(|keys|) <= s.clock.cap {
      forall ws: seq<int> | |ws| <= |keys|
        ensures After(s, keys, ws, v) <= s.clock.cap
      {
        PutsFit(s, keys, ws, v);
      }
    } else {
      var ws := PutsOutgrow(s, keys, v);
    }
  }

  /** The same for one put. */
  lemma AnyPutFitsIff(s: Shard, k: Key, v: Value)
    requires Shaped(s) && !Holds(s, k)
    ensures forall w: int :: Shaped(Put(s, k, v, w))
    ensures (forall w: int :: ResidentWeight(Put(s, k, v, w).clock) <= s.clock.cap) <==>
      ResidentWeight(s.clock) <= s.clock.size || ResidentWeight(s.clock) + HEAVIEST <= s.clock.cap
  {
    forall w: int
      ensures Shaped(Put(s, k, v, w)) && Phantom(Put(s, k, v, w).clock) == Phantom(s.clock)
      ensures Put(s, k, v, w).clock.cap == s.clock.cap
      ensures ResidentWeight(Put(s, k, v, w).clock) <= ResidentWeight(s.clock) + HEAVIEST
    {
      ApplyRaises(s, OpPut(k, v, w));
      PutAddsAtMost(s, k, v, w);
    }
    var room := s.clock.cap - s.clock.size;
    var chunk := if room < HEAVIEST then room else HEAVIEST;
    FillPut(s, k, v, chunk);
    assert ResidentWeight(Put(s, k, v, Disguised(s, chunk)).clock) == ResidentWeight(s.clock) + chunk;
  }

  // ---------------------------------------------------------------- after any run

  /** After any run, all further insertions leave the residents within the capacity exactly if nothing was raised. */
  lemma RunThenInsertsIff(capBytes: nat, hash: Key -> nat, ops: seq<Op>)
    requires capBytes > 0
    ensures var c := RunShard(Empty(capBytes, hash), ops).clock;
      (forall more | Inserts(more) :: ResidentWeight(Ops.RunOps(c, more)) <= capBytes) <==>
      TotalRaise(Empty(capBytes, hash), ops) <= 0
  {
    RunRaises(Empty(capBytes, hash), ops);
    InsertRunsFitIff(RunShard(Empty(capBytes, hash), ops).clock);
  }

  /**
   After any run, puts of given absent keys leave the residents within the capacity exactly if nothing
   was raised, or that many of the heaviest weights still fit beside the residents.
   */
  lemma RunThenPutsIff(capBytes: nat, hash: Key -> nat, ops: seq<Op>, keys: seq<Key>, v: Value)
    requires capBytes > 0 && Absent(RunShard(Empty(capBytes, hash), ops), keys)
    ensures var s, raised := RunShard(Empty(capBytes, hash), ops), TotalRaise(Empty(capBytes, hash), ops);
      (forall ws: seq<int> | |ws| <= |keys| :: After(s, keys, ws, v) <= capBytes) <==>
      raised <= 0 || s.clock.size + raised + Heaviest(|keys|) <= capBytes
  {
    RunRaises(Empty(capBytes, hash), ops);
    PutsFitIff(RunShard(Empty(capBytes, hash), ops), keys, v);
  }

  /** After any run, the next put of an absent key, whatever its weight. */
  lemma RunThenAnyPutIff(capBytes: nat, hash: Key -> nat, ops: seq<Op>, k: Key, v: Value)
    requires capBytes > 0 && !Holds(RunShard(Empty(capBytes, hash), ops), k)
    ensures var s, raised := RunShard(Empty(capBytes, hash), ops), TotalRaise(Empty(capBytes, hash), ops);
      && (forall w: int :: Shaped(Put(s, k, v, w)))
      && ((forall w: int :: ResidentWeight(Put(s, k, v, w).clock) <= capBytes) <==>
          raised <= 0 || s.clock.size + raised + HEAVIEST <= capBytes)
  {
    RunRaises(Empty(capBytes, hash), ops);
    AnyPutFitsIff(RunShard(Empty(capBytes, hash), ops), k, v);
  }
}
