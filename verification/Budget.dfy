/** Bytes over whole runs: how often the shard rotates, how long a value lives, how much is live. */
module Budget {
  import opened Types
  import opened ShardSpec
  import opened Generations

  /** What an operation charges to the active generation: updates are free. */
  function Charge(s: Shard, op: Op): int {
    if op.OpPut? && !Holds(s, op.k) then op.w else 0
  }

  ghost function TotalCharge(s: Shard, ops: seq<Op>): int
    requires Shaped(s)
    decreases |ops|
  {
    if ops == [] then 0
    else
      ApplyShaped(s, ops[0]);
      Charge(s, ops[0]) + TotalCharge(Apply(s, ops[0]), ops[1..])
  }

  /** Operations as clients issue them: non-negative weights, and rotation only by byte budget. */
  predicate Driven(ops: seq<Op>) {
    forall i | 0 <= i < |ops| :: !ops[i].OpRotate? && (ops[i].OpPut? ==> ops[i].w >= 0)
  }

  predicate Weighed(ops: seq<Op>, max: nat) {
    forall i | 0 <= i < |ops| :: ops[i].OpPut? ==> 0 <= ops[i].w <= max
  }

  /** One operation charges the active generation and may close it; earlier generations are final. */
  predicate Charged(b: seq<int>, b': seq<int>, charge: int)
    requires |b| > 0
  {
    var n := |b| - 1;
    && |b'| in {n + 1, n + 2}
    && b'[..n] == b[..n]
    && b'[n] == b[n] + charge
    && (|b'| == n + 2 ==> b'[n + 1] == 0)
  }

  lemma ApplyBytes(s: Shard, op: Op)
    requires Shaped(s)
    ensures Shaped(Apply(s, op))
    ensures var b, b' := s.gens.bytes, Apply(s, op).gens.bytes;
      && Apply(s, op).gens.perGen == s.gens.perGen
      && Charged(b, b', Charge(s, op))
      && (op.OpPut? && !Holds(s, op.k) ==> (|b'| > |b| <==> b'[|b| - 1] > s.gens.perGen))
      && (op.OpPut? && Holds(s, op.k) ==> b' == b)
      && (op.OpGet? || op.OpDelete? ==> b' == b)
  {
    ApplyShaped(s, op);
  }

  /** `b'` extends `b`: generations closed before are final. */
  predicate Extends(b: seq<int>, b': seq<int>)
    requires |b| > 0
  {
    |b'| >= |b| && b'[..|b| - 1] == b[..|b| - 1]
  }

  /** What a run charges is what the generation active at its start and the later ones recorded since. */
  lemma {:induction false} RunCharges(s: Shard, ops: seq<Op>)
    requires Shaped(s)
    ensures var b, b' := s.gens.bytes, RunShard(s, ops).gens.bytes;
      && RunShard(s, ops).gens.perGen == s.gens.perGen
      && Extends(b, b')
      && TotalCharge(s, ops) == Total(b'[|b| - 1..]) - b[|b| - 1]
    decreases |ops|
  {
    if ops == [] {
      var n := |s.gens.bytes| - 1;
      assert s.gens.bytes[n..] == [s.gens.bytes[n]];
    } else {
      ApplyBytes(s, ops[0]);
      var t := Apply(s, ops[0]);
      RunCharges(t, ops[1..]);
      ChargedAfter(s.gens.bytes, t.gens.bytes, RunShard(t, ops[1..]).gens.bytes, Charge(s, ops[0]));
    }
  }

  lemma ChargedAfter(a: seq<int>, b: seq<int>, c: seq<int>, charge: int)
    requires |a| > 0 && Charged(a, b, charge) && Extends(b, c)
    ensures Extends(a, c)
    ensures Total(c[|a| - 1..]) - a[|a| - 1] == charge + Total(c[|b| - 1..]) - b[|b| - 1]
  {
    var n := |a| - 1;
    assert c[..|b| - 1][..n] == c[..n] && b[..|b| - 1][..n] == b[..n];
    if |b| > |a| {
      assert c[n] == c[..n + 1][n] == b[n];
      assert c[n..] == [c[n]] + c[n + 1..];
    }
  }

  // ---------------------------------------------------------------- live bytes

  /** How many operations of the run it takes until generation `n` exists. */
  ghost function Birth(s: Shard, ops: seq<Op>, n: nat): (j: nat)
    requires Shaped(s)
    ensures j <= |ops|
    decreases |ops|
  {
    if n < |s.gens.bytes| || ops == [] then 0
    else
      ApplyShaped(s, ops[0]);
      1 + Birth(Apply(s, ops[0]), ops[1..], n)
  }

  /** When it is created a generation is the active one and has recorded nothing. */
  lemma {:induction false} BornEmpty(s: Shard, ops: seq<Op>, n: nat)
    requires Shaped(s) && |s.gens.bytes| <= n < |RunShard(s, ops).gens.bytes|
    ensures var b := RunShard(s, ops[..Birth(s, ops, n)]).gens.bytes;
      |b| == n + 1 && b[n] == 0
    decreases |ops|
  {
    ApplyBytes(s, ops[0]);
    var t, j := Apply(s, ops[0]), Birth(s, ops, n);
    assert ops[..j][0] == ops[0] && ops[..j][1..] == ops[1..][..j - 1];
    if n < |t.gens.bytes| {
      assert RunShard(t, []) == t;
    } else {
      BornEmpty(t, ops[1..], n);
    }
  }

  /**
   After any run `LiveBytes` is exactly the weight of the inserting puts recorded since the oldest live
   generation was created.
   */
  lemma LiveBytesRecorded(capBytes: nat, hash: Key -> nat, ops: seq<Op>)
    requires capBytes > 0
    ensures
      var start := Empty(capBytes, hash);
      var b := RunShard(start, ops).gens.bytes;
      var j := Birth(start, ops, Oldest(|b|));
      LiveBytes(b) == TotalCharge(RunShard(start, ops[..j]), ops[j..])
  {
    var start := Empty(capBytes, hash);
    var b := RunShard(start, ops).gens.bytes;
    var j := Birth(start, ops, Oldest(|b|));
    if Oldest(|b|) > 0 {
      BornEmpty(start, ops, Oldest(|b|));
    } else {
      assert RunShard(start, ops[..0]) == start;
    }
    assert ops[..j] + ops[j..] == ops;
    RunMore(start, ops[..j], ops[j..]);
    RunCharges(RunShard(start, ops[..j]), ops[j..]);
  }

  // ---------------------------------------------------------------- rotations and lifetimes

  /** `b'` extends `b` by a run: generations closed meanwhile outgrew their budget, the active one is not negative. */
  predicate Grown(b: seq<int>, b': seq<int>, perGen: int)
    requires |b| > 0
  {
    var n := |b| - 1;
    && |b'| >= |b| && b'[..n] == b[..n] && b'[n] >= b[n]
    && (forall i | n <= i < |b'| - 1 :: b'[i] > perGen)
    && (|b'| > |b| ==> b'[|b'| - 1] >= 0)
  }

  lemma {:induction false} RunGrows(s: Shard, ops: seq<Op>)
    requires Shaped(s) && Driven(ops)
    ensures Grown(s.gens.bytes, RunShard(s, ops).gens.bytes, s.gens.perGen)
    decreases |ops|
  {
    if ops != [] {
      assert !ops[0].OpRotate? && (ops[0].OpPut? ==> ops[0].w >= 0);
      ApplyBytes(s, ops[0]);
      var t := Apply(s, ops[0]);
      RunGrows(t, ops[1..]);
      GrownAfter(s.gens.bytes, t.gens.bytes, RunShard(t, ops[1..]).gens.bytes, Charge(s, ops[0]), s.gens.perGen);
    }
  }

  lemma GrownAfter(a: seq<int>, b: seq<int>, c: seq<int>, charge: int, perGen: int)
    requires |a| > 0 && Charged(a, b, charge) && charge >= 0 && (|b| > |a| ==> b[|a| - 1] > perGen)
    requires Grown(b, c, perGen)
    ensures Grown(a, c, perGen)
  {
    var n := |a| - 1;
    assert c[..|b| - 1][..n] == c[..n] && b[..|b| - 1][..n] == b[..n];
    if |b| > |a| {
      assert c[n] == c[..n + 1][n] == b[n];
    }
  }

  lemma {:induction false} TotalAtLeast(s: seq<int>, m: int)
    requires forall i | 0 <= i < |s| :: s[i] >= m
    ensures Total(s) >= |s| * m
  {
    if s != [] {
      TotalAtLeast(s[1..], m);
    }
  }

  lemma ClosedTotal(b: seq<int>, perGen: int)
    requires |b| > 0 && b[|b| - 1] >= 0 && forall i | 0 <= i < |b| - 1 :: b[i] > perGen
    ensures (|b| - 1) * (perGen + 1) <= Total(b)
  {
    var n := |b| - 1;
    assert b == b[..n] + [b[n]];
    TotalConcat(b[..n], [b[n]]);
    TotalAtLeast(b[..n], perGen + 1);
  }

  /** A budget per generation pays for each rotation: rotations are amortised over the inserted weight. */
  lemma RotationsAmortised(capBytes: nat, hash: Key -> nat, ops: seq<Op>)
    requires capBytes > 0 && Driven(ops)
    ensures var s := RunShard(Empty(capBytes, hash), ops);
      (|s.gens.mem| - 1) * (s.gens.perGen + 1) <= TotalCharge(Empty(capBytes, hash), ops)
  {
    RunCharges(Empty(capBytes, hash), ops);
    RunGrows(Empty(capBytes, hash), ops);
    var b := RunShard(Empty(capBytes, hash), ops).gens.bytes;
    assert b[0..] == b;
    ClosedTotal(b, RunShard(Empty(capBytes, hash), ops).gens.perGen);
  }

  /** If generation `n` fell out of the buffer, three generations after it were filled and closed since. */
  lemma FilledSince(b: seq<int>, c: seq<int>, n: nat, perGen: int)
    requires |b| > 0 && Grown(b, c, perGen) && |c| > n + SLOTS && perGen >= 0
    requires |b| == n + 1 || (|b| == n + 2 && b[n + 1] == 0)
    ensures Total(c[|b| - 1..]) - b[|b| - 1] >= 3 * (perGen + 1)
  {
    var m := |b| - 1;
    assert c[m..] == [c[m]] + c[m + 1..];
    var late := if m == n then c[m + 1..] else c[m..];
    assert Total(late) >= 3 * (perGen + 1) by {
      ClosedTotal(late, perGen);
      AtLeastThree(|late| - 1, perGen + 1);
    }
  }

  lemma AtLeastThree(n: nat, m: nat)
    requires n >= 3
    ensures n * m >= 3 * m
  {
  }

  /**
   A value put into generation `n` keeps its arena until at least three further budgets, of weight
   perGen + 1 each, have been inserted after the put.
   */
  lemma LifetimeOfValue(s: Shard, k: Key, v: Value, w: int, ops: seq<Op>)
    requires Shaped(s) && s.gens.perGen >= 0 && Driven(ops)
    ensures Shaped(Put(s, k, v, w))
    ensures
      var n, after := |s.gens.mem| - 1, Put(s, k, v, w);
      !Live(|RunShard(after, ops).gens.mem|, n) ==> TotalCharge(after, ops) >= 3 * (s.gens.perGen + 1)
  {
    ApplyBytes(s, OpPut(k, v, w));
    var n, after := |s.gens.mem| - 1, Put(s, k, v, w);
    RunCharges(after, ops);
    RunGrows(after, ops);
    if !Live(|RunShard(after, ops).gens.mem|, n) {
      FilledSince(after.gens.bytes, RunShard(after, ops).gens.bytes, n, s.gens.perGen);
    }
  }

  // ---------------------------------------------------------------- how much is live

  predicate Bounded(b: seq<int>, perGen: int, max: nat) {
    && |b| > 0
    && (forall i | 0 <= i < |b| :: 0 <= b[i] <= perGen + max)
    && b[|b| - 1] <= perGen
  }

  lemma BoundedStep(b: seq<int>, b': seq<int>, charge: int, perGen: int, max: nat)
    requires Bounded(b, perGen, max) && Charged(b, b', charge) && 0 <= charge <= max && perGen >= 0
    requires |b'| == |b| ==> b'[|b| - 1] <= perGen
    ensures Bounded(b', perGen, max)
  {
    assert forall i | 0 <= i < |b| - 1 :: b'[i] == b'[..|b| - 1][i] == b[i];
  }

  lemma {:induction false} RunBounded(s: Shard, ops: seq<Op>, max: nat)
    requires Shaped(s) && Weighed(ops, max) && s.gens.perGen >= 0 && Bounded(s.gens.bytes, s.gens.perGen, max)
    ensures RunShard(s, ops).gens.perGen == s.gens.perGen
    ensures Bounded(RunShard(s, ops).gens.bytes, s.gens.perGen, max)
    decreases |ops|
  {
    if ops != [] {
      assert ops[0].OpPut? ==> 0 <= ops[0].w <= max;
      ApplyBytes(s, ops[0]);
      BoundedStep(s.gens.bytes, Apply(s, ops[0]).gens.bytes, Charge(s, ops[0]), s.gens.perGen, max);
      RunBounded(Apply(s, ops[0]), ops[1..], max);
    }
  }

  /** Live bytes stay within four budgets and three overshoots, hence within the capacity and three weights. */
  lemma LiveBytesBounded(capBytes: nat, hash: Key -> nat, ops: seq<Op>, max: nat)
    requires capBytes > 0 && Weighed(ops, max)
    ensures var g := RunShard(Empty(capBytes, hash), ops).gens;
      && g.bytes[|g.bytes| - 1] <= g.perGen
      && 0 <= LiveBytes(g.bytes) <= 4 * g.perGen + 3 * max
      && (capBytes >= 4 ==> LiveBytes(g.bytes) <= capBytes + 3 * max)
  {
    RunBounded(Empty(capBytes, hash), ops, max);
    var g := RunShard(Empty(capBytes, hash), ops).gens;
    var live := g.bytes[Oldest(|g.bytes|)..];
    TotalShort(live);
  }
}
