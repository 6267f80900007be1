/** The clock and the generations agree: residents of a generation weigh no more than was recorded for it. */
module Agreement {
  import opened RingSums
  import opened Types
  import opened ClockSpec
  import opened ShardSpec
  import opened ArenaSafety
  import Ops = ClockOps
  import Gen = Generations

  /** Weight of the residents of generation `n`. */
  ghost function GenWeight(c: ClockState, n: nat): int
    requires WellFormed(c)
  {
    Sum(c.ring, c.tab, Ops.GenLoad(Gen.Id(n)))
  }

  ghost predicate WithinRecorded(s: Shard)
    requires Shaped(s)
  {
    forall n | 0 <= n < |s.gens.bytes| && Gen.Live(|s.gens.bytes|, n) :: GenWeight(s.clock, n) <= s.gens.bytes[n]
  }

  /** `size` never exceeds what the residents weigh: only ghosts were removed without being counted. */
  ghost predicate Covered(s: Shard)
    requires Shaped(s)
  {
    Phantom(s.clock) <= 0
  }

  ghost predicate Agreed(s: Shard)
    requires Shaped(s)
  {
    Safe(s) && WithinRecorded(s) && Covered(s)
  }

  // ---------------------------------------------------------------- the clock never adds weight to a generation

  lemma StepGenLoad(c: ClockState, gen: nat)
    requires WellFormed(c) && c.ring != []
    ensures WellFormed(Step(c))
    ensures Sum(Step(c).ring, Step(c).tab, Ops.GenLoad(gen)) <= Sum(c.ring, c.tab, Ops.GenLoad(gen))
  {
    StepWellFormed(c);
    var f := Ops.GenLoad(gen);
    SumRotate(c.ring, c.tab, f);
    var e, m := c.ring[0], c.tab[c.ring[0]];
    if Resident(m) {
      var turned := c.ring[1..] + [e];
      assert turned[|turned| - 1] == e;
      SumUpdate(turned, c.tab, e, m.(st := Next(m.st)), f);
    }
  }

  lemma {:induction false} RunGenLoad(c: ClockState, gen: nat)
    requires Evictable(c)
    ensures Sum(ClockSpec.Run(c).ring, ClockSpec.Run(c).tab, Ops.GenLoad(gen)) <= Sum(c.ring, c.tab, Ops.GenLoad(gen))
    decreases RankSum(c)
  {
    if c.size > c.cap {
      RunStep(c);
      StepGenLoad(c, gen);
      RunGenLoad(Step(c), gen);
    }
  }

  lemma InsertGenLoad(c: ClockState, weight: nat, gen: nat, g: nat)
    requires Ops.Valid(c)
    ensures var d := Ops.Insert(c, weight, gen);
      Sum(d.ring, d.tab, Ops.GenLoad(g)) <= Sum(c.ring, c.tab, Ops.GenLoad(g)) + (if g == gen then weight else 0)
  {
    var r, e := Ops.Register(c, weight, gen), |c.tab|;
    Ops.RegisterAccounts(c, weight, gen);
    Ops.EvictableWithin(c);
    SumConcat(c.ring, [e], r.tab, Ops.GenLoad(g));
    SumFrame(c.ring, c.tab, r.tab, Ops.GenLoad(g));
    RunGenLoad(r, g);
  }

  // ---------------------------------------------------------------- operation by operation

  lemma AddAgreed(s: Shard, k: Key, v: Value, w: int)
    requires Shaped(s) && Agreed(s) && 0 <= w < WEIGHT_MOD
    ensures Shaped(Add(s, k, v, w)) && Shaped(Recorded(Add(s, k, v, w), w)) && Agreed(Recorded(Add(s, k, v, w), w))
  {
    AddSafe(s, k, v, w);
    RecordedShaped(Add(s, k, v, w), w);
    var g, t := |s.gens.mem| - 1, Recorded(Add(s, k, v, w), w);
    Ops.RegisterAccounts(s.clock, w, Gen.Id(g));
    Ops.EvictableWithin(s.clock);
    forall n | 0 <= n < |t.gens.bytes| && Gen.Live(|t.gens.bytes|, n)
      ensures GenWeight(t.clock, n) <= t.gens.bytes[n]
    {
      InsertGenLoad(s.clock, w, Gen.Id(g), Gen.Id(n));
      if n < g {
        Gen.IdsDiffer(g + 1, n, g);
      }
    }
  }

  lemma FreshGenerationEmpty(s: Shard)
    requires Shaped(s) && Safe(s)
    ensures GenWeight(s.clock, |s.gens.mem|) == 0
  {
    var n := |s.gens.mem|;
    forall i | 0 <= i < |s.clock.ring|
      ensures Ops.GenLoad(Gen.Id(n))(s.clock.tab[s.clock.ring[i]]) == 0
    {
      var e := s.clock.ring[i];
      assert CellAt(s, e);
      if Resident(s.clock.tab[e]) {
        Gen.IdsDiffer(n + 1, s.body[e].cell.gen, n);
      }
    }
    SumZero(s.clock.ring, s.clock.tab, Ops.GenLoad(Gen.Id(n)));
  }

  lemma SweepGenLoad(c: ClockState, gen: nat, g: nat)
    requires WellFormed(c)
    ensures var d := Ops.GenerationEvicted(c, gen);
      WellFormed(d) && Sum(d.ring, d.tab, Ops.GenLoad(g)) <= Sum(c.ring, c.tab, Ops.GenLoad(g))
  {
    var d := Ops.GenerationEvicted(c, gen);
    Ops.GenerationEvictedEntries(c, gen);
    Ops.GenerationEvictedAccounts(c, gen);
    Lower(c.ring, c.tab, d.tab, Ops.GenLoad(g));
  }

  lemma {:induction false} Lower(ring: seq<nat>, tab: seq<Meta>, tab': seq<Meta>, f: Meta -> int)
    requires Within(ring, tab) && Within(ring, tab')
    requires forall i | 0 <= i < |ring| :: f(tab'[ring[i]]) <= f(tab[ring[i]])
    ensures Sum(ring, tab', f) <= Sum(ring, tab, f)
  {
    if ring != [] {
      assert forall i | 0 <= i < |ring[1..]| :: ring[1..][i] == ring[i + 1];
      Lower(ring[1..], tab, tab', f);
    }
  }

  lemma RotateAgreed(s: Shard)
    requires Shaped(s) && Agreed(s)
    ensures Shaped(Rotate(s)) && Agreed(Rotate(s))
  {
    RotateSafe(s);
    var t, dead := Rotate(s), |s.gens.mem| - Gen.SLOTS;
    FreshGenerationEmpty(s);
    if dead >= 0 {
      Ops.GenerationEvictedAccounts(s.clock, Gen.Id(dead));
    }
    forall n | 0 <= n < |t.gens.bytes| && Gen.Live(|t.gens.bytes|, n)
      ensures GenWeight(t.clock, n) <= t.gens.bytes[n]
    {
      if dead >= 0 {
        SweepGenLoad(s.clock, Gen.Id(dead), Gen.Id(n));
      }
    }
  }

  lemma TouchedAgreed(s: Shard, k: Key)
    requires Shaped(s) && Agreed(s)
    ensures Shaped(Touched(s, k)) && Agreed(Touched(s, k))
  {
    TouchedSafe(s, k);
    if Holds(s, k) {
      var e, t := s.index[s.hash(k)], Touched(s, k);
      Ops.SetReferencedAccounts(s.clock, e);
      forall n | 0 <= n < |t.gens.bytes| && Gen.Live(|t.gens.bytes|, n)
        ensures GenWeight(t.clock, n) <= t.gens.bytes[n]
      {
        SumUpdate(s.clock.ring, s.clock.tab, e, t.clock.tab[e], Ops.GenLoad(Gen.Id(n)));
      }
    }
  }

  lemma DeleteAgreed(s: Shard, k: Key)
    requires Shaped(s) && Agreed(s)
    ensures Shaped(Delete(s, k)) && Agreed(Delete(s, k))
  {
    DeleteSafe(s, k);
    if Holds(s, k) {
      var e, t := s.index[s.hash(k)], Delete(s, k);
      Ops.RemoveAccounts(s.clock, e);
      forall n | 0 <= n < |t.gens.bytes| && Gen.Live(|t.gens.bytes|, n)
        ensures GenWeight(t.clock, n) <= t.gens.bytes[n]
      {
        if e in s.clock.ring {
          Ops.SumWithout(s.clock.ring, s.clock.tab, e, Ops.GenLoad(Gen.Id(n)));
        }
      }
    }
  }

  /** A run without in-place updates, all of whose weights fit 32 bits. */
  ghost predicate Inserting(s: Shard, ops: seq<Op>)
    requires Shaped(s)
    decreases |ops|
  {
    ops == [] ||
    (&& (ops[0].OpPut? ==> !Holds(s, ops[0].k) && 0 <= ops[0].w < WEIGHT_MOD)
     && (ApplyShaped(s, ops[0]); Inserting(Apply(s, ops[0]), ops[1..])))
  }

  lemma ApplyAgreed(s: Shard, op: Op)
    requires Shaped(s) && Agreed(s) && (op.OpPut? ==> !Holds(s, op.k) && 0 <= op.w < WEIGHT_MOD)
    ensures Shaped(Apply(s, op)) && Agreed(Apply(s, op))
  {
    match op
    case OpPut(k, v, w) =>
      AddAgreed(s, k, v, w);
      if Gen.OverBudget(Recorded(Add(s, k, v, w), w).gens) {
        RotateAgreed(Recorded(Add(s, k, v, w), w));
      }
    case OpGet(k) => TouchedAgreed(s, k);
    case OpDelete(k) => DeleteAgreed(s, k);
    case OpRotate => RotateAgreed(s);
  }

  lemma {:induction false} RunAgreed(s: Shard, ops: seq<Op>)
    requires Shaped(s) && Agreed(s) && Inserting(s, ops)
    ensures Agreed(RunShard(s, ops))
    decreases |ops|
  {
    if ops != [] {
      ApplyAgreed(s, ops[0]);
      RunAgreed(Apply(s, ops[0]), ops[1..]);
    }
  }

  // ---------------------------------------------------------------- the generations cover the residents

  /** Weights of generations lo, ..., hi - 1 together. */
  ghost function GenSums(ring: seq<nat>, tab: seq<Meta>, lo: nat, hi: nat): int
    requires Within(ring, tab) && lo <= hi
  {
    if lo == hi then 0 else GenSums(ring, tab, lo, hi - 1) + Sum(ring, tab, Ops.GenLoad(Gen.Id(hi - 1)))
  }

  lemma {:induction false} GenSumsFirst(ring: seq<nat>, tab: seq<Meta>, lo: nat, hi: nat)
    requires ring != [] && Within(ring, tab) && lo <= hi
    ensures Within(ring[1..], tab) && Within([ring[0]], tab)
    ensures GenSums(ring, tab, lo, hi) == GenSums([ring[0]], tab, lo, hi) + GenSums(ring[1..], tab, lo, hi)
    decreases hi
  {
    if lo < hi {
      GenSumsFirst(ring, tab, lo, hi - 1);
      SumConcat([ring[0]], ring[1..], tab, Ops.GenLoad(Gen.Id(hi - 1)));
      assert [ring[0]] + ring[1..] == ring;
    }
  }

  lemma {:induction false} GenSumsOne(e: nat, tab: seq<Meta>, lo: nat, hi: nat, n: nat)
    requires e < |tab| && Within([e], tab) && lo <= hi
    ensures GenSums([e], tab, lo, hi) >= 0
    ensures lo <= n < hi && tab[e].gen == Gen.Id(n) ==> Load(tab[e]) <= GenSums([e], tab, lo, hi)
    decreases hi
  {
    if lo < hi {
      GenSumsOne(e, tab, lo, hi - 1, n);
      var f := Ops.GenLoad(Gen.Id(hi - 1));
      assert Sum([e], tab, f) == f(tab[e]) + Sum([], tab, f);
    }
  }

  /** The residents of `ring` all belong to generations lo, ..., hi - 1. */
  ghost predicate AllWithin(ring: seq<nat>, tab: seq<Meta>, lo: nat, hi: nat)
    requires Within(ring, tab)
  {
    forall i | 0 <= i < |ring| && Resident(tab[ring[i]]) :: InWindow(tab[ring[i]].gen, lo, hi)
  }

  ghost predicate InWindow(id: nat, lo: nat, hi: nat) {
    exists n: nat | lo <= n < hi :: Gen.Id(n) == id
  }

  lemma {:induction false} GenSumsCover(ring: seq<nat>, tab: seq<Meta>, lo: nat, hi: nat)
    requires Within(ring, tab) && lo <= hi && AllWithin(ring, tab, lo, hi)
    ensures Sum(ring, tab, Load) <= GenSums(ring, tab, lo, hi)
  {
    if ring == [] {
      GenSumsNone(tab, lo, hi);
    } else {
      GenSumsFirst(ring, tab, lo, hi);
      assert forall i | 0 <= i < |ring[1..]| :: ring[1..][i] == ring[i + 1];
      GenSumsCover(ring[1..], tab, lo, hi);
      if Resident(tab[ring[0]]) {
        var n: nat :| lo <= n < hi && Gen.Id(n) == tab[ring[0]].gen;
        GenSumsOne(ring[0], tab, lo, hi, n);
      } else {
        GenSumsOne(ring[0], tab, lo, hi, 0);
      }
    }
  }

  lemma {:induction false} GenSumsNone(tab: seq<Meta>, lo: nat, hi: nat)
    requires lo <= hi
    ensures GenSums([], tab, lo, hi) == 0
    decreases hi
  {
    if lo < hi {
      GenSumsNone(tab, lo, hi - 1);
    }
  }

  lemma {:induction false} GenSumsRecorded(c: ClockState, bytes: seq<int>, lo: nat, hi: nat)
    requires WellFormed(c) && lo <= hi <= |bytes|
    requires forall n | lo <= n < hi :: GenWeight(c, n) <= bytes[n]
    ensures GenSums(c.ring, c.tab, lo, hi) <= Gen.Total(bytes[lo..hi])
    decreases hi
  {
    if lo < hi {
      GenSumsRecorded(c, bytes, lo, hi - 1);
      assert bytes[lo..hi] == bytes[lo..hi - 1] + [bytes[hi - 1]];
      Gen.TotalConcat(bytes[lo..hi - 1], [bytes[hi - 1]]);
      assert GenWeight(c, hi - 1) <= bytes[hi - 1];
    }
  }

  /** The residents weigh no more than the live generations recorded. */
  lemma ResidentsWithinLive(s: Shard)
    requires Shaped(s) && Agreed(s)
    ensures s.clock.size <= ResidentWeight(s.clock) <= Gen.LiveBytes(s.gens.bytes)
  {
    var hi := |s.gens.bytes|;
    var lo := Gen.Oldest(hi);
    forall i | 0 <= i < |s.clock.ring| && Resident(s.clock.tab[s.clock.ring[i]])
      ensures InWindow(s.clock.tab[s.clock.ring[i]].gen, lo, hi)
    {
      assert CellAt(s, s.clock.ring[i]);
      assert Gen.Id(s.body[s.clock.ring[i]].cell.gen) == s.clock.tab[s.clock.ring[i]].gen;
    }
    GenSumsCover(s.clock.ring, s.clock.tab, lo, hi);
    GenSumsRecorded(s.clock, s.gens.bytes, lo, hi);
    assert s.gens.bytes[lo..hi] == s.gens.bytes[lo..];
  }

  /**
   In any run without in-place updates every live generation's residents weigh at most its recorded
   bytes, so `size` is at most the smaller of the capacity and the live bytes.
   */
  lemma SizeWithinBoth(capBytes: nat, hash: Key -> nat, ops: seq<Op>)
    requires capBytes > 0
    requires Inserting(Empty(capBytes, hash), ops)
    ensures var s := RunShard(Empty(capBytes, hash), ops);
      && WithinRecorded(s)
      && s.clock.size <= s.clock.cap
      && s.clock.size <= ResidentWeight(s.clock) <= Gen.LiveBytes(s.gens.bytes)
  {
    RunAgreed(Empty(capBytes, hash), ops);
    ResidentsWithinLive(RunShard(Empty(capBytes, hash), ops));
  }
}
