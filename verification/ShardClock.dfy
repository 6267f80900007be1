/** Every run of a shard is a run of its clock, so the laws of the clock hold in every shard. */
module ShardClock {
  import opened Types
  import opened ClockSpec
  import opened ShardSpec
  import Ops = ClockOps
  import Law = VisitLaw
  import Gen = Generations

  function RotateTrace(created: nat): seq<Ops.Op> {
    if created >= Gen.SLOTS then [Ops.OpGeneration(Gen.Id(created - Gen.SLOTS))] else []
  }

  /** What one shard operation asks of the clock. */
  ghost function Trace(s: Shard, op: Op): seq<Ops.Op>
    requires Shaped(s)
  {
    var created := |s.gens.mem|;
    match op
    case OpPut(k, v, w) =>
      if Holds(s, k) then [Ops.OpUpdate(s.index[s.hash(k)], Weight32(w), Gen.Id(created - 1))]
      else
        [Ops.OpInsert(Weight32(w), Gen.Id(created - 1))]
        + (if s.gens.bytes[created - 1] + w > s.gens.perGen then RotateTrace(created) else [])
    case OpGet(k) => if Holds(s, k) then [Ops.OpTouch(s.index[s.hash(k)])] else []
    case OpDelete(k) => if Holds(s, k) then [Ops.OpRemove(s.index[s.hash(k)])] else []
    case OpRotate => RotateTrace(created)
  }

  ghost function RunTrace(s: Shard, ops: seq<Op>): seq<Ops.Op>
    requires Shaped(s)
    decreases |ops|
  {
    if ops == [] then []
    else
      ApplyShaped(s, ops[0]);
      Trace(s, ops[0]) + RunTrace(Apply(s, ops[0]), ops[1..])
  }

  lemma RunOne(c: ClockState, op: Ops.Op)
    requires Ops.Valid(c)
    ensures Ops.RunOps(c, [op]) == Ops.Apply(c, op)
  {
    Ops.ApplyAccounts(c, op);
    assert Ops.RunOps(Ops.Apply(c, op), []) == Ops.Apply(c, op);
  }

  lemma {:induction false} RunConcat(c: ClockState, a: seq<Ops.Op>, b: seq<Ops.Op>)
    requires Ops.Valid(c)
    ensures Ops.RunOps(c, a + b) == Ops.RunOps(Ops.RunOps(c, a), b)
    decreases |a|
  {
    if a == [] {
      assert a + b == b;
    } else {
      assert (a + b)[1..] == a[1..] + b;
      Ops.ApplyAccounts(c, a[0]);
      RunConcat(Ops.Apply(c, a[0]), a[1..], b);
    }
  }

  lemma RotateClock(c: ClockState, created: nat)
    requires Ops.Valid(c)
    ensures Ops.RunOps(c, RotateTrace(created)) == Rotated(c, created)
  {
    if created >= Gen.SLOTS {
      RunOne(c, Ops.OpGeneration(Gen.Id(created - Gen.SLOTS)));
    }
  }

  lemma ApplyClock(s: Shard, op: Op)
    requires Shaped(s)
    ensures Apply(s, op).clock == Ops.RunOps(s.clock, Trace(s, op))
  {
    var created := |s.gens.mem|;
    match op
    case OpPut(k, v, w) =>
      if Holds(s, k) {
        RunOne(s.clock, Ops.OpUpdate(s.index[s.hash(k)], Weight32(w), Gen.Id(created - 1)));
      } else {
        var ins := Ops.OpInsert(Weight32(w), Gen.Id(created - 1));
        RunOne(s.clock, ins);
        if s.gens.bytes[created - 1] + w > s.gens.perGen {
          RunConcat(s.clock, [ins], RotateTrace(created));
          RotateClock(Ops.Apply(s.clock, ins), created);
        } else {
          assert [ins] + [] == [ins];
        }
      }
    case OpGet(k) =>
      if Holds(s, k) {
        RunOne(s.clock, Ops.OpTouch(s.index[s.hash(k)]));
      }
    case OpDelete(k) =>
      if Holds(s, k) {
        RunOne(s.clock, Ops.OpRemove(s.index[s.hash(k)]));
      }
    case OpRotate => RotateClock(s.clock, created);
  }

  lemma {:induction false} RunClock(s: Shard, ops: seq<Op>)
    requires Shaped(s)
    ensures RunShard(s, ops).clock == Ops.RunOps(s.clock, RunTrace(s, ops))
    decreases |ops|
  {
    if ops != [] {
      ApplyShaped(s, ops[0]);
      ApplyClock(s, ops[0]);
      RunClock(Apply(s, ops[0]), ops[1..]);
      RunConcat(s.clock, Trace(s, ops[0]), RunTrace(Apply(s, ops[0]), ops[1..]));
    }
  }

  /**
   In every run of a shard a value is ejected for capacity on exactly the third visit of the hand
   since its entry was created or last looked up.
   */
  lemma ShardThirdVisit(capBytes: nat, hash: Key -> nat, ops: seq<Op>)
    requires capBytes > 0
    ensures var c := RunShard(Empty(capBytes, hash), ops).clock;
      Law.BytesCount(c) && Law.ThirdVisits(c.log)
  {
    RunClock(Empty(capBytes, hash), ops);
    Law.ThirdVisitLaw(capBytes, RunTrace(Empty(capBytes, hash), ops));
  }

  /**
   In every run of a shard `size` stays within the capacity, every insertion's loop ends, and what the
   residents weigh beyond `size` is exactly the drift of in-place updates and of ghosts removed.
   */
  lemma ShardDrift(capBytes: nat, hash: Key -> nat, ops: seq<Op>)
    requires capBytes > 0
    ensures var c := RunShard(Empty(capBytes, hash), ops).clock;
      && c.size <= capBytes && Evictable(c)
      && ResidentWeight(c) == c.size + Ops.TotalDrift(Ops.Empty(capBytes), RunTrace(Empty(capBytes, hash), ops))
  {
    RunClock(Empty(capBytes, hash), ops);
    Ops.ExactAccounting(capBytes, RunTrace(Empty(capBytes, hash), ops));
    Ops.EvictableWithin(RunShard(Empty(capBytes, hash), ops).clock);
  }
}
