/** Whole runs of the shard in memory: every step is the value form's, and clients see the reference. */
module ShardRuns {
  import opened Types
  import opened ClockRing
  import opened GenRing
  import opened ShardSpec
  import opened ShardMemory
  import opened Counters
  import Ref = Reference

  method Store(s: ShardObject, op: Op) returns (ghost gain: Gain)
    requires s.Valid() && op.OpPut?
    modifies s, s.clock, s.clock.cells, s.clock.ents
    modifies s.genRing, s.genRing.gens, s.genRing.genSet, s.genRing.homes
    ensures s.Valid() && s.Abs() == Apply(old(s.Abs()), op)
    ensures s.Snapshot() == Count(old(s.Snapshot()), OutcomeOf(old(s.Abs()), op))
    ensures s.Gained(gain)
  {
    gain := s.Put(op.k, op.v, op.w);
  }

  method Look(s: ShardObject, op: Op) returns (reply: seq<Answer>)
    requires s.Valid() && op.OpGet?
    modifies s, s.clock, s.clock.ents
    ensures s.Valid() && s.Abs() == Apply(old(s.Abs()), op)
    ensures reply == Reply(old(s.Abs()), op)
    ensures s.Snapshot() == Count(old(s.Snapshot()), OutcomeOf(old(s.Abs()), op))
    ensures s.SameClock() && s.SameGens()
  {
    var answer := s.Get(op.k);
    reply := [answer];
  }

  method Remove(s: ShardObject, k: Key)
    requires s.Valid()
    modifies s`slots, s`index, s`evictions, s.clock, s.clock.cells
    ensures s.Valid() && s.Abs() == Delete(old(s.Abs()), k)
    ensures s.evictions == if old(Holds(s.Abs(), k)) then Next(old(s.evictions)) else old(s.evictions)
    ensures s.hits == old(s.hits) && s.misses == old(s.misses)
    ensures s.SameClock() && s.SameGens()
  {
    s.Delete(k);
  }

  method RemoveAndCount(s: ShardObject, op: Op)
    requires s.Valid() && op.OpDelete?
    modifies s, s.clock, s.clock.cells
    ensures s.Valid() && s.Abs() == Apply(old(s.Abs()), op)
    ensures s.Snapshot() == Count(old(s.Snapshot()), OutcomeOf(old(s.Abs()), op))
    ensures s.SameClock() && s.SameGens()
  {
    ghost var st := s.Snapshot();
    ghost var counted := Count(st, OutcomeOf(s.Abs(), op));
    assert counted == Stats(st.hits, st.misses, if Holds(s.Abs(), op.k) then Next(st.evictions) else st.evictions);
    Remove(s, op.k);
  }

  method Turn(s: ShardObject, op: Op) returns (ghost gain: Gain)
    requires s.Valid() && op.OpRotate?
    modifies s, s.clock, s.clock.cells, s.clock.ents
    modifies s.genRing, s.genRing.gens, s.genRing.genSet, s.genRing.homes
    ensures s.Valid() && s.Abs() == Apply(old(s.Abs()), op)
    ensures s.Snapshot() == Count(old(s.Snapshot()), OutcomeOf(old(s.Abs()), op))
    ensures s.Gained(gain)
  {
    ghost var g := s.Rotate();
    gain := GenOnly(g);
  }

  /** One operation on the shard in memory. */
  method Step(s: ShardObject, op: Op) returns (reply: seq<Answer>, ghost gain: Gain)
    requires s.Valid()
    modifies s, s.clock, s.clock.cells, s.clock.ents
    modifies s.genRing, s.genRing.gens, s.genRing.genSet, s.genRing.homes
    ensures s.Valid() && s.Abs() == Apply(old(s.Abs()), op)
    ensures reply == Reply(old(s.Abs()), op)
    ensures s.Snapshot() == Count(old(s.Snapshot()), OutcomeOf(old(s.Abs()), op))
    ensures s.Gained(gain)
  {
    reply, gain := [], Nothing;
    match op
    case OpPut(k, v, w) => gain := Store(s, op);
    case OpGet(k) => reply := Look(s, op);
    case OpDelete(k) => RemoveAndCount(s, op);
    case OpRotate => gain := Turn(s, op);
  }

  /** Operations one after another: state, answers and counters are those of the value form. */
  method Run(s: ShardObject, ops: seq<Op>) returns (answers: seq<Answer>)
    requires s.Valid()
    modifies s, s.clock, s.clock.cells, s.clock.ents
    modifies s.genRing, s.genRing.gens, s.genRing.genSet, s.genRing.homes
    ensures s.Valid() && s.Abs() == RunShard(old(s.Abs()), ops)
    ensures answers == Answers(old(s.Abs()), ops)
    ensures s.Snapshot() == CountAll(old(s.Snapshot()), Outcomes(old(s.Abs()), ops))
    decreases |ops|
  {
    if ops == [] {
      return [];
    }
    ghost var gain;
    var reply;
    reply, gain := Step(s, ops[0]);
    var rest := Run(s, ops[1..]);
    answers := reply + rest;
  }

  /**
   A client of a new shard gets, over any run, the answers of the reference; the counters it reads off
   afterwards are those of the answers that found their key and of those that did not, and of the
   deletions that removed one.
   */
  method Session(capBytes: nat, hash: Key -> nat, hooked: bool, ops: seq<Op>)
    returns (answers: seq<Answer>, stats: Stats)
    requires capBytes > 0
    ensures answers == Ref.RefAnswers(Ref.Start(capBytes, hash), ops)
    ensures stats.hits == Found(answers) % 0x1_0000_0000_0000_0000
    ensures stats.misses == Missed(answers) % 0x1_0000_0000_0000_0000
    ensures stats.evictions == Removed(Empty(capBytes, hash), ops) % 0x1_0000_0000_0000_0000
  {
    var s := new ShardObject(capBytes, hash, hooked);
    answers := Run(s, ops);
    stats := s.Snapshot();
    Ref.StartAgrees(capBytes, hash);
    Ref.AnswersAgree(Empty(capBytes, hash), Ref.Start(capBytes, hash), ops);
    OutcomesSeen(Empty(capBytes, hash), ops);
    CountedTo(Stats(0, 0, 0), Outcomes(Empty(capBytes, hash), ops), Found(answers), Missed(answers),
      Removed(Empty(capBytes, hash), ops));
  }
}
