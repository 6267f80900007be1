/** The counters of a shard on values: 64-bit numbers of hits, misses and evictions. */
module Counters {
  import opened Types
  import opened ShardSpec

  type uint64 = n: nat | n < 0x1_0000_0000_0000_0000

  datatype Stats = Stats(hits: uint64, misses: uint64, evictions: uint64)

  /** What an operation means to the counters. */
  datatype Outcome = OneHit | OneMiss | OneEviction | Quiet

  function OutcomeOf(s: Shard, op: Op): Outcome {
    match op
    case OpGet(k) => if Holds(s, k) then OneHit else OneMiss
    case OpDelete(k) => if Holds(s, k) then OneEviction else Quiet
    case OpPut(k, v, w) => Quiet
    case OpRotate => Quiet
  }

  ghost function Outcomes(s: Shard, ops: seq<Op>): seq<Outcome>
    requires Shaped(s)
    decreases |ops|
  {
    if ops == [] then []
    else
      ApplyShaped(s, ops[0]);
      [OutcomeOf(s, ops[0])] + Outcomes(Apply(s, ops[0]), ops[1..])
  }

  // ---------------------------------------------------------------- counting

  /** A counter goes on by one and wraps around. */
  function Next(n: uint64): uint64 {
    if n == 0xFFFF_FFFF_FFFF_FFFF then 0 else n + 1
  }

  function Count(st: Stats, o: Outcome): Stats {
    match o
    case OneHit => st.(hits := Next(st.hits))
    case OneMiss => st.(misses := Next(st.misses))
    case OneEviction => st.(evictions := Next(st.evictions))
    case Quiet => st
  }

  function CountAll(st: Stats, os: seq<Outcome>): Stats
    decreases |os|
  {
    if os == [] then st else CountAll(Count(st, os[0]), os[1..])
  }

  /** How often `o` occurs. */
  function Number(os: seq<Outcome>, o: Outcome): nat {
    if os == [] then 0 else (if os[0] == o then 1 else 0) + Number(os[1..], o)
  }

  lemma {:induction false} CountedAll(st: Stats, os: seq<Outcome>)
    ensures var t := CountAll(st, os);
      && t.hits == (st.hits + Number(os, OneHit)) % 0x1_0000_0000_0000_0000
      && t.misses == (st.misses + Number(os, OneMiss)) % 0x1_0000_0000_0000_0000
      && t.evictions == (st.evictions + Number(os, OneEviction)) % 0x1_0000_0000_0000_0000
    decreases |os|
  {
    if os != [] {
      CountedAll(Count(st, os[0]), os[1..]);
    }
  }

  lemma CountedTo(st: Stats, os: seq<Outcome>, hits: nat, misses: nat, evictions: nat)
    requires hits == Number(os, OneHit) && misses == Number(os, OneMiss) && evictions == Number(os, OneEviction)
    ensures var t := CountAll(st, os);
      && t.hits == (st.hits + hits) % 0x1_0000_0000_0000_0000
      && t.misses == (st.misses + misses) % 0x1_0000_0000_0000_0000
      && t.evictions == (st.evictions + evictions) % 0x1_0000_0000_0000_0000
  {
    CountedAll(st, os);
  }

  // ---------------------------------------------------------------- what a client sees

  /** How many answers found their key. */
  function Found(answers: seq<Answer>): nat {
    if answers == [] then 0 else (if answers[0].Miss? then 0 else 1) + Found(answers[1..])
  }

  /** How many answers did not. */
  function Missed(answers: seq<Answer>): nat {
    if answers == [] then 0 else (if answers[0].Miss? then 1 else 0) + Missed(answers[1..])
  }

  /** How many deletions of a run removed a key from the index. */
  ghost function Removed(s: Shard, ops: seq<Op>): nat
    requires Shaped(s)
    decreases |ops|
  {
    if ops == [] then 0
    else
      ApplyShaped(s, ops[0]);
      var t := Apply(s, ops[0]);
      (if ops[0].OpDelete? && |t.index| < |s.index| then 1 else 0) + Removed(t, ops[1..])
  }

  lemma DeleteRemoves(s: Shard, k: Key)
    ensures |Delete(s, k).index| < |s.index| <==> Holds(s, k)
  {
    if Holds(s, k) {
      var h := s.hash(k);
      assert s.index == (s.index - {h})[h := s.index[h]];
    }
  }

  lemma {:induction false} OutcomesSeen(s: Shard, ops: seq<Op>)
    requires Shaped(s)
    ensures Number(Outcomes(s, ops), OneHit) == Found(Answers(s, ops))
    ensures Number(Outcomes(s, ops), OneMiss) == Missed(Answers(s, ops))
    ensures Number(Outcomes(s, ops), OneEviction) == Removed(s, ops)
    decreases |ops|
  {
    if ops != [] {
      ApplyShaped(s, ops[0]);
      var t, rest := Apply(s, ops[0]), ops[1..];
      OutcomesSeen(t, rest);
      assert ([OutcomeOf(s, ops[0])] + Outcomes(t, rest))[1..] == Outcomes(t, rest);
      if ops[0].OpGet? {
        assert (Reply(s, ops[0]) + Answers(t, rest))[1..] == Answers(t, rest);
      } else {
        assert Reply(s, ops[0]) + Answers(t, rest) == Answers(t, rest);
      }
      if ops[0].OpDelete? {
        DeleteRemoves(s, ops[0].k);
      }
    }
  }
}
