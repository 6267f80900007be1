/** When the residents of a shard outweigh its capacity: exact conditions, and inputs that get there. */
module Capacity {
  import opened StateByte
  import opened RingSums
  import opened Types
  import opened ClockSpec
  import opened ShardSpec
  import opened EvictionOrder
  import opened EvictionFates
  import Ops = ClockOps
  import Gen = Generations

  // ---------------------------------------------------------------- one insertion into the clock

  /** Weight of what an entry contributes unless it belongs to generation `dead`; ids are never negative. */
  function SpareLoad(dead: int): Meta -> int {
    (m: Meta) => if Resident(m) && m.gen != dead then m.weight else 0
  }

  /** Weight of the entries of `v` that do not belong to generation `dead`. */
  function WeighSpare(v: seq<nat>, tab: seq<Meta>, dead: int): int
    requires Within(v, tab)
  {
    if v == [] then 0 else (if tab[v[0]].gen != dead then tab[v[0]].weight else 0) + WeighSpare(v[1..], tab, dead)
  }

  lemma {:induction false} WeighSpareConcat(a: seq<nat>, b: seq<nat>, tab: seq<Meta>, dead: int)
    requires Within(a, tab) && Within(b, tab)
    ensures Within(a + b, tab) && WeighSpare(a + b, tab, dead) == WeighSpare(a, tab, dead) + WeighSpare(b, tab, dead)
  {
    if a == [] {
      assert a + b == b;
    } else {
      WeighSpareConcat(a[1..], b, tab, dead);
      assert (a + b)[1..] == a[1..] + b;
    }
  }

  lemma {:induction false} WeighSpareNonNegative(v: seq<nat>, tab: seq<Meta>, dead: int)
    requires Within(v, tab)
    ensures 0 <= WeighSpare(v, tab, dead)
  {
    if v != [] {
      WeighSpareNonNegative(v[1..], tab, dead);
    }
  }

  lemma {:induction false} WeighSpareSame(v: seq<nat>, tab: seq<Meta>, tab': seq<Meta>, dead: int)
    requires |tab| == |tab'| && Within(v, tab)
    requires forall e | 0 <= e < |tab| :: tab'[e].weight == tab[e].weight && tab'[e].gen == tab[e].gen
    ensures WeighSpare(v, tab', dead) == WeighSpare(v, tab, dead)
  {
    if v != [] {
      WeighSpareSame(v[1..], tab, tab', dead);
    }
  }

  lemma StepSpare(c: ClockState, dead: int)
    requires WellFormed(c) && c.ring != []
    ensures WellFormed(Step(c)) && Within(Evicted([VisitEvent(c.ring[0], c.tab[c.ring[0]].st)]), c.tab)
    ensures Sum(Step(c).ring, Step(c).tab, SpareLoad(dead)) ==
      Sum(c.ring, c.tab, SpareLoad(dead))
      - WeighSpare(Evicted([VisitEvent(c.ring[0], c.tab[c.ring[0]].st)]), c.tab, dead)
  {
    StepWellFormed(c);
    var f, e, m := SpareLoad(dead), c.ring[0], c.tab[c.ring[0]];
    SumRotate(c.ring, c.tab, f);
    EvictedOne(VisitEvent(e, m.st));
    if Resident(m) {
      var turned := c.ring[1..] + [e];
      assert turned[|turned| - 1] == e;
      SumUpdate(turned, c.tab, e, m.(st := Next(m.st)), f);
    }
  }

  /** A run of the loop takes from the residents of any set of generations what it ejects of them. */
  lemma {:induction false} RunSpare(c: ClockState, dead: int)
    requires Evictable(c)
    ensures Within(Victims(c), c.tab)
    ensures Sum(Run(c).ring, Run(c).tab, SpareLoad(dead)) ==
      Sum(c.ring, c.tab, SpareLoad(dead)) - WeighSpare(Victims(c), c.tab, dead)
    decreases RankSum(c)
  {
    VictimsMinimal(c);
    if c.size > c.cap {
      VictimsStep(c);
      StepAccounts(c);
      StepFates(c);
      StepSpare(c, dead);
      RunSpare(Step(c), dead);
      var first := Evicted([VisitEvent(c.ring[0], c.tab[c.ring[0]].st)]);
      WeighSpareConcat(first, Victims(Step(c)), c.tab, dead);
      WeighSpareSame(Victims(Step(c)), c.tab, Step(c).tab, dead);
    } else {
      assert Run(c).log[|c.log|..] == [];
    }
  }

  /**
   Every prefix of the ejection schedule of `r` that lets `size` fit also lets the residents fit,
   those of generation `dead` not counted.
   */
  ghost predicate Suffices(r: ClockState, dead: int)
    requires WellFormed(r)
  {
    var s := Schedule(r.ring, r.tab);
    forall n | 0 <= n <= |s| && Within(s[..n], r.tab) && r.size - Weigh(s[..n], r.tab) <= r.cap ::
      Sum(r.ring, r.tab, SpareLoad(dead)) - WeighSpare(s[..n], r.tab, dead) <= r.cap
  }

  /** After the loop the residents fit exactly if the schedule says so beforehand. */
  lemma RunSuffices(r: ClockState, dead: int)
    requires Evictable(r)
    ensures Sum(Run(r).ring, Run(r).tab, SpareLoad(dead)) <= r.cap <==> Suffices(r, dead)
  {
    var s, v := Schedule(r.ring, r.tab), Victims(r);
    EvictionTheorem(r);
    RunSpare(r, dead);
    assert s[..|v|] == v;
    forall n | |v| <= n <= |s| && Within(s[..n], r.tab)
      ensures WeighSpare(s[..n], r.tab, dead) >= WeighSpare(v, r.tab, dead)
    {
      assert s[..n] == v + s[|v|..n];
      assert Within(s[|v|..n], r.tab);
      WeighSpareConcat(v, s[|v|..n], r.tab, dead);
      WeighSpareNonNegative(s[|v|..n], r.tab, dead);
    }
    forall n | 0 <= n < |v|
      ensures Within(s[..n], r.tab) && r.size - Weigh(s[..n], r.tab) > r.cap
    {
      assert s[..n] == v[..n];
    }
  }

  /** Insertions of any weight leave the residents within the capacity exactly if `size` covers them before. */
  lemma AnyInsertFitsIff(c: ClockState, gen: nat)
    requires Ops.Valid(c)
    ensures forall w: nat :: WellFormed(Ops.Insert(c, w, gen))
    ensures (forall w: nat :: ResidentWeight(Ops.Insert(c, w, gen)) <= c.cap) <==> Phantom(c) >= 0
  {
    forall w: nat
      ensures Phantom(Ops.Insert(c, w, gen)) == Phantom(c)
    {
      Ops.ApplyAccounts(c, Ops.OpInsert(w, gen));
    }
    if Phantom(c) < 0 {
      FillsUp(c, c.cap - c.size, gen);
      assert ResidentWeight(Ops.Insert(c, c.cap - c.size, gen)) > c.cap;
    }
  }

  /** An insertion that fits ejects nothing. */
  lemma FillsUp(c: ClockState, w: nat, gen: nat)
    requires Ops.Valid(c) && c.size + w <= c.cap
    ensures Ops.Insert(c, w, gen) == Ops.Register(c, w, gen)
    ensures ResidentWeight(Ops.Insert(c, w, gen)) == ResidentWeight(c) + w
  {
    Ops.RegisterEvictable(c, w, gen);
    Ops.RegisterAccounts(c, w, gen);
  }

  // ---------------------------------------------------------------- one operation of the shard

  /** How much an operation adds to what the residents weigh beyond `size`. */
  function Raise(s: Shard, op: Op): int
    requires Indexed(s)
  {
    if op.OpPut? && Holds(s, op.k) then
      var e := s.index[s.hash(op.k)];
      if e in s.clock.ring && Resident(s.clock.tab[e]) then Weight32(op.w) - s.clock.tab[e].weight else 0
    else if op.OpDelete? && Holds(s, op.k) then
      var e := s.index[s.hash(op.k)];
      if e in s.clock.ring && !Resident(s.clock.tab[e]) then s.clock.tab[e].weight else 0
    else 0
  }

  lemma RotateKeepsPhantom(s: Shard)
    requires Shaped(s)
    ensures Shaped(Rotate(s)) && Phantom(Rotate(s).clock) == Phantom(s.clock) && Rotate(s).clock.cap == s.clock.cap
  {
    RotateShaped(s);
    if |s.gens.mem| >= Gen.SLOTS {
      Ops.GenerationEvictedAccounts(s.clock, Gen.Id(|s.gens.mem| - Gen.SLOTS));
    }
  }

  /** Only updates of residents and deletions of ghosts move the accounts. */
  lemma ApplyRaises(s: Shard, op: Op)
    requires Shaped(s)
    ensures Shaped(Apply(s, op)) && Apply(s, op).clock.cap == s.clock.cap
    ensures Phantom(Apply(s, op).clock) == Phantom(s.clock) - Raise(s, op)
  {
    ApplyShaped(s, op);
    match op
    case OpPut(k, v, w) =>
      var gen := Gen.Id(|s.gens.mem| - 1);
      if Holds(s, k) {
        Ops.UpdateAccounts(s.clock, s.index[s.hash(k)], Weight32(w), gen);
      } else {
        PutShaped(s, k, v, w);
        Ops.ApplyAccounts(s.clock, Ops.OpInsert(Weight32(w), gen));
        RotateKeepsPhantom(Recorded(Add(s, k, v, w), w));
      }
    case OpGet(k) =>
      if Holds(s, k) {
        Ops.SetReferencedAccounts(s.clock, s.index[s.hash(k)]);
      }
    case OpDelete(k) =>
      if Holds(s, k) {
        Ops.RemoveAccounts(s.clock, s.index[s.hash(k)]);
      }
    case OpRotate => RotateKeepsPhantom(s);
  }

  /** The id of the generation an inserting put makes its rotation sweep, -1 if none. */
  function Swept(s: Shard, w: int): int
    requires |s.gens.bytes| == |s.gens.mem| > 0
  {
    if s.gens.bytes[|s.gens.bytes| - 1] + w > s.gens.perGen && |s.gens.mem| >= Gen.SLOTS
    then Gen.Id(|s.gens.mem| - Gen.SLOTS)
    else -1
  }

  /** What can be read off a shard before a put to tell whether its residents will fit afterwards. */
  ghost predicate PutFits(s: Shard, k: Key, v: Value, w: int)
    requires Shaped(s)
  {
    if Holds(s, k) then ResidentWeight(s.clock) + Raise(s, OpPut(k, v, w)) <= s.clock.cap
    else
      Ops.RegisterAccounts(s.clock, Weight32(w), Gen.Id(|s.gens.mem| - 1));
      Suffices(Ops.Register(s.clock, Weight32(w), Gen.Id(|s.gens.mem| - 1)), Swept(s, w))
  }

  lemma {:induction false} SumSame(ring: seq<nat>, tab: seq<Meta>, tab': seq<Meta>, f: Meta -> int, g: Meta -> int)
    requires Within(ring, tab) && Within(ring, tab')
    requires forall i | 0 <= i < |ring| :: f(tab'[ring[i]]) == g(tab[ring[i]])
    ensures Sum(ring, tab', f) == Sum(ring, tab, g)
  {
    if ring != [] {
      assert forall i | 0 <= i < |ring[1..]| :: ring[1..][i] == ring[i + 1];
      SumSame(ring[1..], tab, tab', f, g);
    }
  }

  lemma SweptResidents(c: ClockState, gen: nat)
    requires WellFormed(c)
    ensures WellFormed(Ops.GenerationEvicted(c, gen))
    ensures ResidentWeight(Ops.GenerationEvicted(c, gen)) == Sum(c.ring, c.tab, SpareLoad(gen))
  {
    Ops.GenerationEvictedAccounts(c, gen);
    Ops.GenerationEvictedEntries(c, gen);
    SumSame(c.ring, c.tab, Ops.GenerationEvicted(c, gen).tab, Load, SpareLoad(gen));
  }

  /** After an inserting put the residents are those the loop left, without the ones its rotation sweeps. */
  lemma SettledResidents(s: Shard, k: Key, v: Value, w: int)
    requires Shaped(s) && !Holds(s, k)
    ensures Shaped(Put(s, k, v, w)) && Shaped(Add(s, k, v, w))
    ensures var d := Add(s, k, v, w).clock;
      ResidentWeight(Put(s, k, v, w).clock) == Sum(d.ring, d.tab, SpareLoad(Swept(s, w)))
  {
    PutShaped(s, k, v, w);
    var d := Add(s, k, v, w).clock;
    if Swept(s, w) >= 0 {
      SweptResidents(d, Swept(s, w));
    } else {
      SumSame(d.ring, d.tab, d.tab, Load, SpareLoad(-1));
    }
  }

  /**
   From any state, a put leaves the residents within the capacity exactly if: as an update, the new
   weight fits in place of a resident's old one; as an insertion, every prefix of the ejection schedule
   that lets `size` fit lets the residents fit as well, those a rotation turns into ghosts not counted.
   */
  lemma PutWithinCapacityIff(s: Shard, k: Key, v: Value, w: int)
    requires Shaped(s)
    ensures Shaped(Put(s, k, v, w))
    ensures ResidentWeight(Put(s, k, v, w).clock) <= s.clock.cap <==> PutFits(s, k, v, w)
  {
    if Holds(s, k) {
      ApplyRaises(s, OpPut(k, v, w));
    } else {
      var gen := Gen.Id(|s.gens.mem| - 1);
      Ops.RegisterEvictable(s.clock, Weight32(w), gen);
      RunSuffices(Ops.Register(s.clock, Weight32(w), gen), Swept(s, w));
      SettledResidents(s, k, v, w);
    }
  }

  // ---------------------------------------------------------------- inputs that outgrow the capacity

  /** Until four generations exist, a rotation leaves the clock alone. */
  lemma EarlyPut(s: Shard, k: Key, v: Value, w: int)
    requires Shaped(s) && !Holds(s, k) && |s.gens.mem| < Gen.SLOTS && 0 <= w < WEIGHT_MOD
    ensures Shaped(Put(s, k, v, w))
    ensures var t := Put(s, k, v, w);
      && t.clock == Ops.Insert(s.clock, w, Gen.Id(|s.gens.mem| - 1))
      && t.index == s.index[s.hash(k) := |s.body|] && |t.gens.mem| <= |s.gens.mem| + 1 && t.hash == s.hash
      && t.body[..|s.body|] == s.body && |t.body| == |s.body| + 1 && t.body[|s.body|].key == k
  {
    PutShaped(s, k, v, w);
  }

  lemma FirstPut(capBytes: nat, hash: Key -> nat, k: Key, v: Value, w: int)
    requires 0 < capBytes && 0 <= w <= capBytes && w < WEIGHT_MOD
    ensures Shaped(Put(Empty(capBytes, hash), k, v, w))
    ensures var s := Put(Empty(capBytes, hash), k, v, w);
      && s.clock == Ops.Register(Ops.Empty(capBytes), w, Gen.Id(0)) && s.hash == hash
      && s.index == map[hash(k) := 0] && |s.body| == 1 && s.body[0].key == k && |s.gens.mem| <= 2
  {
    EarlyPut(Empty(capBytes, hash), k, v, w);
    FillsUp(Ops.Empty(capBytes), w, Gen.Id(0));
  }

  /** The accounts after a first put are exact. */
  lemma FirstPutExact(capBytes: nat, hash: Key -> nat, k: Key, v: Value, w: int)
    requires 0 < capBytes && 0 <= w <= capBytes && w < WEIGHT_MOD
    ensures Shaped(Put(Empty(capBytes, hash), k, v, w))
    ensures Phantom(Put(Empty(capBytes, hash), k, v, w).clock) == 0
  {
    ApplyRaises(Empty(capBytes, hash), OpPut(k, v, w));
  }

  /** An update that raises a weight beyond the capacity takes effect at once, and `size` does not notice. */
  lemma UpdateOutgrowsCapacity(capBytes: nat, hash: Key -> nat, k: Key, v: Value, x: nat)
    requires 0 < capBytes && x < WEIGHT_MOD
    ensures var s := RunShard(Empty(capBytes, hash), [OpPut(k, v, 0), OpPut(k, v, x)]);
      && s.clock.size == 0 && ResidentWeight(s.clock) == x
      && s.index == map[hash(k) := 0] && |s.body| == 1 && s.body[0].key == k && |s.gens.mem| <= 2
      && s.clock.cap == capBytes && s.hash == hash
  {
    var ops := [OpPut(k, v, 0), OpPut(k, v, x)];
    var s1 := Put(Empty(capBytes, hash), k, v, 0);
    FirstPut(capBytes, hash, k, v, 0);
    FirstPutExact(capBytes, hash, k, v, 0);
    ApplyRaises(s1, ops[1]);
    RunTwo(Empty(capBytes, hash), ops);
  }

  /** While there is room, a put adds its weight to `size` and to the residents. */
  lemma PutWithRoom(s: Shard, k: Key, v: Value, w: nat)
    requires Shaped(s) && !Holds(s, k) && |s.gens.mem| < Gen.SLOTS && w < WEIGHT_MOD
    requires s.clock.size + w <= s.clock.cap
    ensures Shaped(Put(s, k, v, w)) && Holds(Put(s, k, v, w), k)
    ensures var t := Put(s, k, v, w);
      && t.clock.size == s.clock.size + w && ResidentWeight(t.clock) == ResidentWeight(s.clock) + w
      && t.clock.cap == s.clock.cap && |t.gens.mem| <= |s.gens.mem| + 1
      && t.hash == s.hash && t.index.Keys == s.index.Keys + {s.hash(k)}
  {
    EarlyPut(s, k, v, w);
    FillsUp(s.clock, w, Gen.Id(|s.gens.mem| - 1));
  }

  /**
   The put that breaks the promise may be an insertion: an update goes unnoticed by `size` even if it
   stays within the capacity, and a later insertion that does so as well ejects nothing.
   */
  lemma InsertionOutgrowsCapacity(capBytes: nat, hash: Key -> nat, a: Key, b: Key, v: Value, x: nat, y: nat)
    requires 0 < capBytes && hash(a) != hash(b)
    requires y <= capBytes && x < WEIGHT_MOD && y < WEIGHT_MOD
    ensures ResidentWeight(RunShard(Empty(capBytes, hash), [OpPut(a, v, 0), OpPut(a, v, x)]).clock) == x
    ensures var s := RunShard(Empty(capBytes, hash), [OpPut(a, v, 0), OpPut(a, v, x), OpPut(b, v, y)]);
      && s.clock.size == y && ResidentWeight(s.clock) == x + y
      && s.clock.cap == capBytes && s.hash == hash && s.index.Keys == {hash(a), hash(b)} && |s.gens.mem| <= 3
  {
    var ops := [OpPut(a, v, 0), OpPut(a, v, x)];
    var s := RunShard(Empty(capBytes, hash), ops);
    UpdateOutgrowsCapacity(capBytes, hash, a, v, x);
    PutWithRoom(s, b, v, y);
    RunMore(Empty(capBytes, hash), ops, [OpPut(b, v, y)]);
    RunOne(s, OpPut(b, v, y));
    assert ops + [OpPut(b, v, y)] == [OpPut(a, v, 0), OpPut(a, v, x), OpPut(b, v, y)];
  }

  /**
   Room for the heaviest weight beside the residents protects the next insertion only: here the first
   one leaves the residents within the capacity, and the second one, which `size` lets in, does not.
   */
  lemma SecondInsertionOutgrowsCapacity(capBytes: nat, hash: Key -> nat, a: Key, b: Key, d: Key, v: Value,
                                        x: nat, y: nat)
    requires hash(a) != hash(b) && hash(a) != hash(d) && hash(b) != hash(d)
    requires 0 < x <= y < WEIGHT_MOD && capBytes == WEIGHT_MOD - 1 + y
    ensures var ops := [OpPut(a, v, 0), OpPut(a, v, x), OpPut(b, v, WEIGHT_MOD - 1)];
      && ResidentWeight(RunShard(Empty(capBytes, hash), ops).clock) == x + WEIGHT_MOD - 1 <= capBytes
      && RunShard(Empty(capBytes, hash), ops + [OpPut(d, v, y)]).clock.size == capBytes
      && ResidentWeight(RunShard(Empty(capBytes, hash), ops + [OpPut(d, v, y)]).clock) == capBytes + x
  {
    var ops := [OpPut(a, v, 0), OpPut(a, v, x), OpPut(b, v, WEIGHT_MOD - 1)];
    var s := RunShard(Empty(capBytes, hash), ops);
    InsertionOutgrowsCapacity(capBytes, hash, a, b, v, x, WEIGHT_MOD - 1);
    PutWithRoom(s, d, v, y);
    RunMore(Empty(capBytes, hash), ops, [OpPut(d, v, y)]);
    RunOne(s, OpPut(d, v, y));
  }

  /** Two entries that fill the clock each: the hand passes both twice, then ejects the older one. */
  lemma SecondFills(cap: nat, g: nat, g': nat)
    requires cap > 0
    ensures Ops.Valid(Ops.Register(Ops.Empty(cap), cap, g))
    ensures var d := Ops.Insert(Ops.Register(Ops.Empty(cap), cap, g), cap, g');
      && d.ring == [1, 0] && d.size == cap && |d.tab| == 2
      && d.tab[0] == Meta(State(Test, false), cap, g) && d.tab[1] == Meta(State(Cold, false), cap, g')
  {
    FillsUp(Ops.Empty(cap), cap, g);
    var c := Ops.Register(Ops.Empty(cap), cap, g);
    var r := Ops.Register(c, cap, g');
    Ops.RegisterEvictable(c, cap, g');
    RunStep(r);
    var r1 := Step(r);
    assert r1.ring == [1, 0] && r1.tab == [Meta(State(Hot, false), cap, g), Meta(State(Cold, true), cap, g')];
    RunStep(r1);
    var r2 := Step(r1);
    assert r2.ring == [0, 1] && r2.tab == [Meta(State(Hot, false), cap, g), Meta(State(Hot, false), cap, g')];
    RunStep(r2);
    var r3 := Step(r2);
    assert r3.ring == [1, 0] && r3.tab == [Meta(State(Cold, false), cap, g), Meta(State(Hot, false), cap, g')];
    RunStep(r3);
    var r4 := Step(r3);
    assert r4.ring == [0, 1] && r4.tab == [Meta(State(Cold, false), cap, g), Meta(State(Cold, false), cap, g')];
    RunStep(r4);
    var r5 := Step(r4);
    assert r5.ring == [1, 0] && r5.tab == [Meta(State(Test, false), cap, g), Meta(State(Cold, false), cap, g')];
    assert Run(r5) == r5;
  }

  lemma GhostDeleted(capBytes: nat, hash: Key -> nat, a: Key, b: Key, v: Value)
    requires 0 < capBytes < WEIGHT_MOD && hash(a) != hash(b)
    ensures var w := capBytes;
      var s := RunShard(Empty(capBytes, hash), [OpPut(a, v, w), OpPut(b, v, w), OpDelete(a)]);
      && s.clock.size == 0 && ResidentWeight(s.clock) == capBytes && s.clock.cap == capBytes
      && !Holds(s, a) && |s.gens.mem| < Gen.SLOTS
  {
    var w := capBytes;
    var ops := [OpPut(a, v, w), OpPut(b, v, w)];
    var s1 := Put(Empty(capBytes, hash), a, v, w);
    FirstPut(capBytes, hash, a, v, w);
    FirstPutExact(capBytes, hash, a, v, w);
    var s2 := Put(s1, b, v, w);
    EarlyPut(s1, b, v, w);
    SecondFills(w, Gen.Id(0), Gen.Id(|s1.gens.mem| - 1));
    ApplyRaises(s1, OpPut(b, v, w));
    assert s2.clock.ring[1] == 0;
    ApplyRaises(s2, OpDelete(a));
    RunTwo(Empty(capBytes, hash), ops);
    RunMore(Empty(capBytes, hash), ops, [OpDelete(a)]);
    RunOne(s2, OpDelete(a));
    assert ops + [OpDelete(a)] == [OpPut(a, v, w), OpPut(b, v, w), OpDelete(a)];
  }

  /**
   No update is needed either: deleting a key that became a ghost takes its weight off `size` although it
   no longer counted, so the next insertion finds room that is not there.
   */
  lemma DeletionOutgrowsCapacity(capBytes: nat, hash: Key -> nat, a: Key, b: Key, v: Value)
    requires 0 < capBytes < WEIGHT_MOD && hash(a) != hash(b)
    ensures var w := capBytes;
      var s := RunShard(Empty(capBytes, hash), [OpPut(a, v, w), OpPut(b, v, w), OpDelete(a), OpPut(a, v, w)]);
      s.clock.size == capBytes && ResidentWeight(s.clock) == 2 * capBytes
  {
    var w := capBytes;
    var ops := [OpPut(a, v, w), OpPut(b, v, w), OpDelete(a)];
    var s := RunShard(Empty(capBytes, hash), ops);
    GhostDeleted(capBytes, hash, a, b, v);
    EarlyPut(s, a, v, w);
    FillsUp(s.clock, w, Gen.Id(|s.gens.mem| - 1));
    RunMore(Empty(capBytes, hash), ops, [OpPut(a, v, w)]);
    RunOne(s, OpPut(a, v, w));
    assert ops + [OpPut(a, v, w)] == [OpPut(a, v, w), OpPut(b, v, w), OpDelete(a), OpPut(a, v, w)];
  }
}
