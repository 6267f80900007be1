/** The operations of the clock on values, what each does to the accounting, and runs of operations. */
module ClockOps {
  import opened StateByte
  import opened RingSums
  import opened ClockSpec
  import Fates = EvictionFates

  /** What every operation of the clock keeps. */
  predicate Valid(c: ClockState) {
    WellFormed(c) && c.size <= c.cap
  }

  function Empty(cap: nat): (c: ClockState)
    ensures Valid(c)
  {
    ClockState([], [], 0, cap, [])
  }

  // ---------------------------------------------------------------- operations

  /** A fresh entry at the back of the ring, cold and referenced. */
  function Register(c: ClockState, weight: nat, gen: nat): ClockState {
    var e := |c.tab|;
    ClockState(c.ring + [e], c.tab + [Meta(State(Cold, true), weight, gen)], c.size + weight, c.cap, c.log + [Touch(e)])
  }

  ghost function Insert(c: ClockState, weight: nat, gen: nat): (d: ClockState)
    requires Valid(c)
    ensures Valid(d) && d.cap == c.cap && |d.tab| == |c.tab| + 1
  {
    RegisterAccounts(c, weight, gen);
    EvictableWithin(c);
    RunTab(Register(c, weight, gen));
    Run(Register(c, weight, gen))
  }

  function SetReferenced(c: ClockState, e: nat): ClockState {
    if e < |c.tab| then
      c.(tab := c.tab[e := c.tab[e].(st := c.tab[e].st.(ref := true))], log := c.log + [Touch(e)])
    else c
  }

  function Without(ring: seq<nat>, e: nat): seq<nat> {
    if ring == [] then []
    else if ring[0] == e then ring[1..]
    else [ring[0]] + Without(ring[1..], e)
  }

  function Remove(c: ClockState, e: nat): ClockState {
    if e in c.ring && e < |c.tab| then
      c.(ring := Without(c.ring, e), size := c.size - c.tab[e].weight)
    else c
  }

  predicate OfGen(m: Meta, gen: nat) {
    Resident(m) && m.gen == gen
  }

  function GenLoad(gen: nat): Meta -> int {
    (m: Meta) => if OfGen(m, gen) then m.weight else 0
  }

  /** The sweep's action on a single entry. */
  function SweepOne(c: ClockState, e: nat, gen: nat): ClockState
    requires e < |c.tab|
  {
    var m := c.tab[e];
    if OfGen(m, gen) then
      c.(tab := c.tab[e := m.(st := State(Test, false))], size := c.size - m.weight)
    else c
  }

  /** The sweep from node `i` of the ring on. */
  function SweepFrom(c: ClockState, i: nat, gen: nat): (d: ClockState)
    requires Within(c.ring, c.tab) && i <= |c.ring|
    ensures |d.tab| == |c.tab| && d.ring == c.ring && d.cap == c.cap && d.log == c.log
    decreases |c.ring| - i
  {
    if i == |c.ring| then c else SweepFrom(SweepOne(c, c.ring[i], gen), i + 1, gen)
  }

  function GenerationEvicted(c: ClockState, gen: nat): ClockState
    requires Within(c.ring, c.tab)
  {
    SweepFrom(c, 0, gen)
  }

  /** An in-place update of an entry by the shard, behind the clock's back. */
  function Update(c: ClockState, e: nat, weight: nat, gen: nat): ClockState {
    if e < |c.tab| then c.(tab := c.tab[e := Meta(c.tab[e].st, weight, gen)]) else c
  }

  // ---------------------------------------------------------------- accounting, operation by operation

  lemma ResidentWeightNonNegative(c: ClockState)
    requires WellFormed(c)
    ensures 0 <= ResidentWeight(c) && Phantom(c) <= c.size
  {
    SumNonNegative(c.ring, c.tab, Load);
  }

  lemma EvictableWithin(c: ClockState)
    requires Valid(c)
    ensures Evictable(c)
  {
    ResidentWeightNonNegative(c);
  }

  lemma RegisterAccounts(c: ClockState, weight: nat, gen: nat)
    requires WellFormed(c)
    ensures WellFormed(Register(c, weight, gen)) && Phantom(Register(c, weight, gen)) == Phantom(c)
  {
    var d, e := Register(c, weight, gen), |c.tab|;
    SumConcat(c.ring, [e], d.tab, Load);
    SumFrame(c.ring, c.tab, d.tab, Load);
  }

  /** A new entry has the state byte 0x80, cold and referenced, and the weight and generation it came with. */
  lemma RegisteredEntry(c: ClockState, weight: nat, gen: nat)
    ensures var d := Register(c, weight, gen);
      && d.tab[..|c.tab|] == c.tab && |d.tab| == |c.tab| + 1
      && Encode(d.tab[|c.tab|].st) == 0x80
      && d.tab[|c.tab|].weight == weight && d.tab[|c.tab|].gen == gen
  {
  }

  /** A reference sets the top bit of the entry's state byte, resident or ghost, and changes nothing else. */
  lemma ReferencedEntry(c: ClockState, e: nat)
    requires e < |c.tab|
    ensures var d := SetReferenced(c, e);
      && Encode(d.tab[e].st) == Encode(c.tab[e].st) | 0x80
      && d.tab == c.tab[e := Meta(d.tab[e].st, c.tab[e].weight, c.tab[e].gen)]
      && d.ring == c.ring && d.size == c.size && d.cap == c.cap
  {
    var st := c.tab[e].st;
    var kind := KindBits(st.kind);
    assert kind | 0x80 | 0x80 == kind | 0x80;
    assert kind | 0 == kind;
  }

  /** An update in place leaves the state byte, the order and `size` alone. */
  lemma UpdatedEntry(c: ClockState, e: nat, weight: nat, gen: nat)
    requires e < |c.tab|
    ensures var d := Update(c, e, weight, gen);
      && d.tab == c.tab[e := d.tab[e]] && Encode(d.tab[e].st) == Encode(c.tab[e].st)
      && d.tab[e].weight == weight && d.tab[e].gen == gen
      && d.ring == c.ring && d.size == c.size && d.cap == c.cap && d.log == c.log
  {
  }

  lemma {:induction false} RunTab(c: ClockState)
    requires Evictable(c)
    ensures |Run(c).tab| == |c.tab|
    decreases RankSum(c)
  {
    if c.size > c.cap {
      OverBudgetHasResident(c);
      StepAccounts(c);
      RunTab(Step(c));
    }
  }

  lemma SetReferencedAccounts(c: ClockState, e: nat)
    requires WellFormed(c)
    ensures WellFormed(SetReferenced(c, e)) && Phantom(SetReferenced(c, e)) == Phantom(c)
  {
    if e < |c.tab| {
      SumUpdate(c.ring, c.tab, e, c.tab[e].(st := c.tab[e].st.(ref := true)), Load);
    }
  }

  /** Removing keeps the remaining order. */
  lemma {:induction false} WithoutAt(ring: seq<nat>, i: nat)
    requires Distinct(ring) && i < |ring|
    ensures Without(ring, ring[i]) == ring[..i] + ring[i + 1..]
  {
    if i > 0 {
      WithoutAt(ring[1..], i - 1);
      assert [ring[0]] + ring[1..][..i - 1] == ring[..i];
      assert ring[1..][i..] == ring[i + 1..];
    }
  }

  lemma {:induction false} WithoutAbsent(ring: seq<nat>, e: nat)
    requires e !in ring
    ensures Without(ring, e) == ring
  {
    if ring != [] {
      WithoutAbsent(ring[1..], e);
    }
  }

  lemma WithoutMembers(ring: seq<nat>, e: nat)
    requires Distinct(ring) && e in ring
    ensures e !in Without(ring, e) && Distinct(Without(ring, e))
    ensures forall x | x != e :: x in Without(ring, e) <==> x in ring
  {
    var i :| 0 <= i < |ring| && ring[i] == e;
    WithoutAt(ring, i);
    assert ring == ring[..i] + [e] + ring[i + 1..];
  }

  lemma {:induction false} SumWithout(ring: seq<nat>, tab: seq<Meta>, e: nat, f: Meta -> int)
    requires Within(ring, tab) && Distinct(ring) && e in ring
    ensures Within(Without(ring, e), tab)
    ensures Sum(ring, tab, f) == f(tab[e]) + Sum(Without(ring, e), tab, f)
  {
    if ring[0] != e {
      assert forall i | 0 <= i < |ring[1..]| :: ring[1..][i] == ring[i + 1];
      SumWithout(ring[1..], tab, e, f);
      assert Without(ring, e)[1..] == Without(ring[1..], e);
    }
  }

  /** Removing a resident keeps the accounts; removing a ghost takes its weight off `size` once too often. */
  lemma RemoveAccounts(c: ClockState, e: nat)
    requires WellFormed(c)
    ensures WellFormed(Remove(c, e))
    ensures Phantom(Remove(c, e)) ==
      Phantom(c) - (if e in c.ring && !Resident(c.tab[e]) then c.tab[e].weight else 0)
  {
    if e in c.ring {
      WithoutMembers(c.ring, e);
      SumWithout(c.ring, c.tab, e, Load);
    }
  }

  lemma RemoveAt(c: ClockState, i: nat)
    requires WellFormed(c) && i < |c.ring|
    ensures Remove(c, c.ring[i]) ==
      c.(ring := c.ring[..i] + c.ring[i + 1..], size := c.size - c.tab[c.ring[i]].weight)
  {
    WithoutAt(c.ring, i);
  }

  function GhostTab(tab: seq<Meta>, q: seq<nat>, gen: nat): seq<Meta> {
    seq(|tab|, e requires 0 <= e < |tab| =>
      if e in q && OfGen(tab[e], gen) then tab[e].(st := State(Test, false)) else tab[e])
  }

  /** The residents of generation `gen` among `q` made ghosts and no longer counted. */
  ghost function Ghosted(c: ClockState, q: seq<nat>, gen: nat): ClockState
    requires Within(q, c.tab)
  {
    c.(tab := GhostTab(c.tab, q, gen), size := c.size - Sum(q, c.tab, GenLoad(gen)))
  }

  lemma GhostedNext(c: ClockState, q: seq<nat>, e: nat, gen: nat)
    requires Within(q, c.tab) && e < |c.tab| && e !in q
    ensures Within(q + [e], c.tab)
    ensures Ghosted(c, q + [e], gen) == SweepOne(Ghosted(c, q, gen), e, gen)
  {
    SumConcat(q, [e], c.tab, GenLoad(gen));
    assert Ghosted(c, q + [e], gen).tab == SweepOne(Ghosted(c, q, gen), e, gen).tab;
  }

  lemma {:induction false} SweepFromGhosted(c: ClockState, i: nat, gen: nat)
    requires WellFormed(c) && i <= |c.ring| && Within(c.ring[..i], c.tab)
    ensures SweepFrom(Ghosted(c, c.ring[..i], gen), i, gen) == Ghosted(c, c.ring, gen)
    decreases |c.ring| - i
  {
    if i == |c.ring| {
      assert c.ring[..i] == c.ring;
    } else {
      assert c.ring[..i + 1] == c.ring[..i] + [c.ring[i]];
      GhostedNext(c, c.ring[..i], c.ring[i], gen);
      SweepFromGhosted(c, i + 1, gen);
    }
  }

  /**
   The whole sweep: exactly the residents of generation `gen` on the ring become unreferenced ghosts,
   `size` drops by exactly their weight, and order and every other state stay as they were.
   */
  lemma GenerationEvictedClosedForm(c: ClockState, gen: nat)
    requires WellFormed(c)
    ensures GenerationEvicted(c, gen) ==
      c.(tab := GhostTab(c.tab, c.ring, gen), size := c.size - Sum(c.ring, c.tab, GenLoad(gen)))
  {
    assert c.ring[..0] == [];
    assert GhostTab(c.tab, [], gen) == c.tab;
    SweepFromGhosted(c, 0, gen);
  }

  /** The same, entry by entry. */
  lemma GenerationEvictedEntries(c: ClockState, gen: nat)
    requires WellFormed(c)
    ensures var d := GenerationEvicted(c, gen);
      forall e | 0 <= e < |c.tab| ::
        && d.tab[e].weight == c.tab[e].weight && d.tab[e].gen == c.tab[e].gen
        && (Resident(d.tab[e]) <==> Resident(c.tab[e]) && (e !in c.ring || c.tab[e].gen != gen))
  {
    GenerationEvictedClosedForm(c, gen);
  }

  /** The sweep leaves the byte 0x02 in the residents of the generation on the ring, and all other bytes alone. */
  lemma SweptBytes(c: ClockState, gen: nat, e: nat)
    requires WellFormed(c) && e < |c.tab|
    ensures var d := GenerationEvicted(c, gen);
      Encode(d.tab[e].st) ==
        if e in c.ring && c.tab[e].gen == gen && Encode(c.tab[e].st) & 0x02 == 0 then 0x02
        else Encode(c.tab[e].st)
  {
    GenerationEvictedClosedForm(c, gen);
    EncodeDecode(c.tab[e].st);
    TestBit(Encode(c.tab[e].st));
  }

  lemma GenerationEvictedAccounts(c: ClockState, gen: nat)
    requires WellFormed(c)
    ensures WellFormed(GenerationEvicted(c, gen))
    ensures Phantom(GenerationEvicted(c, gen)) == Phantom(c)
    ensures GenerationEvicted(c, gen).size <= c.size
  {
    GenerationEvictedClosedForm(c, gen);
    SumSplit(c.ring, c.tab, GhostTab(c.tab, c.ring, gen), Load, Load, GenLoad(gen));
    SumNonNegative(c.ring, c.tab, GenLoad(gen));
  }

  /** A second sweep for the same generation finds nothing left to do. */
  lemma GenerationEvictedTwice(c: ClockState, gen: nat)
    requires WellFormed(c)
    ensures GenerationEvicted(GenerationEvicted(c, gen), gen) == GenerationEvicted(c, gen)
  {
    var d := GenerationEvicted(c, gen);
    GenerationEvictedClosedForm(c, gen);
    GenerationEvictedClosedForm(d, gen);
    SumZero(d.ring, d.tab, GenLoad(gen));
    assert GhostTab(d.tab, d.ring, gen) == d.tab;
  }

  lemma UpdateAccounts(c: ClockState, e: nat, weight: nat, gen: nat)
    requires WellFormed(c)
    ensures WellFormed(Update(c, e, weight, gen))
    ensures Phantom(Update(c, e, weight, gen)) ==
      Phantom(c) - (if e in c.ring && Resident(c.tab[e]) then weight - c.tab[e].weight else 0)
  {
    if e < |c.tab| {
      SumUpdate(c.ring, c.tab, e, Meta(c.tab[e].st, weight, gen), Load);
    }
  }

  lemma RemoveSize(c: ClockState, e: nat)
    ensures Remove(c, e).size <= c.size && Remove(c, e).tab == c.tab
  {
  }

  /**
   What an insertion does to single entries: no weight or generation changes, no ghost becomes a
   resident, only ghosts leave the ring, and entries off the ring stay as they were.
   */
  lemma InsertEntries(c: ClockState, weight: nat, gen: nat)
    requires Valid(c)
    ensures var d, r := Insert(c, weight, gen), Register(c, weight, gen);
      && Fates.SameEntries(r, d) && Fates.OnlyGhostsLeave(r, d)
      && d.tab[|c.tab|].weight == weight && d.tab[|c.tab|].gen == gen
      && forall e | 0 <= e < |c.tab| ::
           && d.tab[e].weight == c.tab[e].weight && d.tab[e].gen == c.tab[e].gen
           && (Resident(d.tab[e]) ==> Resident(c.tab[e]))
  {
    RegisterAccounts(c, weight, gen);
    EvictableWithin(c);
    Fates.RunFates(Register(c, weight, gen));
  }

  /** Removing the entry at position `i` closes the gap and keeps the clock valid. */
  lemma RemoveValid(c: ClockState, i: nat)
    requires Valid(c) && i < |c.ring|
    ensures Valid(Remove(c, c.ring[i]))
    ensures Remove(c, c.ring[i]) ==
      c.(ring := c.ring[..i] + c.ring[i + 1..], size := c.size - c.tab[c.ring[i]].weight)
  {
    RemoveAt(c, i);
    RemoveAccounts(c, c.ring[i]);
  }

  lemma RegisterEvictable(c: ClockState, weight: nat, gen: nat)
    requires Valid(c)
    ensures Evictable(Register(c, weight, gen))
  {
    RegisterAccounts(c, weight, gen);
    EvictableWithin(c);
  }

  lemma GenerationEvictedValid(c: ClockState, gen: nat)
    requires Valid(c)
    ensures Valid(GenerationEvicted(c, gen))
  {
    GenerationEvictedAccounts(c, gen);
  }

  // ---------------------------------------------------------------- runs

  datatype Op =
    | OpInsert(weight: nat, gen: nat)
    | OpTouch(e: nat)
    | OpRemove(e: nat)
    | OpGeneration(gen: nat)
    | OpUpdate(e: nat, weight: nat, gen: nat)

  ghost function Apply(c: ClockState, op: Op): ClockState
    requires Valid(c)
  {
    match op
    case OpInsert(w, g) => Insert(c, w, g)
    case OpTouch(e) => SetReferenced(c, e)
    case OpRemove(e) => Remove(c, e)
    case OpGeneration(g) => GenerationEvicted(c, g)
    case OpUpdate(e, w, g) => Update(c, e, w, g)
  }

  /** How far the resident weight runs ahead of `size` because of one operation. */
  function Drift(c: ClockState, op: Op): int {
    match op
    case OpRemove(e) =>
      if e in c.ring && e < |c.tab| && !Resident(c.tab[e]) then c.tab[e].weight else 0
    case OpUpdate(e, w, g) =>
      if e in c.ring && e < |c.tab| && Resident(c.tab[e]) then w - c.tab[e].weight else 0
    case _ => 0
  }

  /** Every operation keeps `Valid`, whatever happened before, and shifts the accounts by its drift only. */
  lemma ApplyAccounts(c: ClockState, op: Op)
    requires Valid(c)
    ensures Valid(Apply(c, op)) && Apply(c, op).cap == c.cap
    ensures Phantom(Apply(c, op)) == Phantom(c) - Drift(c, op)
  {
    match op
    case OpInsert(w, g) =>
      RegisterAccounts(c, w, g);
      EvictableWithin(c);
    case OpTouch(e) => SetReferencedAccounts(c, e);
    case OpRemove(e) => RemoveAccounts(c, e);
    case OpGeneration(g) => GenerationEvictedAccounts(c, g);
    case OpUpdate(e, w, g) => UpdateAccounts(c, e, w, g);
  }

  ghost function RunOps(c: ClockState, ops: seq<Op>): (d: ClockState)
    requires Valid(c)
    ensures Valid(d) && d.cap == c.cap
    decreases |ops|
  {
    if ops == [] then c
    else
      ApplyAccounts(c, ops[0]);
      RunOps(Apply(c, ops[0]), ops[1..])
  }

  ghost function TotalDrift(c: ClockState, ops: seq<Op>): int
    requires Valid(c)
    decreases |ops|
  {
    if ops == [] then 0
    else
      ApplyAccounts(c, ops[0]);
      Drift(c, ops[0]) + TotalDrift(Apply(c, ops[0]), ops[1..])
  }

  /** Exact accounting over any run: `size` plus the drift is the resident weight. */
  lemma {:induction false} DriftLaw(c: ClockState, ops: seq<Op>)
    requires Valid(c)
    ensures RunOps(c, ops).size + TotalDrift(c, ops) == ResidentWeight(RunOps(c, ops)) - ResidentWeight(c) + c.size
    decreases |ops|
  {
    if ops != [] {
      ApplyAccounts(c, ops[0]);
      DriftLaw(Apply(c, ops[0]), ops[1..]);
    }
  }

  /** From an empty clock the accounts are exact precisely when the drifts cancel, and the residents fit then. */
  lemma ExactAccounting(cap: nat, ops: seq<Op>)
    ensures var d := RunOps(Empty(cap), ops);
      && d.size <= cap
      && ResidentWeight(d) == d.size + TotalDrift(Empty(cap), ops)
      && (d.size == ResidentWeight(d) <==> TotalDrift(Empty(cap), ops) == 0)
      && (TotalDrift(Empty(cap), ops) == 0 ==> 0 <= d.size && ResidentWeight(d) <= cap)
  {
    DriftLaw(Empty(cap), ops);
    ResidentWeightNonNegative(RunOps(Empty(cap), ops));
  }
}
