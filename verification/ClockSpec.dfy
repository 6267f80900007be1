/**
 The clock as a queue machine: the ring is read from the hand, one visit pops the front and
 either drops it or pushes it to the back with its next state.
 */
module ClockSpec {
  import opened StateByte
  import opened RingSums

  /** What happens to an entry: a reference (or its registration), or one visit of the hand. */
  datatype Event =
    | Touch(e: nat)
    | Pass(e: nat)
    | Evict(e: nat)
    | Drop(e: nat)

  /** `ring` lists entries from the hand on; `tab` holds every entry ever registered. */
  datatype ClockState = ClockState(ring: seq<nat>, tab: seq<Meta>, size: int, cap: int, log: seq<Event>)

  predicate Resident(m: Meta) {
    !m.st.kind.Test?
  }

  function Load(m: Meta): int {
    if Resident(m) then m.weight else 0
  }

  /** Hand visits until the node is unlinked. */
  function Rank(st: State): nat {
    match st.kind
    case Test => 1
    case Cold => if st.ref then 4 else 2
    case Hot => if st.ref then 4 else 3
  }

  function RankOf(m: Meta): int { Rank(m.st) }

  predicate WellFormed(c: ClockState) {
    Within(c.ring, c.tab) && Distinct(c.ring)
  }

  /** Weight of the residents of the ring. */
  ghost function ResidentWeight(c: ClockState): int
    requires WellFormed(c)
  {
    Sum(c.ring, c.tab, Load)
  }

  /** The part of `size` that no resident accounts for. */
  ghost function Phantom(c: ClockState): int
    requires WellFormed(c)
  {
    c.size - ResidentWeight(c)
  }

  /** Enough for the eviction loop to end. */
  ghost predicate Evictable(c: ClockState) {
    WellFormed(c) && Phantom(c) <= c.cap
  }

  // ---------------------------------------------------------------- one visit

  /** State after a visit that does not unlink the node. */
  function Next(st: State): State
    requires !st.kind.Test?
  {
    if st.ref then State(Hot, false)
    else if st.kind.Hot? then State(Cold, false)
    else State(Test, false)
  }

  predicate Evicts(st: State) {
    st == State(Cold, false)
  }

  function VisitEvent(e: nat, st: State): Event {
    if st.kind.Test? then Drop(e) else if Evicts(st) then Evict(e) else Pass(e)
  }

  function Step(c: ClockState): ClockState
    requires c.ring != [] && Within(c.ring, c.tab)
  {
    var e := c.ring[0];
    var m := c.tab[e];
    if m.st.kind.Test? then
      c.(ring := c.ring[1..], log := c.log + [Drop(e)])
    else
      c.(ring := c.ring[1..] + [e],
         tab := c.tab[e := m.(st := Next(m.st))],
         size := if Evicts(m.st) then c.size - m.weight else c.size,
         log := c.log + [VisitEvent(e, m.st)])
  }

  lemma NextRank(st: State)
    requires !st.kind.Test?
    ensures Rank(Next(st)) == Rank(st) - 1
  {
  }

  lemma StepWellFormed(c: ClockState)
    requires WellFormed(c) && c.ring != []
    ensures WellFormed(Step(c))
  {
  }

  /** A visit lowers the sum of ranks by exactly one and leaves the unaccounted part of `size` alone. */
  lemma StepAccounts(c: ClockState)
    requires WellFormed(c) && c.ring != []
    ensures WellFormed(Step(c))
    ensures Phantom(Step(c)) == Phantom(c)
    ensures Sum(Step(c).ring, Step(c).tab, RankOf) == Sum(c.ring, c.tab, RankOf) - 1
  {
    StepWellFormed(c);
    SumRotate(c.ring, c.tab, Load);
    SumRotate(c.ring, c.tab, RankOf);
    var e, m := c.ring[0], c.tab[c.ring[0]];
    if Resident(m) {
      NextRank(m.st);
      var turned := c.ring[1..] + [e];
      assert turned[|turned| - 1] == e;
      SumUpdate(turned, c.tab, e, m.(st := Next(m.st)), Load);
      SumUpdate(turned, c.tab, e, m.(st := Next(m.st)), RankOf);
    }
  }

  /** While the loop still has to run, some resident with positive weight is on the ring. */
  lemma OverBudgetHasResident(c: ClockState)
    requires Evictable(c) && c.size > c.cap
    ensures exists i | 0 <= i < |c.ring| :: Resident(c.tab[c.ring[i]]) && c.tab[c.ring[i]].weight > 0
  {
    if forall i | 0 <= i < |c.ring| :: Load(c.tab[c.ring[i]]) == 0 {
      SumZero(c.ring, c.tab, Load);
    }
  }

  ghost function RankSum(c: ClockState): nat
    requires WellFormed(c)
  {
    SumNonNegative(c.ring, c.tab, RankOf);
    Sum(c.ring, c.tab, RankOf)
  }

  /** The eviction loop: visit while `size` exceeds the capacity. */
  ghost function Run(c: ClockState): (r: ClockState)
    requires Evictable(c)
    ensures Evictable(r) && r.size <= r.cap && r.cap == c.cap
    ensures Phantom(r) == Phantom(c) && c.log <= r.log
    decreases RankSum(c)
  {
    if c.size <= c.cap then c
    else
      OverBudgetHasResident(c);
      StepAccounts(c);
      Run(Step(c))
  }

  /** One iteration of the loop, as seen by its guard. */
  lemma RunStep(c: ClockState)
    requires Evictable(c) && c.size > c.cap
    ensures c.ring != [] && (|c.ring| == 1 ==> Resident(c.tab[c.ring[0]]))
    ensures Evictable(Step(c)) && Run(Step(c)) == Run(c) && RankSum(Step(c)) < RankSum(c)
  {
    OverBudgetHasResident(c);
    StepAccounts(c);
  }
}
