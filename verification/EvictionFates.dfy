/** What a run of the eviction loop does to each single entry, and why it stops no earlier. */
module EvictionFates {
  import opened StateByte
  import opened RingSums
  import opened ClockSpec
  import opened EvictionOrder

  /** `d` keeps every weight and generation of `c`, and only residents may become ghosts. */
  predicate SameEntries(c: ClockState, d: ClockState) {
    && |d.tab| == |c.tab|
    && forall e | 0 <= e < |c.tab| ::
         && d.tab[e].weight == c.tab[e].weight && d.tab[e].gen == c.tab[e].gen
         && (Resident(d.tab[e]) ==> Resident(c.tab[e]))
         && (e !in c.ring ==> d.tab[e] == c.tab[e])
  }

  /** No entry joins the ring, and only ghosts leave it. */
  predicate OnlyGhostsLeave(c: ClockState, d: ClockState)
    requires |d.tab| == |c.tab|
  {
    && (forall e | e in d.ring :: e in c.ring)
    && (forall e | e in c.ring && e < |d.tab| && Resident(d.tab[e]) :: e in d.ring)
  }

  /** Exactly the entries in `v` stopped being resident. */
  predicate Ejected(c: ClockState, d: ClockState, v: seq<nat>)
    requires |d.tab| == |c.tab|
  {
    && (forall e | e in v :: e < |c.tab| && Resident(c.tab[e]) && !Resident(d.tab[e]))
    && (forall e | 0 <= e < |c.tab| && Resident(c.tab[e]) && !Resident(d.tab[e]) :: e in v)
  }

  lemma StepFates(c: ClockState)
    requires WellFormed(c) && c.ring != []
    ensures var d := Step(c);
      && SameEntries(c, d) && OnlyGhostsLeave(c, d)
      && Ejected(c, d, Evicted([VisitEvent(c.ring[0], c.tab[c.ring[0]].st)]))
  {
    var e, m, d := c.ring[0], c.tab[c.ring[0]], Step(c);
    EvictedOne(VisitEvent(e, m.st));
    assert forall x | x in c.ring :: x == e || x in c.ring[1..];
  }

  lemma VictimsStep(c: ClockState)
    requires Evictable(c) && c.size > c.cap
    ensures c.ring != [] && Evictable(Step(c)) && Run(c) == Run(Step(c))
    ensures Victims(c) == Evicted([VisitEvent(c.ring[0], c.tab[c.ring[0]].st)]) + Victims(Step(c))
  {
    OverBudgetHasResident(c);
    StepAccounts(c);
    var ev, d := VisitEvent(c.ring[0], c.tab[c.ring[0]].st), Step(c);
    var log := Run(d).log;
    assert d.log == c.log + [ev] && d.log <= log;
    assert log[|c.log|..] == [ev] + log[|d.log|..];
    EvictedConcat([ev], log[|d.log|..]);
  }

  /** Over a whole run: exactly the victims stop being resident, and every other resident stays linked. */
  lemma {:induction false} RunFates(c: ClockState)
    requires Evictable(c)
    ensures SameEntries(c, Run(c)) && OnlyGhostsLeave(c, Run(c)) && Ejected(c, Run(c), Victims(c))
    decreases RankSum(c)
  {
    if c.size > c.cap {
      VictimsStep(c);
      StepAccounts(c);
      StepFates(c);
      RunFates(Step(c));
    }
  }

  /** The byte of a ghost never changes in the loop, and an entry ejected in it is left with the byte 0x02. */
  lemma {:induction false} GhostBytes(c: ClockState)
    requires Evictable(c)
    ensures |Run(c).tab| == |c.tab|
    ensures forall e | 0 <= e < |c.tab| && !Resident(Run(c).tab[e]) ::
      Encode(Run(c).tab[e].st) == if Resident(c.tab[e]) then 0x02 else Encode(c.tab[e].st)
    decreases RankSum(c)
  {
    if c.size > c.cap {
      RunStep(c);
      Bytes();
      GhostBytes(Step(c));
    }
  }

  /** The loop stops at once: after any proper prefix of the victims `size` was still too large. */
  lemma {:induction false} VictimsMinimal(c: ClockState)
    requires Evictable(c)
    ensures Within(Victims(c), c.tab)
    ensures forall n | 0 <= n < |Victims(c)| :: c.size - Weigh(Victims(c)[..n], c.tab) > c.cap
    decreases RankSum(c)
  {
    VictimsFollowSchedule(c);
    if c.size > c.cap {
      VictimsStep(c);
      EvictedOne(VisitEvent(c.ring[0], c.tab[c.ring[0]].st));
      StepAccounts(c);
      StepFates(c);
      VictimsMinimal(Step(c));
      MinimalStep(c, Step(c), c.ring[0], Victims(Step(c)));
    }
  }

  lemma MinimalStep(c: ClockState, d: ClockState, e: nat, v: seq<nat>)
    requires SameEntries(c, d) && Within(v, c.tab) && e < |c.tab| && c.size > c.cap && d.cap == c.cap
    requires forall n | 0 <= n < |v| :: d.size - Weigh(v[..n], d.tab) > d.cap
    ensures d.size == c.size ==> forall n | 0 <= n < |v| :: c.size - Weigh(v[..n], c.tab) > c.cap
    ensures d.size == c.size - c.tab[e].weight ==>
      forall n | 0 <= n < |[e] + v| :: Within(([e] + v)[..n], c.tab) && c.size - Weigh(([e] + v)[..n], c.tab) > c.cap
  {
    forall n | 0 <= n < |v|
      ensures d.size - Weigh(v[..n], c.tab) > c.cap
    {
      WeighSame(v[..n], c.tab, d.tab);
    }
    if d.size == c.size - c.tab[e].weight {
      forall n | 0 <= n < |[e] + v|
        ensures Within(([e] + v)[..n], c.tab) && c.size - Weigh(([e] + v)[..n], c.tab) > c.cap
      {
        var u := ([e] + v)[..n];
        if n > 0 {
          assert u[0] == e && u[1..] == v[..n - 1];
        }
      }
    }
  }

  lemma {:induction false} WeighSame(v: seq<nat>, tab: seq<Meta>, tab': seq<Meta>)
    requires |tab| == |tab'| && Within(v, tab)
    requires forall e | 0 <= e < |tab| :: tab'[e].weight == tab[e].weight
    ensures Weigh(v, tab') == Weigh(v, tab)
  {
    if v != [] {
      WeighSame(v[1..], tab, tab');
    }
  }

  /** Ejecting `v` frees enough, and ejecting less would not have. */
  predicate JustEnough(c: ClockState, v: seq<nat>) {
    && Within(v, c.tab)
    && c.size - Weigh(v, c.tab) <= c.cap
    && forall n | 0 <= n < |v| :: Within(v[..n], c.tab) && c.size - Weigh(v[..n], c.tab) > c.cap
  }

  /** A class lists entries of `q`, each once, and only those of its own rank. */
  lemma {:induction false} ClassDistinct(q: seq<nat>, tab: seq<Meta>, v: nat)
    requires Within(q, tab) && Distinct(q)
    ensures Distinct(Class(q, tab, v))
    ensures forall e | e in Class(q, tab, v) :: e in q && e < |tab| && Rank(tab[e].st) == v + 1
  {
    if q != [] {
      ClassDistinct(q[1..], tab, v);
    }
  }

  lemma ScheduleDistinct(q: seq<nat>, tab: seq<Meta>)
    requires Within(q, tab) && Distinct(q)
    ensures Distinct(Schedule(q, tab))
  {
    ClassDistinct(q, tab, 1);
    ClassDistinct(q, tab, 2);
    ClassDistinct(q, tab, 3);
    DistinctConcat(Class(q, tab, 1), Class(q, tab, 2));
    DistinctConcat(Class(q, tab, 1) + Class(q, tab, 2), Class(q, tab, 3));
  }

  lemma DistinctConcat(a: seq<nat>, b: seq<nat>)
    requires Distinct(a) && Distinct(b) && forall e | e in a :: e !in b
    ensures Distinct(a + b)
  {
    forall i, j | 0 <= i < j < |a + b|
      ensures (a + b)[i] != (a + b)[j]
    {
      if i < |a| <= j {
        assert a[i] in a && b[j - |a|] in b;
      }
    }
  }

  /**
   The eviction theorem: one run ejects exactly the shortest prefix of the schedule that brings
   `size` within the capacity, no entry twice. `RunFates` adds that these are exactly the residents
   it makes ghosts.
   */
  lemma EvictionTheorem(c: ClockState)
    requires Evictable(c)
    ensures Victims(c) <= Schedule(c.ring, c.tab) && JustEnough(c, Victims(c))
    ensures Distinct(Victims(c))
    ensures Run(c).size == c.size - Weigh(Victims(c), c.tab)
  {
    VictimsFollowSchedule(c);
    VictimsMinimal(c);
    ScheduleDistinct(c.ring, c.tab);
  }
}
