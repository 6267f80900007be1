/** An insertion never sacrifices the new entry unless the new entry alone is too heavy. */
module NewestEntry {
  import opened RingSums
  import opened ClockSpec
  import opened EvictionOrder
  import opened EvictionFates
  import opened ClockOps

  lemma {:induction false} WeighConcat(a: seq<nat>, b: seq<nat>, tab: seq<Meta>)
    requires Within(a, tab) && Within(b, tab)
    ensures Within(a + b, tab) && Weigh(a + b, tab) == Weigh(a, tab) + Weigh(b, tab)
  {
    if a == [] {
      assert a + b == b;
    } else {
      WeighConcat(a[1..], b, tab);
      assert (a + b)[1..] == a[1..] + b;
    }
  }

  lemma {:induction false} WeighNonNegative(v: seq<nat>, tab: seq<Meta>)
    requires Within(v, tab)
    ensures 0 <= Weigh(v, tab)
  {
    if v != [] {
      WeighNonNegative(v[1..], tab);
    }
  }

  lemma {:induction false} WeighClasses(q: seq<nat>, tab: seq<Meta>)
    requires Within(q, tab)
    ensures Within(Class(q, tab, 1), tab) && Within(Class(q, tab, 2), tab) && Within(Class(q, tab, 3), tab)
    ensures Weigh(Class(q, tab, 1), tab) + Weigh(Class(q, tab, 2), tab) + Weigh(Class(q, tab, 3), tab)
      == Sum(q, tab, Load)
  {
    if q != [] {
      WeighClasses(q[1..], tab);
    }
  }

  /** The schedule lists every resident, so it weighs what the residents weigh. */
  lemma WeighSchedule(q: seq<nat>, tab: seq<Meta>)
    requires Within(q, tab)
    ensures Within(Schedule(q, tab), tab) && Weigh(Schedule(q, tab), tab) == Sum(q, tab, Load)
  {
    WeighClasses(q, tab);
    WeighConcat(Class(q, tab, 1), Class(q, tab, 2), tab);
    WeighConcat(Class(q, tab, 1) + Class(q, tab, 2), Class(q, tab, 3), tab);
  }

  lemma {:induction false} ClassFrame(q: seq<nat>, tab: seq<Meta>, tab': seq<Meta>, v: nat)
    requires Within(q, tab) && tab <= tab'
    ensures Class(q, tab', v) == Class(q, tab, v)
  {
    if q != [] {
      ClassFrame(q[1..], tab, tab', v);
    }
  }

  lemma {:induction false} ScheduleMembers(q: seq<nat>, tab: seq<Meta>, v: nat)
    requires Within(q, tab)
    ensures forall e | e in Class(q, tab, v) :: e in q && e < |tab|
  {
    if q != [] {
      ScheduleMembers(q[1..], tab, v);
    }
  }

  /** A registered entry is the last one the hand would eject. */
  lemma RegisteredIsLast(c: ClockState, weight: nat, gen: nat)
    requires WellFormed(c)
    ensures var r := Register(c, weight, gen);
      WellFormed(r) && Schedule(r.ring, r.tab) == Schedule(c.ring, c.tab) + [|c.tab|]
  {
    var r, e := Register(c, weight, gen), |c.tab|;
    forall v | v in {1, 2, 3}
      ensures Class(r.ring, r.tab, v) == Class(c.ring, c.tab, v) + (if v == 3 then [e] else [])
    {
      ClassFrame(c.ring, c.tab, r.tab, v);
      ClassConcat(c.ring, [e], r.tab, v);
      assert Class([e], r.tab, v) == if v == 3 then [e] else [];
    }
  }

  lemma ScheduleKnown(c: ClockState)
    requires WellFormed(c)
    ensures |c.tab| !in Schedule(c.ring, c.tab)
  {
    ScheduleMembers(c.ring, c.tab, 1);
    ScheduleMembers(c.ring, c.tab, 2);
    ScheduleMembers(c.ring, c.tab, 3);
  }

  /** The victims reach the last of a schedule exactly when everything before it does not free enough. */
  lemma LastVictim(r: ClockState, s: seq<nat>, e: nat)
    requires Evictable(r) && Schedule(r.ring, r.tab) == s + [e] && e !in s && Within(s, r.tab)
    ensures e in Victims(r) <==> r.size - Weigh(s, r.tab) > r.cap
    ensures e in Victims(r) ==> Victims(r) == s + [e]
  {
    EvictionTheorem(r);
    var v := Victims(r);
    if |v| == |s| + 1 {
      assert v == s + [e] && v[..|s|] == s;
    } else {
      assert v == s[..|v|] && s == v + s[|v|..];
      WeighConcat(v, s[|v|..], r.tab);
      WeighNonNegative(s[|v|..], r.tab);
    }
  }

  /**
   After an insertion `size` is within the capacity, and the new entry is resident exactly when its
   weight fits beside the part of `size` no resident accounts for; otherwise no resident is left.
   */
  lemma NewestSurvives(c: ClockState, weight: nat, gen: nat)
    requires Valid(c)
    ensures var d, e := Insert(c, weight, gen), |c.tab|;
      && d.size <= d.cap
      && (e in d.ring && Resident(d.tab[e]) <==> Phantom(c) + weight <= c.cap)
      && (Phantom(c) + weight > c.cap ==> d.size == Phantom(c) && forall x | x in d.ring :: !Resident(d.tab[x]))
  {
    var r, e, s := Register(c, weight, gen), |c.tab|, Schedule(c.ring, c.tab);
    var d := Insert(c, weight, gen);
    RegisterAccounts(c, weight, gen);
    EvictableWithin(c);
    RegisteredIsLast(c, weight, gen);
    WeighSchedule(c.ring, c.tab);
    ScheduleKnown(c);
    WeighTable(s, c.tab, r.tab);
    EvictionTheorem(r);
    RunFates(r);
    LastVictim(r, s, e);
    assert r.size - Weigh(s, r.tab) == Phantom(c) + weight;
    assert r.ring[|c.ring|] == e;
    if Phantom(c) + weight > c.cap {
      AllEjected(r);
      NoResidents(d);
    }
  }

  lemma {:induction false} WeighTable(v: seq<nat>, tab: seq<Meta>, tab': seq<Meta>)
    requires Within(v, tab) && tab <= tab'
    ensures Weigh(v, tab') == Weigh(v, tab)
  {
    if v != [] {
      WeighTable(v[1..], tab, tab');
    }
  }

  lemma {:induction false} ScheduleCovers(q: seq<nat>, tab: seq<Meta>)
    requires Within(q, tab)
    ensures forall e | e in q && Resident(tab[e]) ::
      e in Class(q, tab, 1) || e in Class(q, tab, 2) || e in Class(q, tab, 3)
  {
    if q != [] {
      ScheduleCovers(q[1..], tab);
    }
  }

  lemma AllEjected(r: ClockState)
    requires Evictable(r) && Victims(r) == Schedule(r.ring, r.tab)
    ensures WellFormed(Run(r)) && forall e | e in Run(r).ring :: !Resident(Run(r).tab[e])
  {
    RunFates(r);
    ScheduleCovers(r.ring, r.tab);
  }

  lemma NoResidents(d: ClockState)
    requires WellFormed(d) && forall e | e in d.ring :: !Resident(d.tab[e])
    ensures ResidentWeight(d) == 0 && Phantom(d) == d.size
  {
    SumZero(d.ring, d.tab, Load);
  }
}
