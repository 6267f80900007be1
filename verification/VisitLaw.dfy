/** Over whole runs: an entry is ejected on exactly the third visit of the hand since it was last referenced. */
module VisitLaw {
  import opened ClockSpec
  import opened ClockOps

  /** Visits of the hand to `e` since its registration or last reference. */
  function VisitsSince(log: seq<Event>, e: nat): nat {
    if log == [] then 0
    else
      var ev, earlier := log[|log| - 1], VisitsSince(log[..|log| - 1], e);
      if ev.e != e then earlier else if ev.Touch? then 0 else earlier + 1
  }

  /** The state byte of every resident records its visits: referenced 0, hot 1, cold 2. */
  ghost predicate BytesCount(c: ClockState)
    requires WellFormed(c)
  {
    forall e | e in c.ring && Resident(c.tab[e]) :: VisitsSince(c.log, e) == 4 - Rank(c.tab[e].st)
  }

  /** Ejections are third visits; passing visits are first or second ones. */
  ghost predicate ThirdVisits(log: seq<Event>) {
    forall i | 0 <= i < |log| ::
      && (log[i].Evict? ==> VisitsSince(log[..i + 1], log[i].e) == 3)
      && (log[i].Pass? ==> VisitsSince(log[..i + 1], log[i].e) in {1, 2})
  }

  ghost predicate Law(c: ClockState)
    requires WellFormed(c)
  {
    BytesCount(c) && ThirdVisits(c.log)
  }

  lemma VisitsSinceSnoc(log: seq<Event>, ev: Event, e: nat)
    ensures VisitsSince(log + [ev], e) ==
      if ev.e != e then VisitsSince(log, e) else if ev.Touch? then 0 else VisitsSince(log, e) + 1
  {
    assert (log + [ev])[..|log|] == log;
  }

  lemma ThirdVisitsSnoc(log: seq<Event>, ev: Event)
    requires ThirdVisits(log)
    requires ev.Evict? ==> VisitsSince(log, ev.e) == 2
    requires ev.Pass? ==> VisitsSince(log, ev.e) <= 1
    ensures ThirdVisits(log + [ev])
  {
    var log' := log + [ev];
    VisitsSinceSnoc(log, ev, ev.e);
    forall i | 0 <= i < |log'|
      ensures log'[i].Evict? ==> VisitsSince(log'[..i + 1], log'[i].e) == 3
      ensures log'[i].Pass? ==> VisitsSince(log'[..i + 1], log'[i].e) in {1, 2}
    {
      if i < |log| {
        assert log'[..i + 1] == log[..i + 1];
      } else {
        assert log'[..i + 1] == log';
      }
    }
  }

  lemma StepLaw(c: ClockState)
    requires WellFormed(c) && c.ring != [] && Law(c)
    ensures WellFormed(Step(c)) && Law(Step(c))
  {
    StepWellFormed(c);
    var e, m, d := c.ring[0], c.tab[c.ring[0]], Step(c);
    var ev := VisitEvent(e, m.st);
    assert e in c.ring && d.log == c.log + [ev];
    ThirdVisitsSnoc(c.log, ev);
    forall x | x in d.ring && Resident(d.tab[x])
      ensures VisitsSince(d.log, x) == 4 - Rank(d.tab[x].st)
    {
      VisitsSinceSnoc(c.log, ev, x);
      assert x in c.ring;
    }
  }

  lemma {:induction false} RunLaw(c: ClockState)
    requires Evictable(c) && Law(c)
    ensures Law(Run(c))
    decreases RankSum(c)
  {
    if c.size > c.cap {
      OverBudgetHasResident(c);
      StepAccounts(c);
      StepLaw(c);
      RunLaw(Step(c));
    }
  }

  /** A reference restarts the count. */
  lemma TouchLaw(c: ClockState, d: ClockState, e: nat)
    requires WellFormed(c) && WellFormed(d) && Law(c)
    requires d.log == c.log + [Touch(e)]
    requires forall x | x in d.ring && x != e :: x in c.ring && d.tab[x] == c.tab[x]
    requires e in d.ring && Resident(d.tab[e]) ==> d.tab[e].st.ref
    ensures Law(d)
  {
    ThirdVisitsSnoc(c.log, Touch(e));
    forall x | x in d.ring && Resident(d.tab[x])
      ensures VisitsSince(d.log, x) == 4 - Rank(d.tab[x].st)
    {
      VisitsSinceSnoc(c.log, Touch(e), x);
    }
  }

  lemma ApplyLaw(c: ClockState, op: Op)
    requires Valid(c) && Law(c)
    ensures Valid(Apply(c, op)) && Law(Apply(c, op))
  {
    ApplyAccounts(c, op);
    match op
    case OpInsert(w, g) =>
      RegisterAccounts(c, w, g);
      EvictableWithin(c);
      TouchLaw(c, Register(c, w, g), |c.tab|);
      RunLaw(Register(c, w, g));
    case OpTouch(e) =>
      if e < |c.tab| {
        TouchLaw(c, SetReferenced(c, e), e);
      }
    case OpRemove(e) =>
      if e in c.ring {
        WithoutMembers(c.ring, e);
      }
    case OpGeneration(g) => GenerationEvictedClosedForm(c, g);
    case OpUpdate(e, w, g) =>
  }

  /** The three-visit law over every run of operations. */
  lemma {:induction false} RunOpsLaw(c: ClockState, ops: seq<Op>)
    requires Valid(c) && Law(c)
    ensures Law(RunOps(c, ops))
    decreases |ops|
  {
    if ops != [] {
      ApplyLaw(c, ops[0]);
      RunOpsLaw(Apply(c, ops[0]), ops[1..]);
    }
  }

  lemma ThirdVisitLaw(cap: nat, ops: seq<Op>)
    ensures var c := RunOps(Empty(cap), ops);
      BytesCount(c) && ThirdVisits(c.log)
  {
    RunOpsLaw(Empty(cap), ops);
  }
}
