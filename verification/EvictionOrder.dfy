/**
 The closed form of one run of the eviction loop: where the hand stops, which entries it evicts
 and in which order, and the state every survivor is left in.
 */
module EvictionOrder {
  import opened StateByte
  import opened RingSums
  import opened ClockSpec

  // ---------------------------------------------------------------- definitions that do not run the loop

  /** State after `k` visits of the hand. */
  function Aged(st: State, k: nat): State
    decreases k
  {
    if k == 0 || st.kind.Test? then st else Aged(Next(st), k - 1)
  }

  /** The entries of `q` still linked after `k` full passes of the hand, in order. */
  function Alive(q: seq<nat>, tab: seq<Meta>, k: nat): seq<nat>
    requires Within(q, tab)
  {
    if q == [] then []
    else if Rank(tab[q[0]].st) > k then [q[0]] + Alive(q[1..], tab, k)
    else Alive(q[1..], tab, k)
  }

  /** What pass number `k` of the hand over `q` does. */
  function PassLog(q: seq<nat>, tab: seq<Meta>, k: nat): seq<Event>
    requires Within(q, tab)
  {
    if q == [] then []
    else if Rank(tab[q[0]].st) > k then [VisitEvent(q[0], Aged(tab[q[0]].st, k))] + PassLog(q[1..], tab, k)
    else PassLog(q[1..], tab, k)
  }

  function PassesLog(q: seq<nat>, tab: seq<Meta>, k: nat): seq<Event>
    requires Within(q, tab)
  {
    if k == 0 then [] else PassesLog(q, tab, k - 1) + PassLog(q, tab, k - 1)
  }

  /** The ejected entries of a log, in order. */
  function Evicted(log: seq<Event>): seq<nat> {
    if log == [] then []
    else if log[0].Evict? then [log[0].e] + Evicted(log[1..])
    else Evicted(log[1..])
  }

  function Weigh(v: seq<nat>, tab: seq<Meta>): int
    requires Within(v, tab)
  {
    if v == [] then 0 else tab[v[0]].weight + Weigh(v[1..], tab)
  }

  /** Residents of `q` that the hand has to visit exactly `v` times before they are ejected. */
  function Class(q: seq<nat>, tab: seq<Meta>, v: nat): seq<nat>
    requires Within(q, tab)
  {
    if q == [] then []
    else if Resident(tab[q[0]]) && Rank(tab[q[0]].st) == v + 1 then [q[0]] + Class(q[1..], tab, v)
    else Class(q[1..], tab, v)
  }

  /** Cold unreferenced entries first, then hot unreferenced ones, then every referenced one. */
  function Schedule(q: seq<nat>, tab: seq<Meta>): seq<nat>
    requires Within(q, tab)
  {
    Class(q, tab, 1) + Class(q, tab, 2) + Class(q, tab, 3)
  }

  function VisitsAt(q: seq<nat>, k: nat, p: nat, e: nat): nat
    requires p <= |q|
  {
    if e in q[..p] then k + 1 else if e in q then k else 0
  }

  /** The table once the hand has made `k` full passes and `p` more positions. */
  function AtTab(q: seq<nat>, tab: seq<Meta>, k: nat, p: nat): seq<Meta>
    requires p <= |q|
  {
    seq(|tab|, e requires 0 <= e < |tab| => tab[e].(st := Aged(tab[e].st, VisitsAt(q, k, p, e))))
  }

  function AtLog(q: seq<nat>, tab: seq<Meta>, k: nat, p: nat): seq<Event>
    requires p <= |q| && Within(q, tab)
  {
    PassesLog(q, tab, k) + PassLog(q[..p], tab, k)
  }

  /** The clock after `k` full passes and `p` more positions of the original ring. */
  function At(c: ClockState, k: nat, p: nat): ClockState
    requires WellFormed(c) && p <= |c.ring|
  {
    ClockState(
      Alive(c.ring[p..], c.tab, k) + Alive(c.ring[..p], c.tab, k + 1),
      AtTab(c.ring, c.tab, k, p),
      c.size - LogWeight(AtLog(c.ring, c.tab, k, p), c.tab),
      c.cap,
      c.log + AtLog(c.ring, c.tab, k, p))
  }

  /** Weight ejected by a log; events about unknown entries weigh nothing. */
  function LogWeight(log: seq<Event>, tab: seq<Meta>): int {
    if log == [] then 0 else
      (if log[0].Evict? && log[0].e < |tab| then tab[log[0].e].weight else 0) + LogWeight(log[1..], tab)
  }

  // ---------------------------------------------------------------- small facts

  lemma {:induction false} AgedSnoc(st: State, k: nat)
    ensures Aged(st, k + 1) == (if Aged(st, k).kind.Test? then Aged(st, k) else Next(Aged(st, k)))
    ensures Rank(st) > k ==> Rank(Aged(st, k)) == Rank(st) - k
    ensures Rank(st) <= k ==> Aged(st, k).kind.Test?
    decreases k
  {
    if k > 0 && !st.kind.Test? {
      NextRank(st);
      AgedSnoc(Next(st), k - 1);
    }
  }

  lemma {:induction false} AliveConcat(a: seq<nat>, b: seq<nat>, tab: seq<Meta>, k: nat)
    requires Within(a, tab) && Within(b, tab)
    ensures Within(a + b, tab) && Alive(a + b, tab, k) == Alive(a, tab, k) + Alive(b, tab, k)
  {
    if a == [] {
      assert a + b == b;
    } else {
      AliveConcat(a[1..], b, tab, k);
      assert (a + b)[1..] == a[1..] + b;
    }
  }

  lemma {:induction false} PassConcat(a: seq<nat>, b: seq<nat>, tab: seq<Meta>, k: nat)
    requires Within(a, tab) && Within(b, tab)
    ensures Within(a + b, tab) && PassLog(a + b, tab, k) == PassLog(a, tab, k) + PassLog(b, tab, k)
  {
    if a == [] {
      assert a + b == b;
    } else {
      PassConcat(a[1..], b, tab, k);
      assert (a + b)[1..] == a[1..] + b;
    }
  }

  lemma {:induction false} LogWeightConcat(a: seq<Event>, b: seq<Event>, tab: seq<Meta>)
    ensures LogWeight(a + b, tab) == LogWeight(a, tab) + LogWeight(b, tab)
  {
    if a == [] {
      assert a + b == b;
    } else {
      LogWeightConcat(a[1..], b, tab);
      assert (a + b)[1..] == a[1..] + b;
    }
  }

  /** With distinct ids, one more position ages exactly the entry at that position. */
  lemma VisitsStep(q: seq<nat>, k: nat, p: nat, e: nat)
    requires p < |q| && Distinct(q)
    ensures VisitsAt(q, k, p + 1, e) == if e == q[p] then k + 1 else VisitsAt(q, k, p, e)
    ensures VisitsAt(q, k, p, q[p]) == k
  {
    assert q[..p + 1] == q[..p] + [q[p]];
    assert q[p] !in q[..p];
  }

  lemma TabStep(q: seq<nat>, tab: seq<Meta>, k: nat, p: nat)
    requires p < |q| && Distinct(q) && Within(q, tab)
    ensures var e := q[p];
      && AtTab(q, tab, k, p)[e] == tab[e].(st := Aged(tab[e].st, k))
      && AtTab(q, tab, k, p + 1) == AtTab(q, tab, k, p)[e := tab[e].(st := Aged(tab[e].st, k + 1))]
  {
    var e := q[p];
    VisitsStep(q, k, p, e);
    var a, b := AtTab(q, tab, k, p)[e := tab[e].(st := Aged(tab[e].st, k + 1))], AtTab(q, tab, k, p + 1);
    forall x | 0 <= x < |tab|
      ensures a[x] == b[x]
    {
      VisitsStep(q, k, p, x);
    }
  }

  lemma RingStep(q: seq<nat>, tab: seq<Meta>, k: nat, p: nat)
    requires Within(q, tab) && p < |q|
    ensures var e := q[p];
      && Alive(q[p..], tab, k) == (if Rank(tab[e].st) > k then [e] else []) + Alive(q[p + 1..], tab, k)
      && Alive(q[..p + 1], tab, k + 1) == Alive(q[..p], tab, k + 1) + (if Rank(tab[e].st) > k + 1 then [e] else [])
  {
    assert q[p..][1..] == q[p + 1..];
    assert q[..p + 1] == q[..p] + [q[p]];
    AliveConcat(q[..p], [q[p]], tab, k + 1);
  }

  lemma LogStep(q: seq<nat>, tab: seq<Meta>, k: nat, p: nat)
    requires Within(q, tab) && p < |q|
    ensures var e := q[p];
      AtLog(q, tab, k, p + 1) == AtLog(q, tab, k, p)
        + (if Rank(tab[e].st) > k then [VisitEvent(e, Aged(tab[e].st, k))] else [])
  {
    assert q[..p + 1] == q[..p] + [q[p]];
    PassConcat(q[..p], [q[p]], tab, k);
  }

  lemma {:induction false} AliveWithin(q: seq<nat>, tab: seq<Meta>, k: nat)
    requires Within(q, tab)
    ensures forall i | 0 <= i < |Alive(q, tab, k)| :: Alive(q, tab, k)[i] < |tab|
  {
    if q != [] {
      AliveWithin(q[1..], tab, k);
    }
  }

  lemma AtWithin(c: ClockState, k: nat, p: nat)
    requires WellFormed(c) && p <= |c.ring|
    ensures Within(At(c, k, p).ring, At(c, k, p).tab)
  {
    AliveWithin(c.ring[p..], c.tab, k);
    AliveWithin(c.ring[..p], c.tab, k + 1);
  }

  /** A node unlinked in an earlier pass is skipped: nothing happens at its position. */
  lemma AdvanceGone(c: ClockState, k: nat, p: nat)
    requires WellFormed(c) && p < |c.ring| && Rank(c.tab[c.ring[p]].st) <= k
    ensures At(c, k, p + 1) == At(c, k, p)
  {
    var a, b := At(c, k, p), At(c, k, p + 1);
    RingStep(c.ring, c.tab, k, p);
    assert b.ring == a.ring;
    LogStep(c.ring, c.tab, k, p);
    assert AtLog(c.ring, c.tab, k, p + 1) == AtLog(c.ring, c.tab, k, p);
    TabStep(c.ring, c.tab, k, p);
    AgedSnoc(c.tab[c.ring[p]].st, k);
    assert b.tab == a.tab;
  }

  /** One visit, spelled out from the front of the ring. */
  lemma StepFront(a: ClockState, e: nat, rest: seq<nat>, m: Meta)
    requires a.ring == [e] + rest && Within(a.ring, a.tab) && e < |a.tab| && a.tab[e] == m
    ensures Step(a) == ClockState(
      rest + (if Resident(m) then [e] else []),
      if Resident(m) then a.tab[e := m.(st := Next(m.st))] else a.tab,
      a.size - (if Evicts(m.st) then m.weight else 0),
      a.cap,
      a.log + [VisitEvent(e, m.st)])
  {
    assert a.ring[1..] == rest;
  }

  /** Moving the front of a two-part queue to its back. */
  lemma Requeue<T>(e: T, x: seq<T>, y: seq<T>, t: seq<T>)
    ensures var a := ([e] + x) + y;
      a[0] == e && a[1..] == x + y && x + (y + t) == a[1..] + t
  {
    assert ([e] + x) + y == [e] + (x + y);
  }

  lemma AdvanceRing(c: ClockState, k: nat, p: nat)
    requires WellFormed(c) && p < |c.ring| && Rank(c.tab[c.ring[p]].st) > k
    ensures
      var a, b, e := At(c, k, p), At(c, k, p + 1), c.ring[p];
      && a.ring != [] && a.ring[0] == e
      && b.ring == a.ring[1..] + (if Aged(c.tab[e].st, k).kind.Test? then [] else [e])
  {
    var e := c.ring[p];
    RingStep(c.ring, c.tab, k, p);
    AgedSnoc(c.tab[e].st, k);
    Requeue(e, Alive(c.ring[p + 1..], c.tab, k), Alive(c.ring[..p], c.tab, k + 1),
      if Rank(c.tab[e].st) > k + 1 then [e] else []);
  }

  lemma AdvanceTab(c: ClockState, k: nat, p: nat)
    requires WellFormed(c) && p < |c.ring|
    ensures
      var a, b, e := At(c, k, p), At(c, k, p + 1), c.ring[p];
      var st := Aged(c.tab[e].st, k);
      && a.tab[e] == c.tab[e].(st := st)
      && b.tab == (if st.kind.Test? then a.tab else a.tab[e := c.tab[e].(st := Next(st))])
  {
    TabStep(c.ring, c.tab, k, p);
    AgedSnoc(c.tab[c.ring[p]].st, k);
  }

  lemma AdvanceLog(c: ClockState, k: nat, p: nat)
    requires WellFormed(c) && p < |c.ring| && Rank(c.tab[c.ring[p]].st) > k
    ensures
      var a, b, e := At(c, k, p), At(c, k, p + 1), c.ring[p];
      var st := Aged(c.tab[e].st, k);
      b.log == a.log + [VisitEvent(e, st)] && b.size == a.size - (if Evicts(st) then c.tab[e].weight else 0)
  {
    var e := c.ring[p];
    var ev := VisitEvent(e, Aged(c.tab[e].st, k));
    LogStep(c.ring, c.tab, k, p);
    LogWeightConcat(AtLog(c.ring, c.tab, k, p), [ev], c.tab);
    assert LogWeight([ev], c.tab) == if ev.Evict? then c.tab[e].weight else 0;
    assert c.log + (AtLog(c.ring, c.tab, k, p) + [ev]) == (c.log + AtLog(c.ring, c.tab, k, p)) + [ev];
  }

  /** Otherwise moving on by one position is one visit. */
  lemma AdvanceLive(c: ClockState, k: nat, p: nat)
    requires WellFormed(c) && p < |c.ring| && Rank(c.tab[c.ring[p]].st) > k
    ensures
      var a := At(c, k, p);
      a.ring != [] && a.ring[0] == c.ring[p] && Within(a.ring, a.tab) && Step(a) == At(c, k, p + 1)
  {
    AtWithin(c, k, p);
    AdvanceRing(c, k, p);
    AdvanceTab(c, k, p);
    AdvanceLog(c, k, p);
    var a := At(c, k, p);
    StepFront(a, c.ring[p], a.ring[1..], a.tab[c.ring[p]]);
  }

  lemma PassEnd(c: ClockState, k: nat)
    requires WellFormed(c)
    ensures At(c, k, |c.ring|) == At(c, k + 1, 0)
  {
    var n := |c.ring|;
    assert c.ring[..n] == c.ring && c.ring[0..] == c.ring && c.ring[n..] == [] && c.ring[..0] == [];
    assert At(c, k, n).tab == At(c, k + 1, 0).tab;
    assert PassesLog(c.ring, c.tab, k + 1) + [] == PassesLog(c.ring, c.tab, k + 1);
    assert At(c, k, n).ring == At(c, k + 1, 0).ring;
  }

  lemma AtStart(c: ClockState)
    requires WellFormed(c)
    ensures At(c, 0, 0) == c
  {
    assert c.ring[0..] == c.ring && c.ring[..0] == [];
    AliveAll(c.ring, c.tab);
    assert At(c, 0, 0).tab == c.tab;
  }

  lemma {:induction false} AliveAll(q: seq<nat>, tab: seq<Meta>)
    requires Within(q, tab)
    ensures Alive(q, tab, 0) == q
  {
    if q != [] {
      AliveAll(q[1..], tab);
    }
  }

  lemma {:induction false} AliveRank(q: seq<nat>, tab: seq<Meta>, k: nat)
    requires Within(q, tab)
    ensures forall i | 0 <= i < |Alive(q, tab, k)| ::
      Alive(q, tab, k)[i] in q && Alive(q, tab, k)[i] < |tab| && Rank(tab[Alive(q, tab, k)[i]].st) > k
  {
    if q != [] {
      AliveRank(q[1..], tab, k);
    }
  }

  /** After three passes whatever is still linked is a ghost. */
  lemma ThreePasses(c: ClockState)
    requires WellFormed(c)
    ensures var a := At(c, 2, |c.ring|);
      Within(a.ring, a.tab) && forall i | 0 <= i < |a.ring| :: !Resident(a.tab[a.ring[i]])
  {
    var n, a := |c.ring|, At(c, 2, |c.ring|);
    AtWithin(c, 2, n);
    assert c.ring[..n] == c.ring && c.ring[n..] == [];
    AliveRank(c.ring, c.tab, 3);
    forall i | 0 <= i < |a.ring|
      ensures !Resident(a.tab[a.ring[i]])
    {
      assert a.ring == Alive(c.ring, c.tab, 3);
      var e := a.ring[i];
      assert e in c.ring;
      AgedSnoc(c.tab[e].st, 3);
    }
  }

  // ---------------------------------------------------------------- the closed form

  /** `size` exceeded the capacity at every position before (k, p). */
  ghost predicate OverBefore(c: ClockState, k: nat, p: nat)
    requires WellFormed(c)
  {
    forall k': nat, p': nat | p' <= |c.ring| && (k' < k || (k' == k && p' < p)) :: At(c, k', p').size > c.cap
  }

  /** The hand stops at the first position of its sweep at which `size` is within the capacity. */
  ghost predicate FirstWithin(c: ClockState, k: nat, p: nat)
    requires WellFormed(c)
  {
    p <= |c.ring| && At(c, k, p).size <= c.cap && OverBefore(c, k, p)
  }

  lemma Onward(c: ClockState, k: nat, p: nat)
    requires WellFormed(c) && p < |c.ring|
    requires Evictable(At(c, k, p)) && At(c, k, p).size > c.cap
    ensures Evictable(At(c, k, p + 1)) && Run(At(c, k, p + 1)) == Run(At(c, k, p))
  {
    if Rank(c.tab[c.ring[p]].st) <= k {
      AdvanceGone(c, k, p);
    } else {
      AdvanceLive(c, k, p);
      StepAccounts(At(c, k, p));
    }
  }

  lemma ThreePassesSuffice(c: ClockState)
    requires WellFormed(c) && Evictable(At(c, 2, |c.ring|))
    ensures At(c, 2, |c.ring|).size <= c.cap
  {
    ThreePasses(c);
    var a := At(c, 2, |c.ring|);
    SumZero(a.ring, a.tab, Load);
  }

  lemma OverNext(c: ClockState, k: nat, p: nat)
    requires WellFormed(c) && OverBefore(c, k, p) && p <= |c.ring| && At(c, k, p).size > c.cap
    ensures OverBefore(c, k, p + 1)
    ensures p == |c.ring| ==> OverBefore(c, k + 1, 0)
  {
  }

  lemma {:induction false} StopFrom(c: ClockState, k: nat, p: nat) returns (k': nat, p': nat)
    requires WellFormed(c) && k < 3 && p <= |c.ring|
    requires Evictable(At(c, k, p)) && OverBefore(c, k, p)
    ensures k' < 3 && FirstWithin(c, k', p') && Run(At(c, k, p)) == At(c, k', p')
    decreases 3 - k, |c.ring| - p
  {
    if At(c, k, p).size <= c.cap {
      k', p' := k, p;
    } else if p < |c.ring| {
      Onward(c, k, p);
      OverNext(c, k, p);
      k', p' := StopFrom(c, k, p + 1);
    } else if k < 2 {
      PassEnd(c, k);
      OverNext(c, k, p);
      k', p' := StopFrom(c, k + 1, 0);
    } else {
      ThreePassesSuffice(c);
      assert false;
    }
  }

  /**
   One run of the loop from any evictable clock ends with the hand at the first position of at most
   three passes where `size` fits; `At` gives the ring, every state, `size` and every visit made.
   */
  lemma ClosedForm(c: ClockState)
    requires Evictable(c)
    ensures exists k: nat, p: nat :: k < 3 && FirstWithin(c, k, p) && Run(c) == At(c, k, p)
  {
    AtStart(c);
    var k, p := StopFrom(c, 0, 0);
  }

  lemma {:induction false} PassLogLength(q: seq<nat>, tab: seq<Meta>, k: nat)
    requires Within(q, tab)
    ensures |PassLog(q, tab, k)| <= |q|
  {
    if q != [] {
      PassLogLength(q[1..], tab, k);
    }
  }

  lemma AtLogLength(q: seq<nat>, tab: seq<Meta>, k: nat, p: nat)
    requires Within(q, tab) && k < 3 && p <= |q|
    ensures |AtLog(q, tab, k, p)| <= 3 * |q|
  {
    PassLogLength(q, tab, 0);
    PassLogLength(q, tab, 1);
    PassLogLength(q[..p], tab, k);
    assert PassesLog(q, tab, 1) == PassLog(q, tab, 0);
    assert PassesLog(q, tab, 2) == PassesLog(q, tab, 1) + PassLog(q, tab, 1);
  }

  /** Every iteration logs one visit, so the loop runs at most three times per node of the ring. */
  lemma IterationBound(c: ClockState)
    requires Evictable(c)
    ensures c.log <= Run(c).log && |Run(c).log| - |c.log| <= 3 * |c.ring|
  {
    ClosedForm(c);
    var k: nat, p: nat :| k < 3 && FirstWithin(c, k, p) && Run(c) == At(c, k, p);
    AtLogLength(c.ring, c.tab, k, p);
  }

  // ---------------------------------------------------------------- who is evicted, in which order

  /** The entries ejected by one run of the loop, in order. */
  ghost function Victims(c: ClockState): seq<nat>
    requires Evictable(c)
  {
    Evicted(Run(c).log[|c.log|..])
  }

  lemma {:induction false} EvictedConcat(a: seq<Event>, b: seq<Event>)
    ensures Evicted(a + b) == Evicted(a) + Evicted(b)
  {
    if a == [] {
      assert a + b == b;
    } else {
      EvictedConcat(a[1..], b);
      assert (a + b)[1..] == a[1..] + b;
    }
  }

  lemma {:induction false} ClassConcat(a: seq<nat>, b: seq<nat>, tab: seq<Meta>, v: nat)
    requires Within(a, tab) && Within(b, tab)
    ensures Within(a + b, tab) && Class(a + b, tab, v) == Class(a, tab, v) + Class(b, tab, v)
  {
    if a == [] {
      assert a + b == b;
    } else {
      ClassConcat(a[1..], b, tab, v);
      assert (a + b)[1..] == a[1..] + b;
    }
  }

  lemma EvictedOne(ev: Event)
    ensures Evicted([ev]) == if ev.Evict? then [ev.e] else []
  {
    assert [ev][1..] == [];
  }

  lemma {:induction false} EvictedPass(q: seq<nat>, tab: seq<Meta>, k: nat)
    requires Within(q, tab)
    ensures Evicted(PassLog(q, tab, k)) == Class(q, tab, k + 1)
  {
    if q != [] {
      var st := tab[q[0]].st;
      AgedSnoc(st, k);
      EvictedPass(q[1..], tab, k);
      if Rank(st) > k {
        var ev := VisitEvent(q[0], Aged(st, k));
        assert ev.Evict? <==> Rank(st) == k + 2;
        EvictedOne(ev);
        EvictedConcat([ev], PassLog(q[1..], tab, k));
        assert PassLog(q, tab, k) == [ev] + PassLog(q[1..], tab, k);
      } else {
        assert PassLog(q, tab, k) == PassLog(q[1..], tab, k);
      }
    }
  }

  /** The schedule up to the class of entries ejected in pass `k`. */
  function Classes(q: seq<nat>, tab: seq<Meta>, k: nat): seq<nat>
    requires Within(q, tab)
  {
    if k == 0 then [] else Classes(q, tab, k - 1) + Class(q, tab, k)
  }

  lemma {:induction false} EvictedPasses(q: seq<nat>, tab: seq<Meta>, k: nat)
    requires Within(q, tab)
    ensures Evicted(PassesLog(q, tab, k)) == Classes(q, tab, k)
  {
    if k > 0 {
      var a, b := PassesLog(q, tab, k - 1), PassLog(q, tab, k - 1);
      assert PassesLog(q, tab, k) == a + b;
      assert Evicted(a) == Classes(q, tab, k - 1) by { EvictedPasses(q, tab, k - 1); }
      assert Evicted(b) == Class(q, tab, k) by { EvictedPass(q, tab, k - 1); }
      EvictedConcat(a, b);
    }
  }

  lemma ClassesPrefix(q: seq<nat>, tab: seq<Meta>, k: nat)
    requires Within(q, tab) && k <= 3
    ensures Classes(q, tab, k) <= Schedule(q, tab)
  {
    var x, y, z := Class(q, tab, 1), Class(q, tab, 2), Class(q, tab, 3);
    assert Classes(q, tab, 0) == [];
    assert Classes(q, tab, 1) == x;
    assert Classes(q, tab, 2) == x + y;
    assert Classes(q, tab, 3) == x + y + z;
  }

  lemma EvictedAt(q: seq<nat>, tab: seq<Meta>, k: nat, p: nat)
    requires Within(q, tab) && k < 3 && p <= |q|
    ensures Evicted(AtLog(q, tab, k, p)) <= Schedule(q, tab)
  {
    EvictedPasses(q, tab, k);
    EvictedPass(q[..p], tab, k);
    EvictedConcat(PassesLog(q, tab, k), PassLog(q[..p], tab, k));
    assert q == q[..p] + q[p..];
    ClassConcat(q[..p], q[p..], tab, k + 1);
    assert Classes(q, tab, k + 1) == Classes(q, tab, k) + Class(q, tab, k + 1);
    ClassesPrefix(q, tab, k + 1);
  }

  lemma {:induction false} LogWeightIsWeigh(log: seq<Event>, tab: seq<Meta>)
    requires Within(Evicted(log), tab)
    ensures LogWeight(log, tab) == Weigh(Evicted(log), tab)
  {
    if log != [] {
      var v, rest := Evicted(log), Evicted(log[1..]);
      if log[0].Evict? {
        assert v == [log[0].e] + rest && v[0] == log[0].e && v[1..] == rest;
        assert forall i | 0 <= i < |rest| :: rest[i] == v[i + 1];
      } else {
        assert v == rest;
      }
      LogWeightIsWeigh(log[1..], tab);
    }
  }

  lemma {:induction false} ClassWithin(q: seq<nat>, tab: seq<Meta>, v: nat)
    requires Within(q, tab)
    ensures Within(Class(q, tab, v), tab)
  {
    if q != [] {
      ClassWithin(q[1..], tab, v);
    }
  }

  lemma ScheduleWithin(q: seq<nat>, tab: seq<Meta>)
    requires Within(q, tab)
    ensures Within(Schedule(q, tab), tab)
  {
    ClassWithin(q, tab, 1);
    ClassWithin(q, tab, 2);
    ClassWithin(q, tab, 3);
  }

  /** What was ejected is a prefix of the schedule, and brings `size` within the capacity. */
  lemma VictimsFollowSchedule(c: ClockState)
    requires Evictable(c)
    ensures Victims(c) <= Schedule(c.ring, c.tab) && Within(Victims(c), c.tab)
    ensures Run(c).size == c.size - Weigh(Victims(c), c.tab)
  {
    ClosedForm(c);
    var k: nat, p: nat :| k < 3 && FirstWithin(c, k, p) && Run(c) == At(c, k, p);
    var log := AtLog(c.ring, c.tab, k, p);
    assert Run(c).log[|c.log|..] == log;
    EvictedAt(c.ring, c.tab, k, p);
    ScheduleWithin(c.ring, c.tab);
    assert forall i | 0 <= i < |Victims(c)| :: Victims(c)[i] == Schedule(c.ring, c.tab)[i];
    LogWeightIsWeigh(log, c.tab);
  }
}
