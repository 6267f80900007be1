/** Sums over the entries of a ring, taken in ring order. */
module RingSums {
  import opened StateByte

  /** What the clock reads of an entry. */
  datatype Meta = Meta(st: State, weight: nat, gen: nat)

  predicate Distinct(s: seq<nat>) {
    forall i, j | 0 <= i < j < |s| :: s[i] != s[j]
  }

  predicate Within(ring: seq<nat>, tab: seq<Meta>) {
    forall i | 0 <= i < |ring| :: ring[i] < |tab|
  }

  ghost function Sum(ring: seq<nat>, tab: seq<Meta>, f: Meta -> int): int
    requires Within(ring, tab)
  {
    if ring == [] then 0 else f(tab[ring[0]]) + Sum(ring[1..], tab, f)
  }

  lemma {:induction false} SumConcat(a: seq<nat>, b: seq<nat>, tab: seq<Meta>, f: Meta -> int)
    requires Within(a, tab) && Within(b, tab)
    ensures Within(a + b, tab) && Sum(a + b, tab, f) == Sum(a, tab, f) + Sum(b, tab, f)
  {
    if a == [] {
      assert a + b == b;
    } else {
      SumConcat(a[1..], b, tab, f);
      assert (a + b)[1..] == a[1..] + b;
    }
  }

  /** Rotating the ring by one moves the front term to the back. */
  lemma SumRotate(ring: seq<nat>, tab: seq<Meta>, f: Meta -> int)
    requires ring != [] && Within(ring, tab)
    ensures Within(ring[1..], tab) && Within(ring[1..] + [ring[0]], tab)
    ensures Sum(ring[1..] + [ring[0]], tab, f) == Sum(ring, tab, f)
    ensures Sum(ring, tab, f) == f(tab[ring[0]]) + Sum(ring[1..], tab, f)
  {
    SumConcat(ring[1..], [ring[0]], tab, f);
  }

  /** The sum depends only on the entries the ring names. */
  lemma {:induction false} SumFrame(ring: seq<nat>, tab: seq<Meta>, tab': seq<Meta>, f: Meta -> int)
    requires Within(ring, tab) && Within(ring, tab')
    requires forall i | 0 <= i < |ring| :: f(tab'[ring[i]]) == f(tab[ring[i]])
    ensures Sum(ring, tab', f) == Sum(ring, tab, f)
  {
    if ring != [] {
      assert forall i | 0 <= i < |ring[1..]| :: ring[1..][i] == ring[i + 1];
      SumFrame(ring[1..], tab, tab', f);
    }
  }

  /** Rewriting one member of a ring without repetitions changes the sum by exactly that term. */
  lemma {:induction false} SumUpdate(ring: seq<nat>, tab: seq<Meta>, e: nat, m: Meta, f: Meta -> int)
    requires Within(ring, tab) && Distinct(ring) && e < |tab|
    ensures Within(ring, tab[e := m])
    ensures Sum(ring, tab[e := m], f) == Sum(ring, tab, f) + (if e in ring then f(m) - f(tab[e]) else 0)
  {
    if ring != [] {
      assert forall i | 0 <= i < |ring[1..]| :: ring[1..][i] == ring[i + 1];
      if ring[0] == e {
        SumFrame(ring[1..], tab, tab[e := m], f);
      } else {
        SumUpdate(ring[1..], tab, e, m, f);
      }
    }
  }

  lemma {:induction false} SumNonNegative(ring: seq<nat>, tab: seq<Meta>, f: Meta -> int)
    requires Within(ring, tab)
    requires forall i | 0 <= i < |ring| :: 0 <= f(tab[ring[i]])
    ensures 0 <= Sum(ring, tab, f)
    ensures forall i | 0 <= i < |ring| :: f(tab[ring[i]]) <= Sum(ring, tab, f)
  {
    if ring != [] {
      assert forall i | 0 <= i < |ring[1..]| :: ring[1..][i] == ring[i + 1];
      SumNonNegative(ring[1..], tab, f);
    }
  }

  lemma {:induction false} SumZero(ring: seq<nat>, tab: seq<Meta>, f: Meta -> int)
    requires Within(ring, tab)
    requires forall i | 0 <= i < |ring| :: f(tab[ring[i]]) == 0
    ensures Sum(ring, tab, f) == 0
  {
    if ring != [] {
      assert forall i | 0 <= i < |ring[1..]| :: ring[1..][i] == ring[i + 1];
      SumZero(ring[1..], tab, f);
    }
  }

  /** Splitting every term in two splits the sum. */
  lemma {:induction false} SumSplit(ring: seq<nat>, tab: seq<Meta>, tab': seq<Meta>,
                                    f: Meta -> int, g: Meta -> int, h: Meta -> int)
    requires Within(ring, tab) && Within(ring, tab')
    requires forall i | 0 <= i < |ring| :: f(tab[ring[i]]) == g(tab'[ring[i]]) + h(tab[ring[i]])
    ensures Sum(ring, tab, f) == Sum(ring, tab', g) + Sum(ring, tab, h)
  {
    if ring != [] {
      assert forall i | 0 <= i < |ring[1..]| :: ring[1..][i] == ring[i + 1];
      SumSplit(ring[1..], tab, tab', f, g, h);
    }
  }
}
