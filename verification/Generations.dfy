/** Generations on values: numbered in order of creation, four of them live, one freed per rotation once warm. */
module Generations {
  import opened Types

  const SLOTS := 4
  const ID_MOD := 0x1_0000_0000

  /** The 32-bit id of generation `n`, counting generations from 0 and ids from 1. */
  function Id(n: nat): nat {
    (n + 1) % ID_MOD
  }

  /** Of `created` generations the last four still own their arenas. */
  predicate Live(created: nat, n: nat) {
    n < created <= n + SLOTS
  }

  /** Bytes recorded and cells allocated, by generation; a freed generation has no cells. */
  datatype Gens = Gens(bytes: seq<int>, mem: seq<seq<Value>>, perGen: int)

  ghost predicate WellFormed(g: Gens) {
    && |g.bytes| == |g.mem| > 0
    && forall n | 0 <= n < |g.mem| && !Live(|g.mem|, n) :: g.mem[n] == []
  }

  function New(capBytes: int): Gens
    requires capBytes > 0
  {
    Gens([0], [[]], if capBytes / SLOTS == 0 then capBytes else capBytes / SLOTS)
  }

  /** The budget of a generation is a quarter of the capacity, rounded down, or all of it if that would be nothing. */
  lemma NewBudget(capBytes: int)
    requires capBytes > 0
    ensures capBytes >= 4 ==> 4 * New(capBytes).perGen <= capBytes < 4 * New(capBytes).perGen + 4
    ensures capBytes < 4 ==> New(capBytes).perGen == capBytes
  {
  }

  /** A value goes into a fresh cell of the newest generation. */
  function Allocate(g: Gens, v: Value): Gens
    requires |g.mem| > 0
  {
    var last := |g.mem| - 1;
    g.(mem := g.mem[last := g.mem[last] + [v]])
  }

  function Record(g: Gens, delta: int): Gens
    requires |g.bytes| > 0
  {
    var last := |g.bytes| - 1;
    g.(bytes := g.bytes[last := g.bytes[last] + delta])
  }

  predicate OverBudget(g: Gens)
    requires |g.bytes| > 0
  {
    g.bytes[|g.bytes| - 1] > g.perGen
  }

  /** The fourth newest generation loses its cells when one more is about to be created. */
  function Retire(g: Gens): Gens {
    if |g.mem| >= SLOTS then g.(mem := g.mem[|g.mem| - SLOTS := []]) else g
  }

  function Rotate(g: Gens): Gens {
    var h := Retire(g);
    h.(bytes := h.bytes + [0], mem := h.mem + [[]])
  }

  /** The oldest live generation. */
  function Oldest(created: nat): nat {
    if created < SLOTS then 0 else created - SLOTS
  }

  /** Bytes of the live generations. */
  function LiveBytes(bytes: seq<int>): int {
    Total(bytes[Oldest(|bytes|)..])
  }

  function Total(s: seq<int>): int {
    if s == [] then 0 else s[0] + Total(s[1..])
  }

  lemma {:induction false} TotalConcat(a: seq<int>, b: seq<int>)
    ensures Total(a + b) == Total(a) + Total(b)
  {
    if a == [] {
      assert a + b == b;
    } else {
      TotalConcat(a[1..], b);
      assert (a + b)[1..] == a[1..] + b;
    }
  }

  lemma RotateWellFormed(g: Gens)
    requires WellFormed(g)
    ensures WellFormed(Rotate(g))
  {
  }

  // ---------------------------------------------------------------- the circular buffer

  /** The buffer as the code rotates it: a slot holds a generation's number, or -1 for nil. */
  datatype Slots = Slots(slot: seq<int>, active: nat, idCtr: nat, created: nat, freed: seq<nat>)

  function FirstSlots(): Slots {
    Slots([0, -1, -1, -1], 0, 1, 1, [])
  }

  function RotateSlots(s: Slots): Slots
    requires |s.slot| == SLOTS
  {
    var next := (s.active + 1) % SLOTS;
    var dead := s.slot[next];
    Slots(s.slot[next := s.created], next, (s.idCtr + 1) % ID_MOD, s.created + 1,
      if dead >= 0 then s.freed + [dead] else s.freed)
  }

  function Rotations(r: nat): (s: Slots)
    ensures |s.slot| == SLOTS
  {
    if r == 0 then FirstSlots() else RotateSlots(Rotations(r - 1))
  }

  /** Which generation slot `j` holds after `r` rotations: the newest one congruent to `j`. */
  function Holder(r: nat, j: nat): int
    requires j < SLOTS
  {
    var base := r - r % SLOTS;
    if j <= r % SLOTS then base + j else if base == 0 then -1 else base - SLOTS + j
  }

  lemma ModStep(r: nat)
    ensures (r + 1) % 4 == if r % 4 == 3 then 0 else r % 4 + 1
    ensures r - r % 4 == 0 <==> r < 4
  {
  }

  /** The counter goes on to the next generation's id. */
  lemma NextId(n: nat)
    ensures (Id(n) + 1) % ID_MOD == Id(n + 1)
  {
  }

  lemma HolderRotate(r: nat, j: nat)
    requires j < SLOTS
    ensures Holder(r + 1, j) == if j == (r + 1) % SLOTS then r + 1 else Holder(r, j)
    ensures Holder(r, (r + 1) % SLOTS) == if r < 3 then -1 else r - 3
    ensures Holder(r, r % SLOTS) == r
    ensures Holder(r, j) >= 0 ==> Live(r + 1, Holder(r, j)) && Holder(r, j) % SLOTS == j
  {
    ModStep(r);
    ModStep(r + 1);
    assert r % 4 < 4;
  }

  /** The numbers 0, ..., n - 1. */
  function Firsts(n: int): (s: seq<nat>)
    ensures |s| == (if n < 0 then 0 else n) && forall i | 0 <= i < |s| :: s[i] == i
  {
    if n <= 0 then [] else Firsts(n - 1) + [n - 1]
  }

  /** What the circular buffer holds after `r` rotations. */
  predicate SlotsAt(s: Slots, r: nat)
    requires |s.slot| == SLOTS
  {
    && s.active == r % SLOTS && s.created == r + 1 && s.idCtr == Id(r)
    && (forall j | 0 <= j < SLOTS :: s.slot[j] == Holder(r, j))
    && s.freed == Firsts(r - 3)
  }

  lemma SlotsRotate(s: Slots, r: nat)
    requires |s.slot| == SLOTS && SlotsAt(s, r)
    ensures SlotsAt(RotateSlots(s), r + 1)
  {
    ModStep(r);
    var next := (r + 1) % SLOTS;
    HolderRotate(r, next);
    NextId(r);
    forall j | 0 <= j < SLOTS
      ensures RotateSlots(s).slot[j] == Holder(r + 1, j)
    {
      HolderRotate(r, j);
    }
  }

  /**
   After any number `r` of rotations: the active slot is r mod 4; every slot holds what `Holder` says;
   the counter has issued the id of generation r; and the freed generations are 0, 1, ... in order,
   each once, generation n by rotation n + 4.
   */
  lemma {:induction false} SlotLaw(r: nat)
    ensures SlotsAt(Rotations(r), r)
  {
    if r > 0 {
      SlotLaw(r - 1);
      SlotsRotate(Rotations(r - 1), r - 1);
    }
  }

  lemma SlotIs(r: nat, j: nat)
    requires j < SLOTS
    ensures Rotations(r).slot[j] == Holder(r, j) && -1 <= Holder(r, j) <= r
  {
    SlotLaw(r);
    HolderRotate(r, j);
  }

  /** Read backwards from the active slot, the ring holds generations r, r - 1, r - 2, r - 3, as far as they exist. */
  lemma BehindActive(r: nat, k: nat)
    requires k < SLOTS
    ensures var s := Rotations(r);
      s.slot[(s.active + SLOTS - k) % SLOTS] == (if k <= r then r - k else -1)
  {
    SlotLaw(r);
    ModStep(r);
    BackFrom(r % SLOTS, k);
  }

  lemma BackFrom(t: nat, k: nat)
    requires t < SLOTS && k < SLOTS
    ensures (t + SLOTS - k) % SLOTS == if k <= t then t - k else t + SLOTS - k
  {
  }

  /** Bytes held by the first `j` slots of the buffer. */
  function SlotBytes(bytes: seq<int>, j: nat): int
    requires |bytes| > 0 && j <= SLOTS
  {
    if j == 0 then 0
    else
      SlotBytes(bytes, j - 1) + Held(bytes, j - 1)
  }

  /** All four slots together hold exactly the live generations, each once. */
  lemma SlotBytesAreLive(bytes: seq<int>)
    requires |bytes| > 0
    ensures SlotBytes(bytes, SLOTS) == LiveBytes(bytes)
  {
    var r, n := |bytes| - 1, |bytes|;
    ModStep(r);
    assert SlotBytes(bytes, 1) == SlotBytes(bytes, 0) + Held(bytes, 0);
    assert SlotBytes(bytes, 2) == SlotBytes(bytes, 1) + Held(bytes, 1);
    assert SlotBytes(bytes, 3) == SlotBytes(bytes, 2) + Held(bytes, 2);
    assert SlotBytes(bytes, 4) == SlotBytes(bytes, 3) + Held(bytes, 3);
    if n < SLOTS {
      TotalShort(bytes);
    } else {
      TotalShort(bytes[n - SLOTS..]);
    }
  }

  function Held(bytes: seq<int>, j: nat): int
    requires |bytes| > 0 && j < SLOTS
  {
    var n := Holder(|bytes| - 1, j);
    if n < 0 then 0 else bytes[n]
  }

  lemma TotalShort(s: seq<int>)
    requires |s| <= 4
    ensures Total(s) == (if |s| > 0 then s[0] else 0) + (if |s| > 1 then s[1] else 0)
      + (if |s| > 2 then s[2] else 0) + (if |s| > 3 then s[3] else 0)
  {
    if |s| > 1 {
      assert Total(s) == s[0] + (s[1] + Total(s[2..])) by { assert s[1..][1..] == s[2..]; }
      if |s| > 2 {
        assert Total(s[2..]) == s[2] + Total(s[3..]) by { assert s[2..][1..] == s[3..]; }
      }
    }
  }

  lemma IdIssued(r: nat)
    ensures Rotations(r).idCtr == Id(r)
  {
    SlotLaw(r);
  }

  /** Ids are 1, 2, 3, ... up to the largest 32-bit number, then the reserved 0, then the same over again. */
  lemma IdValues(n: nat)
    ensures n < 0xFFFF_FFFF ==> Id(n) == n + 1
    ensures n == 0xFFFF_FFFF ==> Id(n) == 0
    ensures Id(n + 0x1_0000_0000) == Id(n)
  {
  }

  /** These are the ids the counter issues, one per rotation. */
  lemma IdsInOrder(r: nat)
    ensures r < 0xFFFF_FFFF ==> Rotations(r).idCtr == r + 1
    ensures r == 0xFFFF_FFFF ==> Rotations(r).idCtr == 0
    ensures r >= 0x1_0000_0000 ==> Rotations(r).idCtr == Rotations(r - 0x1_0000_0000).idCtr
  {
    IdIssued(r);
    IdValues(r);
    if r >= 0x1_0000_0000 {
      IdIssued(r - 0x1_0000_0000);
      IdValues(r - 0x1_0000_0000);
    }
  }

  /** Ids repeat only after 2^32 generations, so those in the ring and the one just freed never clash. */
  lemma IdsDiffer(created: nat, m: nat, n: nat)
    requires m < n < created <= m + SLOTS + 1
    ensures Id(m) != Id(n)
  {
  }
}
