/** The circular buffer of generations as it is in memory. */
module GenRing {
  import opened Types
  import opened Generations

  class Generation {
    const id: nat
    var ar: Arena?
    var bytes: int
    /** The arena the generation was created with; `ar` forgets it once freed. */
    ghost const home: Arena

    constructor (id: nat, ghost n: nat)
      ensures this.id == id && bytes == 0 && ar == home
      ensures fresh(home) && home.serial == n && home.cells == [] && !home.freed
    {
      var a := new Arena(n);
      this.id, ar, bytes, home := id, a, 0, a;
    }

    /** Releases the arena, once. */
    method Free()
      modifies this`ar, (if ar == null then {} else {ar})`cells, (if ar == null then {} else {ar})`freed
      ensures ar == null
      ensures old(ar) != null ==> old(ar).freed && old(ar).cells == []
    {
      if ar != null {
        ar.Free();
        ar := null;
      }
    }
  }

  /** The number of a generation in order of creation, -1 for an empty slot. */
  ghost function Number(g: Generation?): int {
    if g == null then -1 else g.home.serial
  }

  class Ring {
    const gens: array<Generation?>
    var activeIdx: nat
    var idCtr: nat
    const perGenBytes: int

    /** The buffer as a value, with every generation ever made, their objects and their arenas. */
    ghost var abs: Gens
    ghost var made: seq<Generation>
    ghost var genSet: set<Generation>
    ghost var homes: set<Arena>
    /** The generations whose arenas were released, in order; `Retire` appends each one it frees. */
    ghost var released: seq<nat>

    /**
     Generation `n` and its arena hold what `abs` says; of `created` generations the arena is unfreed
     exactly while `n` is live.
     */
    ghost predicate Holds(n: nat, created: nat)
      requires n < |made| == |abs.bytes| == |abs.mem|
      reads this`made, this`abs, this`genSet, this`homes, genSet, homes
    {
      var g := made[n];
      && g in genSet && g.home in homes && g.home.serial == n
      && g.id == Id(n) && g.bytes == abs.bytes[n]
      && g.home.cells == abs.mem[n] && g.home.freed == !Live(created, n)
      && g.ar == (if Live(created, n) then g.home else null)
    }

    ghost predicate Contents(created: nat)
      reads this`made, this`abs, this`genSet, this`homes, genSet, homes
    {
      && |made| == |abs.bytes| == |abs.mem|
      && forall n | 0 <= n < |made| :: Holds(n, created)
    }

    /** The buffer and the releases are where the slot law puts them. */
    ghost predicate Slotted()
      reads this`activeIdx, this`idCtr, this`made, this`released, gens
    {
      Placed() && released == Firsts(|made| - SLOTS)
    }

    ghost predicate Placed()
      reads this`activeIdx, this`idCtr, this`made, gens
    {
      && |made| > 0 && gens.Length == SLOTS
      && activeIdx == (|made| - 1) % SLOTS && idCtr == Id(|made| - 1)
      && forall j | 0 <= j < SLOTS ::
           gens[j] == if Holder(|made| - 1, j) < 0 then null else made[Holder(|made| - 1, j)]
    }

    /** The slots, the active index, the id counter and the releases so far, as they are in memory. */
    ghost function AsSlots(): Slots
      requires gens.Length == SLOTS
      reads this`activeIdx, this`idCtr, this`made, this`released, gens
    {
      Slots([Number(gens[0]), Number(gens[1]), Number(gens[2]), Number(gens[3])], activeIdx, idCtr, |made|, released)
    }

    /** The counters and the releases are those of the slot machine. */
    lemma Tallies()
      requires Valid()
      ensures AsSlots() == Rotations(|made| - 1).(slot := AsSlots().slot)
    {
      SlotLaw(|made| - 1);
    }

    /** Slot `j` holds what the slot machine puts there. */
    lemma SlotNumber(j: nat)
      requires Valid() && j < SLOTS
      ensures Number(gens[j]) == Rotations(|made| - 1).slot[j]
    {
      SlotIs(|made| - 1, j);
      if gens[j] != null {
        assert Holds(Holder(|made| - 1, j), |made|);
      }
    }

    /** The memory is what the slot machine holds after as many rotations. */
    lemma MemoryIsSlots()
      requires Valid()
      ensures AsSlots() == Rotations(|made| - 1)
    {
      Tallies();
      forall j | 0 <= j < SLOTS
        ensures AsSlots().slot[j] == Rotations(|made| - 1).slot[j]
      {
        SlotNumber(j);
      }
    }

    /** Generation `n` has the id n + 1 until the 32-bit numbers run out, and then they repeat. */
    lemma IssuedIds(n: nat)
      requires Valid() && n < |made|
      ensures n < 0xFFFF_FFFF ==> made[n].id == n + 1
      ensures n + 0x1_0000_0000 < |made| ==> made[n + 0x1_0000_0000].id == made[n].id
    {
      IdValues(n);
      assert Holds(n, |made|);
      if n + 0x1_0000_0000 < |made| {
        assert Holds(n + 0x1_0000_0000, |made|);
      }
    }

    ghost predicate Valid()
      reads this, gens, genSet, homes
    {
      Contents(|made|) && Slotted() && Generations.WellFormed(abs) && abs.perGen == perGenBytes
    }

    constructor (capBytes: int)
      requires capBytes > 0
      ensures Valid() && abs == Generations.New(capBytes)
      ensures fresh(gens) && fresh(genSet) && fresh(homes)
    {
      var first := new Generation(1, 0);
      var perGen := capBytes / SLOTS;
      if perGen == 0 {
        perGen := capBytes;
      }
      gens := new Generation?[SLOTS](i => if i == 0 then first else null);
      activeIdx, idCtr, perGenBytes := 0, 1, perGen;
      abs, made, released := Generations.New(capBytes), [first], [];
      genSet, homes := {first}, {first.home};
    }

    /** The generation new values go to. */
    method Active() returns (g: Generation)
      requires Valid()
      ensures g == made[|made| - 1] && g in genSet && g.ar == g.home && g.id == Id(|made| - 1)
    {
      HolderRotate(|made| - 1, activeIdx);
      assert Holds(|made| - 1, |made|);
      g := gens[activeIdx];
    }

    /** Allocates in the active arena. */
    method Allocate(v: Value) returns (id: nat, p: Ptr)
      requires Valid()
      modifies this`abs, homes`cells, homes`freed
      ensures Valid() && abs == Generations.Allocate(old(abs), v)
      ensures id == Id(|made| - 1) && p == Ptr(made[|made| - 1].home, |old(abs).mem[|old(abs).mem| - 1]|)
    {
      var g := Active();
      assert Holds(|made| - 1, |made|);
      p := g.ar.NewValue(v);
      id := g.id;
      abs := Generations.Allocate(abs, v);
      forall n | 0 <= n < |made|
        ensures Holds(n, |made|)
      {
        assert old(Holds(n, |made|));
      }
    }

    /** Adds to the active generation and says whether it outgrew its budget. */
    method CheckRotationNeeded(delta: int) returns (needed: bool)
      requires Valid()
      modifies this`abs, genSet`ar, genSet`bytes
      ensures Valid() && abs == Generations.Record(old(abs), delta) && needed == OverBudget(abs)
    {
      var g := Active();
      assert Holds(|made| - 1, |made|);
      g.bytes := g.bytes + delta;
      needed := g.bytes > perGenBytes;
      abs := Generations.Record(abs, delta);
      forall n | 0 <= n < |made|
        ensures Holds(n, |made|)
      {
        assert old(Holds(n, |made|));
      }
    }

    /** Bytes attributed to the generations in the buffer. */
    method LiveBytes() returns (total: int)
      requires Valid()
      ensures total == Generations.LiveBytes(abs.bytes)
    {
      total := 0;
      for j := 0 to gens.Length
        invariant total == SlotBytes(abs.bytes, j)
      {
        var g := gens[j];
        HolderRotate(|made| - 1, j);
        if g != null {
          assert Holds(Holder(|made| - 1, j), |made|);
          total := total + g.bytes;
        }
      }
      SlotBytesAreLive(abs.bytes);
    }

    /** Frees the arena of the generation about to be overwritten. */
    method Retire(nextIdx: nat) returns (dead: Generation?)
      requires Valid() && nextIdx == |made| % SLOTS
      modifies this`abs, this`released, genSet`ar, homes`cells, homes`freed
      ensures Contents(|made| + 1) && Placed()
      ensures released == Firsts(|made| + 1 - SLOTS)
      ensures abs == Generations.Retire(old(abs))
      ensures |made| < SLOTS ==> dead == null
      ensures |made| >= SLOTS ==> dead == made[|made| - SLOTS] && dead.id == Id(|made| - SLOTS)
    {
      ghost var r := |made| - 1;
      HolderRotate(r, nextIdx);
      assert r >= 3 ==> Holds(r - 3, |made|);
      dead := gens[nextIdx];
      if dead != null {
        dead.Free();
        released := released + [Number(dead)];
      }
      abs := Generations.Retire(abs);
      ghost var created := |made| + 1;
      forall n | 0 <= n < |made|
        ensures Holds(n, created)
      {
        assert old(Holds(n, |made|));
      }
    }

    /** Records a generation just created. */
    ghost method Enroll(g: Generation)
      requires Contents(|made| + 1)
      requires g.id == Id(|made|) && g.bytes == 0 && g.ar == g.home && g.home.serial == |made|
      requires g.home.cells == [] && !g.home.freed
      modifies this`abs, this`made, this`genSet, this`homes
      ensures Contents(|made|) && made == old(made) + [g]
      ensures genSet == old(genSet) + {g} && homes == old(homes) + {g.home}
      ensures abs == old(abs).(bytes := old(abs).bytes + [0], mem := old(abs).mem + [[]])
    {
      ghost var created := |made| + 1;
      made := made + [g];
      genSet, homes := genSet + {g}, homes + {g.home};
      abs := abs.(bytes := abs.bytes + [0], mem := abs.mem + [[]]);
      forall n | 0 <= n < |made|
        ensures Holds(n, |made|)
      {
        if n < |made| - 1 {
          assert old(Holds(n, created));
        }
      }
    }

    /** Puts a fresh generation into the slot and makes it the active one. */
    method Install(nextIdx: nat) returns (ghost g: Generation)
      requires Contents(|made| + 1) && Placed() && nextIdx == |made| % SLOTS
      requires released == Firsts(|made| + 1 - SLOTS)
      modifies this`activeIdx, this`idCtr, this`abs, this`made, this`genSet, this`homes, gens
      ensures Contents(|made|) && Slotted()
      ensures abs == old(abs).(bytes := old(abs).bytes + [0], mem := old(abs).mem + [[]])
      ensures old(made) < made && |made| == |old(made)| + 1
      ensures genSet == old(genSet) + {g} && homes == old(homes) + {g.home}
      ensures fresh(g) && fresh(g.home)
    {
      ghost var r := |made| - 1;
      NextId(r);
      idCtr := (idCtr + 1) % ID_MOD;
      var freshGen := new Generation(idCtr, r + 1);
      gens[nextIdx] := freshGen;
      activeIdx := nextIdx;
      Enroll(freshGen);
      g := freshGen;
      forall j | 0 <= j < SLOTS
        ensures gens[j] == if Holder(r + 1, j) < 0 then null else made[Holder(r + 1, j)]
      {
        HolderRotate(r, j);
      }
    }

    /** The pointer side of a rotation. */
    method Advance() returns (dead: Generation?, ghost g: Generation)
      requires Valid()
      modifies this`activeIdx, this`idCtr, this`abs, this`made, this`released, this`genSet, this`homes, gens
      modifies genSet`ar, homes`cells, homes`freed
      ensures Contents(|made|) && Slotted()
      ensures abs == Generations.Rotate(old(abs))
      ensures old(made) < made && |made| == |old(made)| + 1
      ensures |old(made)| < SLOTS ==> dead == null
      ensures |old(made)| >= SLOTS ==>
        dead == old(made)[|old(made)| - SLOTS] && dead.id == Id(|old(made)| - SLOTS)
      ensures genSet == old(genSet) + {g} && homes == old(homes) + {g.home}
      ensures fresh(g) && fresh(g.home)
    {
      ModStep(|made| - 1);
      var nextIdx := (activeIdx + 1) % gens.Length;
      dead := Retire(nextIdx);
      g := Install(nextIdx);
    }

    /** Frees the generation in the next slot, puts a fresh one there and makes it the active one. */
    method Rotate() returns (dead: Generation?, ghost g: Generation)
      requires Valid()
      modifies this`activeIdx, this`idCtr, this`abs, this`made, this`released, this`genSet, this`homes, gens
      modifies genSet`ar, homes`cells, homes`freed
      ensures Valid() && abs == Generations.Rotate(old(abs))
      ensures old(made) < made && |made| == |old(made)| + 1
      ensures |old(made)| < SLOTS ==> dead == null
      ensures |old(made)| >= SLOTS ==>
        dead == old(made)[|old(made)| - SLOTS] && dead.id == Id(|old(made)| - SLOTS)
      ensures genSet == old(genSet) + {g} && homes == old(homes) + {g.home}
      ensures fresh(g) && fresh(g.home)
    {
      RotateWellFormed(abs);
      dead, g := Advance();
    }
  }
}
