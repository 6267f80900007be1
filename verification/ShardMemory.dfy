/** The shard as it is in memory: an index of entries, a clock and a generation ring sharing them. */
module ShardMemory {
  import opened StateByte
  import opened Types
  import opened ClockRing
  import opened GenRing
  import opened ShardSpec
  import opened Counters
  import Spec = ShardSpec
  import Ops = ClockOps
  import Gen = Generations

  /** Entry `e` stores `b`, and its pointer leads into the arena of the generation it was put in. */
  ghost predicate Stores(e: Entry, b: Body, made: seq<Generation>)
    reads e`vptr
  {
    && e.h == b.h && e.key == b.key
    && b.cell.gen < |made| && e.vptr == Ptr(made[b.cell.gen].home, b.cell.off)
  }

  /** Objects a shard took in during a call. */
  datatype Gain =
    | Nothing
    | Item(node: MetaNode, ent: Entry)
    | ItemAndGen(node: MetaNode, ent: Entry, gen: Generation)
    | GenOnly(gen: Generation)

  class ShardObject {
    var index: map<nat, Entry>
    const clock: Clock
    const genRing: Ring
    const hash: Key -> nat

    /** 64-bit counters: lookups that found their key, lookups that did not, deletions. */
    var hits: uint64
    var misses: uint64
    var evictions: uint64

    /** The counters, as they are read off together. */
    function Snapshot(): Stats
      reads this`hits, this`misses, this`evictions
    {
      Stats(hits, misses, evictions)
    }

    /** The slot of a key in the index. */
    function Hash(key: Key): nat {
      hash(key)
    }

    /** The index by registration number, and what the shard keeps of every entry. */
    ghost var slots: map<nat, nat>
    ghost var body: seq<Body>

    /** The shard as a value. */
    ghost function Abs(): Shard
      reads this`slots, this`body, clock`abs, genRing`abs
    {
      Shard(slots, clock.abs, body, genRing.abs, hash)
    }

    /** Entry `e` stores its body. */
    ghost predicate Stored(e: Entry)
      reads this`body, genRing`made, e
    {
      e.id < |body| && Stores(e, body[e.id], genRing.made)
    }

    /** Every registered entry stores its body. */
    ghost predicate Entries()
      reads this`body, genRing`made, clock`ents, clock`known, clock.ents
    {
      && |body| == |clock.known|
      && forall e | e in clock.ents :: Stored(e)
    }

    /** The index reaches the entries `slots` names. */
    ghost predicate Index()
      reads this`slots, this`index, clock`ents, clock.ents`id
    {
      && index.Keys == slots.Keys
      && (forall h | h in index :: index[h] in clock.ents && index[h].id == slots[h])
    }

    /** The clock, the generation ring and every entry are as their abstractions say. */
    ghost predicate Parts()
      reads this`body, clock, clock.cells, clock.ents, genRing, genRing.gens, genRing.genSet, genRing.homes
    {
      clock.Valid() && genRing.Valid() && Entries()
    }

    /** Where the next value goes. */
    ghost function NextCell(): Cell
      requires |genRing.abs.mem| > 0
      reads genRing`abs
    {
      Cell(|genRing.abs.mem| - 1, |genRing.abs.mem[|genRing.abs.mem| - 1]|)
    }

    /** Pointer `p` leads to cell `c`. */
    ghost predicate Leads(p: Ptr, c: Cell)
      reads genRing`made
    {
      c.gen < |genRing.made| && p == Ptr(genRing.made[c.gen].home, c.off)
    }

    /** All entries but `ent` store their bodies. */
    ghost predicate AllBut(ent: Entry)
      reads this`body, genRing`made, clock`ents, clock`known, clock.ents
    {
      && |clock.known| == |body|
      && ent in clock.ents && ent.id < |body| && ent.h == body[ent.id].h && ent.key == body[ent.id].key
      && forall e | e in clock.ents && e != ent :: e.id != ent.id && Stored(e)
    }

    /** All entries but the last registered one store their bodies; that one has none yet. */
    ghost predicate Pending(ent: Entry)
      reads this`body, genRing`made, clock`ents, clock`known, clock.ents
    {
      && |clock.known| == |body| + 1
      && ent in clock.ents && ent.id == |body|
      && forall e | e in clock.ents && e != ent :: Stored(e)
    }

    ghost predicate Valid()
      reads this`slots, this`index, this`body, clock, clock.cells, clock.ents
      reads genRing, genRing.gens, genRing.genSet, genRing.homes
    {
      Parts() && Index() && Shaped(Abs())
    }

    /** The clock's nodes and entries are the same objects as before. */
    twostate predicate SameClock()
      reads clock`cells, clock`ents
    {
      clock.cells == old(clock.cells) && clock.ents == old(clock.ents)
    }

    /** The generations and arenas are the same objects as before. */
    twostate predicate SameGens()
      reads genRing`genSet, genRing`homes
    {
      genRing.genSet == old(genRing.genSet) && genRing.homes == old(genRing.homes)
    }

    /** The generation ring has gained the new generation `g` and its arena. */
    twostate predicate OneMore(new g: Generation)
      reads genRing`genSet, genRing`homes
    {
      && genRing.genSet == old(genRing.genSet) + {g} && fresh(g)
      && genRing.homes == old(genRing.homes) + {g.home} && fresh(g.home)
    }

    /** The clock has gained the new entry `e` and the new node `n`. */
    twostate predicate OneLinked(new n: MetaNode, new e: Entry)
      reads clock`cells, clock`ents
    {
      && clock.cells == old(clock.cells) + {n} && fresh(n)
      && clock.ents == old(clock.ents) + {e} && fresh(e)
    }

    /** The shard has gained the new objects of `gain` and no others. */
    twostate predicate Gained(new gain: Gain)
      reads clock`cells, clock`ents, genRing`genSet, genRing`homes
    {
      match gain
      case Nothing => SameClock() && SameGens()
      case Item(n, e) => OneLinked(n, e) && SameGens()
      case ItemAndGen(n, e, g) => OneLinked(n, e) && OneMore(g)
      case GenOnly(g) => SameClock() && OneMore(g)
    }

    constructor (capBytes: nat, hash: Key -> nat, hooked: bool)
      requires capBytes > 0
      ensures Valid() && Abs() == Empty(capBytes, hash)
      ensures hits == misses == evictions == 0 && clock.hooked == hooked
      ensures fresh(clock) && fresh(clock.cells) && fresh(clock.ents)
      ensures fresh(genRing) && fresh(genRing.gens) && fresh(genRing.genSet) && fresh(genRing.homes)
    {
      var c := new Clock(capBytes, hooked);
      var g := new Ring(capBytes);
      clock, genRing, this.hash := c, g, hash;
      index, hits, misses, evictions := map[], 0, 0, 0;
      slots, body := map[], [];
      new;
    }

    /** Tells the clock which generation lost its arena, if any. */
    method Notify(dead: Generation?)
      requires clock.Valid() && genRing.Valid()
      modifies clock`size, clock`abs, clock.ents`state
      ensures clock.Valid() && genRing.Valid()
      ensures clock.abs == if dead == null then old(clock.abs) else Ops.GenerationEvicted(old(clock.abs), dead.id)
      ensures SameClock() && SameGens()
    {
      if dead != null {
        clock.GenerationEvicted(dead.id);
      }
    }

    /** Rotation as the generation ring sees it; the clock is not touched yet. */
    method TurnRing() returns (dead: Generation?, ghost g: Generation)
      requires clock.Valid() && genRing.Valid()
      modifies genRing, genRing.gens, genRing.genSet`ar, genRing.genSet`bytes, genRing.homes`cells,
               genRing.homes`freed
      ensures clock.Valid() && genRing.Valid()
      ensures genRing.abs == Gen.Rotate(old(genRing.abs)) && old(genRing.made) <= genRing.made
      ensures var n := |old(genRing.abs).mem|;
        if n < Gen.SLOTS then dead == null else dead != null && dead.id == Gen.Id(n - Gen.SLOTS)
      ensures SameClock() && OneMore(g)
    {
      dead, g := genRing.Rotate();
    }

    /** Rotation as the generation ring and the clock see it. */
    method RotateParts() returns (ghost g: Generation)
      requires clock.Valid() && genRing.Valid()
      modifies clock`size, clock`abs, clock.ents`state
      modifies genRing, genRing.gens, genRing.genSet`ar, genRing.genSet`bytes, genRing.homes`cells,
               genRing.homes`freed
      ensures clock.Valid() && genRing.Valid()
      ensures genRing.abs == Gen.Rotate(old(genRing.abs))
      ensures clock.abs == Rotated(old(clock.abs), |old(genRing.abs).mem|)
      ensures old(genRing.made) <= genRing.made
      ensures SameClock() && OneMore(g)
    {
      var dead;
      dead, g := TurnRing();
      Notify(dead);
    }

    /** Frees the oldest arena once the ring is warm, and tells the clock. */
    method Rotate() returns (ghost g: Generation)
      requires Valid()
      modifies clock`size, clock`abs, clock.ents`state
      modifies genRing, genRing.gens, genRing.genSet`ar, genRing.genSet`bytes, genRing.homes`cells,
               genRing.homes`freed
      ensures Valid() && Abs() == Spec.Rotate(old(Abs()))
      ensures SameClock() && OneMore(g)
    {
      RotateShaped(Abs());
      g := RotateParts();
      forall e | e in clock.ents
        ensures Stored(e)
      {
        assert old(Stored(e));
      }
    }

    /** Allocates a value in the active arena; nothing else moves. */
    method Allocate(val: Value) returns (id: nat, p: Ptr)
      requires Parts() && Index()
      modifies genRing`abs, genRing.homes`cells, genRing.homes`freed
      ensures Parts() && Index() && |old(genRing.abs).mem| > 0
      ensures genRing.abs == Gen.Allocate(old(genRing.abs), val)
      ensures id == Gen.Id(old(NextCell()).gen) && Leads(p, old(NextCell()))
      ensures SameClock() && SameGens()
    {
      id, p := genRing.Allocate(val);
    }

    /** A new value, weight and generation for an entry, in the active arena and behind the clock's back. */
    method Refill(ent: Entry, val: Value, weight: int)
      requires Parts() && Index() && ent in clock.ents
      modifies this`body, clock`abs, ent`vptr, ent`weight, ent`genID, genRing`abs, genRing.homes`cells,
               genRing.homes`freed
      ensures Parts() && Index() && |old(genRing.abs).mem| > 0 && ent.id < |old(body)|
      ensures genRing.abs == Gen.Allocate(old(genRing.abs), val)
      ensures clock.abs == Ops.Update(old(clock.abs), ent.id, Weight32(weight), Gen.Id(old(NextCell()).gen))
      ensures body == old(body)[ent.id := old(body)[ent.id].(cell := old(NextCell()))]
      ensures SameClock() && SameGens()
    {
      ghost var c := NextCell();
      var id, p := Allocate(val);
      Stamp(ent, p, weight % WEIGHT_MOD, id);
      Move(ent, c);
    }

    /** An in-place update writes three fields of a shared entry without telling the clock. */
    method Stamp(ent: Entry, p: Ptr, weight: nat, id: nat)
      requires Parts() && Index() && ent in clock.ents
      modifies clock`abs, ent`vptr, ent`weight, ent`genID
      ensures clock.Valid() && genRing.Valid() && Index() && AllBut(ent)
      ensures clock.abs == Ops.Update(old(clock.abs), ent.id, weight, id) && ent.vptr == p
      ensures SameClock() && SameGens()
    {
      clock.Restamp(ent, p, weight, id);
      forall e | e in clock.ents && e != ent
        ensures e.id != ent.id && Stored(e)
      {
        assert old(Stored(e));
      }
    }

    /** Records the new cell of an entry whose fields were just written. */
    ghost method Move(ent: Entry, c: Cell)
      requires clock.Valid() && genRing.Valid() && Index() && AllBut(ent) && Leads(ent.vptr, c)
      modifies this`body
      ensures Parts() && Index() && ent.id < |old(body)|
      ensures body == old(body)[ent.id := old(body)[ent.id].(cell := c)]
      ensures SameClock() && SameGens()
    {
      body := body[ent.id := body[ent.id].(cell := c)];
      forall e | e in clock.ents
        ensures Stored(e)
      {
        if e != ent {
          assert old(e.id != ent.id && Stored(e));
        }
      }
    }

    /** The update path of `put`. */
    method Overwrite(ent: Entry, val: Value, weight: int, ghost key: Key)
      requires Valid() && Holds(Abs(), key) && ent in clock.ents && ent.id == slots[Hash(key)]
      modifies this`body, clock`abs, ent`vptr, ent`weight, ent`genID, genRing`abs, genRing.homes`cells,
               genRing.homes`freed
      ensures Valid() && Abs() == Spec.Overwrite(old(Abs()), key, val, weight)
      ensures SameClock() && SameGens()
    {
      OverwriteShaped(Abs(), key, val, weight);
      Refill(ent, val, weight);
    }

    /** Hands a fresh entry to the clock; its body is not recorded yet. */
    method Admit(ent: Entry) returns (ghost n: MetaNode)
      requires Parts() && Index() && ent !in clock.ents
      modifies clock, clock.cells`next, clock.cells`prev, clock.ents`state, ent`state, ent`id
      ensures clock.Valid() && genRing.Valid() && Index()
      ensures clock.known == old(clock.known) + [ent] && ent.id == |old(clock.known)|
      ensures clock.ents == old(clock.ents) + {ent}
      ensures clock.abs == Ops.Insert(old(clock.abs), ent.weight, ent.genID)
      ensures clock.cells == old(clock.cells) + {n} && fresh(n) && SameGens()
    {
      n := clock.Insert(ent);
    }

    /** Registers a fresh entry with the clock; all others still store their bodies. */
    method Register(ent: Entry) returns (ghost n: MetaNode)
      requires Parts() && Index() && ent !in clock.ents
      modifies clock, clock.cells`next, clock.cells`prev, clock.ents`state, ent`state, ent`id
      ensures clock.Valid() && genRing.Valid() && Index()
      ensures Pending(ent) && clock.ents == old(clock.ents) + {ent}
      ensures clock.abs == Ops.Insert(old(clock.abs), ent.weight, ent.genID)
      ensures clock.cells == old(clock.cells) + {n} && fresh(n) && SameGens()
    {
      n := Admit(ent);
      forall e | e in clock.ents && e != ent
        ensures Stored(e)
      {
        assert old(Stored(e));
      }
    }

    /** Records the body of the entry just registered. */
    ghost method Note(ent: Entry, c: Cell)
      requires clock.Valid() && genRing.Valid() && Index() && Pending(ent) && Leads(ent.vptr, c)
      modifies this`body
      ensures Parts() && Index() && body == old(body) + [Body(ent.h, ent.key, c)]
      ensures SameClock() && SameGens()
    {
      body := body + [Body(ent.h, ent.key, c)];
      forall e | e in clock.ents
        ensures Stored(e)
      {
        if e != ent {
          assert old(Stored(e));
        }
      }
    }

    /** A fresh entry for a value allocated in the active arena. */
    method Create(h: nat, key: Key, val: Value, weight: int) returns (ent: Entry)
      requires Parts() && Index()
      modifies genRing`abs, genRing.homes`cells, genRing.homes`freed
      ensures Parts() && Index() && |old(genRing.abs).mem| > 0
      ensures genRing.abs == Gen.Allocate(old(genRing.abs), val)
      ensures fresh(ent) && ent.h == h && ent.key == key && Leads(ent.vptr, old(NextCell()))
      ensures ent.weight == Weight32(weight) && ent.genID == Gen.Id(old(NextCell()).gen)
      ensures SameClock() && SameGens()
    {
      var id, p := Allocate(val);
      ent := new Entry(h, key, p, weight % WEIGHT_MOD, id, STATE_COLD | REF_BIT);
    }

    /** Registers a fresh entry with the clock, which may evict. */
    method Enter(ent: Entry, ghost c: Cell) returns (ghost n: MetaNode)
      requires Parts() && Index() && ent !in clock.ents && Leads(ent.vptr, c)
      modifies this`body, clock, clock.cells`next, clock.cells`prev, clock.ents`state, ent`state, ent`id
      ensures Parts() && Index()
      ensures clock.ents == old(clock.ents) + {ent} && ent.id == |old(body)|
      ensures clock.abs == Ops.Insert(old(clock.abs), ent.weight, ent.genID)
      ensures body == old(body) + [Body(ent.h, ent.key, c)]
      ensures clock.cells == old(clock.cells) + {n} && fresh(n) && SameGens()
    {
      n := Register(ent);
      Note(ent, c);
    }

    /** Allocates, creates the entry and registers it. */
    method Place(h: nat, key: Key, val: Value, weight: int) returns (ent: Entry, ghost n: MetaNode)
      requires Parts() && Index()
      modifies this`body, clock, clock.cells`next, clock.cells`prev, clock.ents`state, genRing`abs,
               genRing.homes`cells, genRing.homes`freed
      ensures Parts() && Index() && |old(genRing.abs).mem| > 0
      ensures fresh(ent) && clock.ents == old(clock.ents) + {ent} && ent.id == |old(body)|
      ensures genRing.abs == Gen.Allocate(old(genRing.abs), val)
      ensures clock.abs == Ops.Insert(old(clock.abs), Weight32(weight), Gen.Id(old(NextCell()).gen))
      ensures body == old(body) + [Body(h, key, old(NextCell()))]
      ensures clock.cells == old(clock.cells) + {n} && fresh(n) && SameGens()
    {
      ghost var c := NextCell();
      ent := Create(h, key, val, weight);
      n := Enter(ent, c);
    }

    /** Points slot `h` of the index at `ent`, displacing whatever was there. */
    method Link(h: nat, ent: Entry)
      requires Parts() && Index() && ent in clock.ents
      modifies this`slots, this`index
      ensures Parts() && Index()
      ensures Abs() == old(Abs()).(index := old(Abs()).index[h := ent.id])
      ensures SameClock() && SameGens()
    {
      index := index[h := ent];
      slots := slots[h := ent.id];
    }

    /** The insertion path of `put` up to the registration with the clock. */
    method Add(key: Key, val: Value, weight: int) returns (ghost ent: Entry, ghost n: MetaNode)
      requires Valid()
      modifies this`slots, this`body, this`index, clock, clock.cells`next, clock.cells`prev, clock.ents`state,
               genRing`abs, genRing.homes`cells, genRing.homes`freed
      ensures Valid() && Abs() == Spec.Add(old(Abs()), key, val, weight)
      ensures OneLinked(n, ent) && SameGens()
    {
      ghost var s := Abs();
      AddShaped(s, key, val, weight);
      var h := Hash(key);
      var e;
      e, n := Place(h, key, val, weight);
      Link(h, e);
      ent := e;
      assert Abs() == Spec.Add(s, key, val, weight);
    }

    /** Charges the active generation and rotates when it outgrew its budget. */
    method Charge(weight: int) returns (ghost g: Generation?)
      requires Valid()
      modifies clock`size, clock`abs, clock.ents`state
      modifies genRing, genRing.gens, genRing.genSet`ar, genRing.genSet`bytes, genRing.homes`cells,
               genRing.homes`freed
      ensures Valid() && Abs() == Settle(Recorded(old(Abs()), weight))
      ensures SameClock()
      ensures if g == null then SameGens() else OneMore(g)
    {
      RecordedShaped(Abs(), weight);
      var needed := genRing.CheckRotationNeeded(weight);
      forall e | e in clock.ents
        ensures Stored(e)
      {
        assert old(Stored(e));
      }
      g := null;
      if needed {
        g := Rotate();
      }
    }

    /** The insertion path of `put`. */
    method Insert(key: Key, val: Value, weight: int) returns (ghost ent: Entry, ghost n: MetaNode, ghost g: Generation?)
      requires Valid()
      modifies this`slots, this`body, this`index, clock, clock.cells`next, clock.cells`prev, clock.ents`state
      modifies genRing, genRing.gens, genRing.genSet`ar, genRing.genSet`bytes, genRing.homes`cells,
               genRing.homes`freed
      ensures Valid() && Abs() == Settle(Recorded(Spec.Add(old(Abs()), key, val, weight), weight))
      ensures OneLinked(n, ent)
      ensures if g == null then SameGens() else OneMore(g)
    {
      ghost var s := Spec.Add(Abs(), key, val, weight);
      ent, n := Add(key, val, weight);
      g := Charge(weight);
      assert Abs() == Settle(Recorded(s, weight));
    }

    /** Inserts or updates. */
    method Put(key: Key, val: Value, weight: int) returns (ghost gain: Gain)
      requires Valid()
      modifies this`slots, this`body, this`index, clock, clock.cells`next, clock.cells`prev
      modifies clock.ents`state, clock.ents`vptr, clock.ents`weight, clock.ents`genID
      modifies genRing, genRing.gens, genRing.genSet`ar, genRing.genSet`bytes, genRing.homes`cells,
               genRing.homes`freed
      ensures Valid() && Abs() == Spec.Put(old(Abs()), key, val, weight)
      ensures Gained(gain)
    {
      var h := Hash(key);
      if h in index && index[h].key == key {
        Overwrite(index[h], val, weight, key);
        return Nothing;
      }
      ghost var ent, n, g := Insert(key, val, weight);
      gain := if g == null then Item(n, ent) else ItemAndGen(n, ent, g);
    }

    /** Looks a key up and marks its entry as referenced; a ghost is found like a resident. */
    method Get(key: Key) returns (answer: Answer)
      requires Valid()
      modifies this`hits, this`misses, clock`abs, clock`log, clock.ents`state
      ensures Valid() && Abs() == Touched(old(Abs()), key)
      ensures answer == Spec.Get(old(Abs()), key)
      ensures Snapshot() == Count(old(Snapshot()), OutcomeOf(old(Abs()), OpGet(key)))
      ensures SameClock() && SameGens()
    {
      var h := Hash(key);
      if h !in index || index[h].key != key {
        Tally(false);
        return Miss;
      }
      answer := Found(index[h], key);
    }

    /** The hit path of a lookup. */
    method Found(ent: Entry, ghost key: Key) returns (answer: Answer)
      requires Valid() && Holds(Abs(), key) && ent in clock.ents && ent.id == slots[Hash(key)]
      modifies this`hits, this`misses, clock`abs, clock`log, ent`state
      ensures Valid() && Abs() == Touched(old(Abs()), key)
      ensures answer == Spec.Get(old(Abs()), key)
      ensures Snapshot() == old(Snapshot()).(hits := Next(old(hits)))
      ensures SameClock() && SameGens()
    {
      ghost var s := Abs();
      TouchedShaped(s, key);
      Tally(true);
      answer := Deref(ent, key);
      Touch(ent);
      assert Abs() == Touched(s, key);
    }

    /** Counts a lookup. */
    method Tally(hit: bool)
      requires Valid()
      modifies this`hits, this`misses
      ensures Valid() && Abs() == old(Abs())
      ensures Snapshot() ==
        if hit then old(Snapshot()).(hits := Next(old(hits))) else old(Snapshot()).(misses := Next(old(misses)))
      ensures SameClock() && SameGens()
    {
      if hit {
        hits := Next(hits);
      } else {
        misses := Next(misses);
      }
    }

    /** Marks an entry as referenced. */
    method Touch(ent: Entry)
      requires Parts() && Index() && ent in clock.ents
      modifies clock`abs, clock`log, ent`state
      ensures Parts() && Index()
      ensures Abs() == old(Abs()).(clock := Ops.SetReferenced(old(Abs()).clock, ent.id))
      ensures SameClock() && SameGens()
      ensures Snapshot() == old(Snapshot())
    {
      clock.SetReferenced(ent);
    }

    /** What following the entry's pointer yields; a freed arena has no cells left. */
    method Deref(ent: Entry, ghost key: Key) returns (answer: Answer)
      requires Valid() && Holds(Abs(), key) && ent in clock.ents && ent.id == slots[Hash(key)]
      ensures answer == Spec.Get(Abs(), key)
    {
      var p := ent.vptr;
      ghost var c := body[ent.id].cell;
      assert Stores(ent, body[ent.id], genRing.made);
      assert genRing.Holds(c.gen, |genRing.made|);
      if p.off < |p.arena.cells| {
        answer := Hit(p.arena.cells[p.off]);
      } else {
        answer := Dangling;
      }
    }

    /** Empties slot `h` of the index and counts that. */
    method Unlink(h: nat)
      requires Parts() && Index()
      modifies this`slots, this`index
      ensures Parts() && Index()
      ensures Abs() == old(Abs()).(index := old(Abs()).index - {h})
    {
      index, slots := index - {h}, slots - {h};
    }

    /** Takes an entry off the clock. */
    method Unregister(ent: Entry)
      requires Parts() && Index() && ent in clock.ents
      modifies clock`head, clock`size, clock`abs, clock`nodes, clock.cells`next, clock.cells`prev
      ensures Parts() && Index()
      ensures Abs() == old(Abs()).(clock := Ops.Remove(old(Abs()).clock, ent.id))
    {
      clock.Remove(ent);
    }

    /** Drops the key from index and clock; its cell stays until the arena goes. */
    method Delete(key: Key)
      requires Valid()
      modifies this`slots, this`index, this`evictions, clock`head, clock`size, clock`abs, clock`nodes,
               clock.cells`next, clock.cells`prev
      ensures Valid() && Abs() == Spec.Delete(old(Abs()), key)
      ensures evictions == if old(Holds(Abs(), key)) then Next(old(evictions)) else old(evictions)
    {
      var h := Hash(key);
      if h in index && index[h].key == key {
        CountEviction();
        Discard(h, index[h], key);
      }
    }

    /** Counts a deletion. */
    method CountEviction()
      requires Valid()
      modifies this`evictions
      ensures Valid() && Abs() == old(Abs()) && evictions == Next(old(evictions))
    {
      evictions := Next(evictions);
    }

    /** The path of a deletion that found its key. */
    method Discard(h: nat, ent: Entry, ghost key: Key)
      requires Valid() && Holds(Abs(), key) && h == Hash(key) && ent in clock.ents && ent.id == slots[h]
      modifies this`slots, this`index, clock`head, clock`size, clock`abs, clock`nodes, clock.cells`next,
               clock.cells`prev
      ensures Valid() && Abs() == Spec.Delete(old(Abs()), key)
    {
      ghost var s := Abs();
      DeleteShaped(s, key);
      Unlink(h);
      Unregister(ent);
    }
  }
}
