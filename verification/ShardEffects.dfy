/** What each operation of a shard does to the entries of its clock, whatever happened before. */
module ShardEffects {
  import opened StateByte
  import opened RingSums
  import opened Types
  import opened ClockSpec
  import opened ShardSpec
  import Ops = ClockOps
  import Newest = NewestEntry
  import Gen = Generations

  /** All entries but `e` are as they were. */
  predicate OthersSame(s: Shard, t: Shard, e: nat) {
    && |t.clock.tab| == |s.clock.tab|
    && forall x | 0 <= x < |s.clock.tab| && x != e :: t.clock.tab[x] == s.clock.tab[x]
  }

  /** A lookup that finds its key sets the reference bit of the entry, resident or ghost, and does nothing else. */
  lemma GetMarks(s: Shard, k: Key)
    requires Shaped(s) && Holds(s, k)
    ensures var t, e := Apply(s, OpGet(k)), s.index[s.hash(k)];
      && OthersSame(s, t, e) && Encode(t.clock.tab[e].st) == Encode(s.clock.tab[e].st) | 0x80
      && t.clock.tab[e].weight == s.clock.tab[e].weight && t.clock.tab[e].gen == s.clock.tab[e].gen
      && t.clock.ring == s.clock.ring && t.clock.size == s.clock.size
      && t.clock.log == s.clock.log + [Touch(e)]
      && t.index == s.index && t.body == s.body && t.gens == s.gens
  {
    Ops.ReferencedEntry(s.clock, s.index[s.hash(k)]);
  }

  /** A lookup that misses does nothing. */
  lemma MissLeavesAll(s: Shard, k: Key)
    requires Shaped(s) && !Holds(s, k)
    ensures Apply(s, OpGet(k)) == s && Apply(s, OpDelete(k)) == s
  {
  }

  /** A deletion takes the entry off the ring and its weight off `size`; the order of the others stays. */
  lemma DeleteUnlinks(s: Shard, k: Key, i: nat)
    requires Shaped(s) && Holds(s, k)
    ensures var t, e := Apply(s, OpDelete(k)), s.index[s.hash(k)];
      && s.hash(k) !in t.index && (forall h | h != s.hash(k) :: h in t.index <==> h in s.index)
      && (i < |s.clock.ring| && s.clock.ring[i] == e ==>
            && t.clock.ring == s.clock.ring[..i] + s.clock.ring[i + 1..]
            && t.clock.size == s.clock.size - s.clock.tab[e].weight)
      && (e !in s.clock.ring ==> t.clock.ring == s.clock.ring && t.clock.size == s.clock.size)
      && t.clock.tab == s.clock.tab && t.body == s.body && t.gens == s.gens
  {
    if i < |s.clock.ring| && s.clock.ring[i] == s.index[s.hash(k)] {
      Ops.RemoveAt(s.clock, i);
    }
  }

  /** An update gives the entry its new weight; state byte, place in the ring and `size` stay. */
  lemma UpdateRewrites(s: Shard, k: Key, v: Value, w: int)
    requires Shaped(s) && Holds(s, k)
    ensures var t, e := Apply(s, OpPut(k, v, w)), s.index[s.hash(k)];
      && OthersSame(s, t, e) && Encode(t.clock.tab[e].st) == Encode(s.clock.tab[e].st)
      && t.clock.tab[e].weight == w % 0x1_0000_0000
      && t.clock.ring == s.clock.ring && t.clock.size == s.clock.size && t.clock.log == s.clock.log
      && t.index == s.index && t.gens.bytes == s.gens.bytes
  {
    Ops.UpdatedEntry(s.clock, s.index[s.hash(k)], Weight32(w), Gen.Id(|s.gens.mem| - 1));
  }

  /** An insertion registers one entry, which is resident before any rotation exactly if it is light enough. */
  lemma AddRegisters(s: Shard, k: Key, v: Value, w: int)
    requires Shaped(s)
    ensures Shaped(Add(s, k, v, w))
    ensures var t, e := Add(s, k, v, w), |s.body|;
      && |t.clock.tab| == e + 1 && t.clock.tab[e].weight == w % 0x1_0000_0000
      && (e in t.clock.ring && Resident(t.clock.tab[e]) <==> Phantom(s.clock) + w % 0x1_0000_0000 <= s.clock.cap)
      && t.clock.tab[e].gen == Gen.Id(|s.gens.mem| - 1)
  {
    var gen := Gen.Id(|s.gens.mem| - 1);
    AddShaped(s, k, v, w);
    Ops.InsertEntries(s.clock, Weight32(w), gen);
    Newest.NewestSurvives(s.clock, Weight32(w), gen);
  }

  /** A rotation leaves the entries of the active generation alone. */
  lemma RotateSparesActive(s: Shard, e: nat)
    requires Shaped(s) && e < |s.clock.tab| && s.clock.tab[e].gen == Gen.Id(|s.gens.mem| - 1)
    ensures Rotate(s).clock.ring == s.clock.ring && |Rotate(s).clock.tab| == |s.clock.tab|
    ensures Rotate(s).clock.tab[e].weight == s.clock.tab[e].weight
    ensures Resident(Rotate(s).clock.tab[e]) <==> Resident(s.clock.tab[e])
  {
    var n := |s.gens.mem|;
    if n >= Gen.SLOTS {
      Ops.GenerationEvictedEntries(s.clock, Gen.Id(n - Gen.SLOTS));
      Gen.IdsDiffer(n, n - Gen.SLOTS, n - 1);
    }
  }

  /**
   After an inserting put, its own rotation included, the slot of the key reaches a new entry of the given
   weight, and that entry is a resident of the ring exactly if its weight fits beside the part of `size`
   no resident accounts for.
   */
  lemma PutRegisters(s: Shard, k: Key, v: Value, w: int)
    requires Shaped(s) && !Holds(s, k)
    ensures var t, e := Apply(s, OpPut(k, v, w)), |s.body|;
      && e < |t.clock.tab| && e < |t.body| && t.clock.tab[e].weight == w % 0x1_0000_0000
      && (e in t.clock.ring && Resident(t.clock.tab[e]) <==> Phantom(s.clock) + w % 0x1_0000_0000 <= s.clock.cap)
      && s.hash(k) in t.index && t.index[s.hash(k)] == e && t.body[e].key == k
      && (forall h | h in s.index && h != s.hash(k) :: h in t.index && t.index[h] == s.index[h])
  {
    AddRegisters(s, k, v, w);
    RecordedShaped(Add(s, k, v, w), w);
    RotateSparesActive(Recorded(Add(s, k, v, w), w), |s.body|);
  }
}
