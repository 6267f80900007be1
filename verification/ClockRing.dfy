/** The clock as it is in memory: a circular doubly linked list of nodes and a moving hand. */
module ClockRing {
  import opened StateByte
  import opened RingSums
  import opened Types
  import opened ClockSpec
  import Ops = ClockOps

  class MetaNode {
    var next: MetaNode?
    var prev: MetaNode?
    const entry: Entry

    constructor (entry: Entry)
      ensures this.entry == entry
    {
      this.entry := entry;
      next, prev := null, null;
    }
  }

  /** `q` is a circle of nodes of `cells`: links are mutually inverse and no node occurs twice. */
  ghost predicate Linked(q: seq<MetaNode>, cells: set<MetaNode>)
    reads cells
  {
    && (forall i | 0 <= i < |q| :: q[i] in cells)
    && (forall i, j | 0 <= i < j < |q| :: q[i] != q[j])
    && (forall i {:trigger q[i].next} {:trigger q[i].prev} | 0 <= i < |q| ::
          && q[i].next == (if i + 1 < |q| then q[i + 1] else q[0])
          && q[i].prev == (if i > 0 then q[i - 1] else q[|q| - 1]))
  }

  /** The circle may be read from any of its nodes. */
  lemma LinkedFrom(q: seq<MetaNode>, cells: set<MetaNode>, i: nat)
    requires i <= |q| && Linked(q, cells)
    ensures Linked(q[i..] + q[..i], cells)
  {
  }

  /** `known` lists `ents` by registration number, and `tab` holds what the clock reads of each. */
  ghost predicate Registered(known: seq<Entry>, ents: set<Entry>, tab: seq<Meta>)
    reads ents
  {
    && |tab| == |known|
    && (forall i | 0 <= i < |known| :: known[i] in ents && known[i].id == i)
    && (forall e | e in ents ::
          && e.id < |known| && known[e.id] == e
          && Legal(e.state) && tab[e.id] == Meta(Decode(e.state), e.weight, e.genID))
  }

  /** The nodes of `q` stand for the entries of `ring`, in order. */
  ghost predicate Names(q: seq<MetaNode>, ents: set<Entry>, ring: seq<nat>)
    reads ents`id
  {
    |ring| == |q| && forall i | 0 <= i < |q| :: q[i].entry in ents && q[i].entry.id == ring[i]
  }

  class Clock {
    var head: MetaNode?
    var size: int
    const capacity: int
    /** Whether the user registered a callback for ejections. */
    const hooked: bool

    /** The clock as a value. */
    ghost var abs: ClockState
    /** What happened to entries so far; ejections are recorded by the hook itself. */
    ghost var log: seq<Event>
    /** The circle read from the head; every entry ever registered; all nodes and entries of either. */
    ghost var nodes: seq<MetaNode>
    ghost var known: seq<Entry>
    ghost var cells: set<MetaNode>
    ghost var ents: set<Entry>

    /** The circle `q` and the fields hold what `abs` says, read by a hand standing on `q[0]`. */
    ghost predicate Shape(q: seq<MetaNode>)
      reads this`known, this`ents, this`abs, this`size, this`log, this`cells, cells, ents
    {
      Linked(q, cells) && Names(q, ents, abs.ring) && Books()
    }

    /** The fields and the registered entries hold what `abs` says. */
    ghost predicate Books()
      reads this`known, this`ents, this`abs, this`size, this`log, ents
    {
      && Registered(known, ents, abs.tab)
      && abs.size == size && abs.cap == capacity
      && log == abs.log
    }

    ghost predicate HeadFirst()
      reads this`head, this`nodes
    {
      head == if nodes == [] then null else nodes[0]
    }

    ghost predicate Valid()
      reads this, cells, ents
    {
      Shape(nodes) && HeadFirst() && Ops.Valid(abs)
    }

    constructor (capacity: nat, hooked: bool)
      ensures Valid() && abs == Ops.Empty(capacity) && known == [] && cells == {} && ents == {}
      ensures this.hooked == hooked
    {
      head, size, this.capacity, this.hooked := null, 0, capacity, hooked;
      nodes, known, cells, ents, log := [], [], {}, {}, [];
      abs := Ops.Empty(capacity);
    }

    /** Links a node for `e` in before the head, that is, behind the last node the hand will reach. */
    method Append(e: Entry) returns (ghost n: MetaNode)
      requires Linked(nodes, cells) && HeadFirst()
      modifies this`head, this`nodes, this`cells, cells`next, cells`prev
      ensures Linked(nodes, cells) && HeadFirst()
      ensures |nodes| == |old(nodes)| + 1 && nodes[..|old(nodes)|] == old(nodes)
      ensures nodes[|old(nodes)|].entry == e
      ensures cells == old(cells) + {n} && fresh(n)
    {
      var node := new MetaNode(e);
      n, cells := node, cells + {node};
      if head == null {
        node.next, node.prev := node, node;
        head := node;
        nodes := [node];
        return;
      }
      var tail := head.prev;
      tail.next := node;
      node.prev := tail;
      node.next := head;
      head.prev := node;
      nodes := nodes + [node];
    }

    /** Unlinks `n`; `q` is the circle read from `n`. */
    method RemoveNode(n: MetaNode, ghost q: seq<MetaNode>)
      requires Linked(q, cells) && q != [] && q[0] == n
      modifies this`head, cells`next, cells`prev
      ensures Linked(q[1..], cells)
      ensures head == if |q| == 1 then null else if old(head) == n then q[1] else old(head)
    {
      if n.next == n {
        assert q[0].next == n;
        head := null;
      } else {
        n.prev.next := n.next;
        n.next.prev := n.prev;
        if head == n {
          head := n.next;
        }
      }
    }

    /**
     The hook the loop calls with an entry it is about to eject. The call is recorded, and `seen` is the
     pointer it dereferences, if any; the value read is dropped and no user code runs.
     */
    method CallEjectCb(ent: Entry) returns (seen: Ptr)
      modifies this`log
      ensures log == old(log) + [Evict(ent.id)]
      ensures seen == if hooked then ent.vptr else Nil
    {
      log := log + [Evict(ent.id)];
      if !hooked {
        return Nil;
      }
      if ent.vptr.Nil? {
        return Nil;
      }
      seen := ent.vptr;
    }

    /** The hot and cold cases of the eviction loop's switch. */
    method Age(ent: Entry)
      requires Legal(ent.state) && !Decode(ent.state).kind.Test?
      modifies this`size, this`log, ent`state
      ensures Legal(ent.state) && Decode(ent.state) == Next(old(Decode(ent.state)))
      ensures log == old(log) + [VisitEvent(ent.id, old(Decode(ent.state)))]
      ensures size == old(size) - (if Evicts(old(Decode(ent.state))) then ent.weight else 0)
    {
      var st := ent.state;
      if st & KIND_MASK == STATE_HOT {
        if st & REF_BIT != 0 {
          ClearRefBit(st);
          ent.state := ent.state & !REF_BIT;
        } else {
          ent.state := STATE_COLD;
        }
        log := log + [Pass(ent.id)];
      } else {
        if st & REF_BIT != 0 {
          ent.state := STATE_HOT;
          ent.state := ent.state & !REF_BIT;
          log := log + [Pass(ent.id)];
        } else {
          var _ := CallEjectCb(ent);
          ent.state := STATE_TEST;
          size := size - ent.weight;
        }
      }
    }

    /** The TEST case of the switch: the node goes, and the hand moves to the node behind it. */
    method DropNode(hand: MetaNode, ghost q: seq<MetaNode>) returns (nxt: MetaNode)
      requires Shape(q) && |q| > 1 && q[0] == hand
      requires Within(abs.ring, abs.tab) && !Resident(abs.tab[abs.ring[0]])
      modifies this`head, this`abs, this`log, cells`next, cells`prev
      ensures Shape(q[1..]) && nxt == q[1]
      ensures abs == Step(old(abs))
    {
      nxt := hand.next;
      RemoveNode(hand, q);
      log := log + [Drop(hand.entry.id)];
      abs := Step(abs);
    }

    /** One turn of the eviction loop: the hand stands on `q[0]`, and the circle read from the next hand is `q'`. */
    method Visit(hand: MetaNode, ghost q: seq<MetaNode>) returns (nxt: MetaNode, ghost q': seq<MetaNode>)
      requires Shape(q) && q != [] && q[0] == hand && WellFormed(abs)
      requires |q| == 1 ==> Resident(abs.tab[abs.ring[0]])
      modifies this`head, this`size, this`abs, this`log, cells`next, cells`prev, ents`state
      ensures Shape(q') && q' != [] && q'[0] == nxt
      ensures abs == Step(old(abs))
    {
      var ent := hand.entry;
      if ent.state & KIND_MASK == STATE_TEST {
        nxt := DropNode(hand, q);
        q' := q[1..];
        return;
      }
      Age(ent);
      nxt := hand.next;
      q' := q[1..] + q[..1];
      LinkedFrom(q, cells, 1);
      abs := Step(abs);
    }

    /** A turn taken because `size` is too large: the run still to come is shorter and ends the same way. */
    method Turn(hand: MetaNode, ghost q: seq<MetaNode>) returns (nxt: MetaNode, ghost q': seq<MetaNode>)
      requires Shape(q) && q != [] && q[0] == hand && Evictable(abs) && size > capacity
      modifies this`head, this`size, this`abs, this`log, cells`next, cells`prev, ents`state
      ensures Shape(q') && q' != [] && q'[0] == nxt
      ensures Evictable(abs) && Run(abs) == old(Run(abs)) && RankSum(abs) < old(RankSum(abs))
    {
      RunStep(abs);
      nxt, q' := Visit(hand, q);
    }

    /** The eviction loop: the hand starts at the head and the head ends up where the hand stops. */
    method EvictLoop()
      requires Shape(nodes) && HeadFirst() && nodes != [] && Evictable(abs)
      modifies this`head, this`size, this`abs, this`log, this`nodes, cells`next, cells`prev, ents`state
      ensures Shape(nodes) && HeadFirst() && abs == Run(old(abs))
    {
      var hand := head;
      ghost var q := nodes;
      while size > capacity
        invariant Shape(q) && q != [] && q[0] == hand
        invariant Evictable(abs) && Run(abs) == Run(old(abs))
        decreases RankSum(abs)
      {
        hand, q := Turn(hand, q);
      }
      head := hand;
      nodes := q;
    }

    /** Evicts unless `size` fits already or nothing is linked. */
    method EvictIfNeeded()
      requires Shape(nodes) && HeadFirst() && Evictable(abs)
      modifies this`head, this`size, this`abs, this`log, this`nodes, cells`next, cells`prev, ents`state
      ensures Shape(nodes) && HeadFirst() && abs == Run(old(abs))
    {
      if size > capacity {
        RunStep(abs);
      }
      if size <= capacity || head == null {
        return;
      }
      EvictLoop();
    }

    /** Counts `ent` under the next free number, cold and referenced. */
    method Count(ent: Entry)
      requires Shape(nodes) && ent !in ents
      modifies this`size, this`abs, this`log, this`known, this`ents, ent`state, ent`id
      ensures Shape(nodes) && known == old(known) + [ent] && ents == old(ents) + {ent} && ent.id == |old(known)|
      ensures abs == Ops.Register(old(abs), ent.weight, ent.genID).(ring := old(abs).ring)
    {
      size := size + ent.weight;
      ent.state := STATE_COLD | REF_BIT;
      EncodeDecode(State(Cold, true));
      ent.id := |known|;
      log := log + [Touch(ent.id)];
      known := known + [ent];
      ents := ents + {ent};
      abs := Ops.Register(abs, ent.weight, ent.genID).(ring := abs.ring);
      forall i | 0 <= i < |nodes|
        ensures nodes[i].entry in ents && nodes[i].entry.id == abs.ring[i]
      {
        assert old(nodes[i].entry in ents && nodes[i].entry.id == abs.ring[i]);
      }
    }

    /** Links the node of a counted entry in at the back. */
    method LinkBack(ent: Entry) returns (ghost n: MetaNode)
      requires Shape(nodes) && HeadFirst() && ent in ents
      modifies this`head, this`abs, this`nodes, this`cells, cells`next, cells`prev
      ensures Shape(nodes) && HeadFirst() && abs == old(abs).(ring := old(abs).ring + [ent.id])
      ensures cells == old(cells) + {n} && fresh(n)
    {
      n := Append(ent);
      abs := abs.(ring := abs.ring + [ent.id]);
    }

    /** Counts `ent` and links it in at the back. */
    method Register(ent: Entry) returns (ghost n: MetaNode)
      requires Valid() && ent !in ents
      modifies this`head, this`size, this`abs, this`log, this`nodes, this`known, this`cells, this`ents,
               cells`next, cells`prev, ent`state, ent`id
      ensures Shape(nodes) && HeadFirst()
      ensures known == old(known) + [ent] && ents == old(ents) + {ent} && ent.id == |old(known)|
      ensures abs == Ops.Register(old(abs), ent.weight, ent.genID)
      ensures cells == old(cells) + {n} && fresh(n)
    {
      Count(ent);
      n := LinkBack(ent);
    }

    /** Registers a freshly created entry, evicting at once if that exceeds the capacity. */
    method Insert(ent: Entry) returns (ghost n: MetaNode)
      requires Valid() && ent !in ents
      modifies this`head, this`size, this`abs, this`log, this`nodes, this`known, this`cells, this`ents,
               cells`next, cells`prev, ents`state, ent`state, ent`id
      ensures Valid() && known == old(known) + [ent] && ents == old(ents) + {ent} && ent.id == |old(known)|
      ensures abs == Ops.Insert(old(abs), ent.weight, ent.genID)
      ensures cells == old(cells) + {n} && fresh(n)
    {
      ghost var before := abs;
      Ops.RegisterEvictable(abs, ent.weight, ent.genID);
      n := Register(ent);
      assert Evictable(abs);
      EvictIfNeeded();
      assert abs == Ops.Insert(before, ent.weight, ent.genID);
    }

    /** Marks an entry as referenced: one bit is or-ed into its state byte. */
    method SetReferenced(ent: Entry)
      requires Valid() && ent in ents
      modifies this`abs, this`log, ent`state
      ensures Valid() && abs == Ops.SetReferenced(old(abs), ent.id)
      ensures ent.state == old(ent.state) | 0x80
    {
      OrRefBit(ent.state);
      ent.state := ent.state | REF_BIT;
      log := log + [Touch(ent.id)];
      abs := Ops.SetReferenced(abs, ent.id);
    }

    /**
     The shard's in-place update of a shared entry: `size` is not adjusted, and an entry's new weight
     counts from now on.
     */
    method Restamp(ent: Entry, vptr: Ptr, weight: nat, genID: nat)
      requires Valid() && ent in ents
      modifies this`abs, ent`vptr, ent`weight, ent`genID
      ensures Valid() && abs == Ops.Update(old(abs), ent.id, weight, genID) && ent.vptr == vptr
    {
      ghost var was := abs;
      ent.vptr, ent.weight, ent.genID := vptr, weight, genID;
      abs := Ops.Update(abs, ent.id, weight, genID);
      assert abs.ring == was.ring && Ops.Valid(abs);
    }

    /** Unlinks the node at position `i` of the circle. */
    method Unlink(n: MetaNode, ghost i: nat)
      requires Shape(nodes) && HeadFirst() && i < |nodes| && nodes[i] == n
      modifies this`head, this`nodes, this`abs, cells`next, cells`prev
      ensures Shape(nodes) && HeadFirst()
      ensures abs == old(abs).(ring := old(abs).ring[..i] + old(abs).ring[i + 1..])
    {
      Cut(n, i);
      nodes := nodes[..i] + nodes[i + 1..];
      abs := abs.(ring := abs.ring[..i] + abs.ring[i + 1..]);
    }

    /** The links without node `i`. */
    method Cut(n: MetaNode, ghost i: nat)
      requires Linked(nodes, cells) && HeadFirst() && i < |nodes| && nodes[i] == n
      modifies this`head, cells`next, cells`prev
      ensures var rest := nodes[..i] + nodes[i + 1..];
        Linked(rest, cells) && head == if rest == [] then null else rest[0]
    {
      ghost var q := nodes[i..] + nodes[..i];
      LinkedFrom(nodes, cells, i);
      RemoveNode(n, q);
      LinkedFrom(q[1..], cells, |nodes| - i - 1);
      assert q[1..][|q| - i - 1..] + q[1..][..|q| - i - 1] == nodes[..i] + nodes[i + 1..];
    }

    /** The search has found `n` at position `i`: stop counting its entry and unlink it. */
    method Detach(n: MetaNode, ghost i: nat)
      requires Valid() && i < |nodes| && nodes[i] == n
      modifies this`head, this`size, this`abs, this`nodes, cells`next, cells`prev
      ensures Valid() && abs == Ops.Remove(old(abs), n.entry.id)
    {
      Ops.RemoveValid(abs, i);
      size := size - n.entry.weight;
      abs := abs.(size := size);
      Unlink(n, i);
    }

    /** Searches the circle for `search` and unlinks its node; ghosts are found like residents. */
    method Remove(search: Entry)
      requires Valid()
      modifies this`head, this`size, this`abs, this`nodes, cells`next, cells`prev
      ensures Valid()
      ensures search in ents ==> abs == Ops.Remove(old(abs), search.id)
      ensures search !in ents ==> abs == old(abs) && nodes == old(nodes) && head == old(head)
    {
      if head == null {
        return;
      }
      var n := head;
      ghost var i := 0;
      while true
        invariant 0 <= i < |nodes| && n == nodes[i]
        invariant forall j | 0 <= j < i :: nodes[j].entry != search
        decreases |nodes| - i
      {
        if n.entry == search {
          Detach(n, i);
          return;
        }
        n := n.next;
        i := i + 1;
        if n == head {
          assert search in ents ==> search.id !in abs.ring;
          return;
        }
      }
    }

    /** The sweep's action on one entry. */
    method Downgrade(ent: Entry, genID: nat)
      requires Books() && ent in ents
      modifies this`size, this`abs, ent`state
      ensures Books()
      ensures abs == Ops.SweepOne(old(abs), ent.id, genID)
    {
      if ent.genID == genID {
        TestBit(ent.state);
        if ent.state & STATE_TEST == 0 {
          ent.state := STATE_TEST;
          size := size - ent.weight;
          EncodeDecode(State(Test, false));
        }
      }
      abs := Ops.SweepOne(abs, ent.id, genID);
    }

    /** One turn of the sweep, standing on node `i` of the circle. */
    method Sweep(n: MetaNode, genID: nat, ghost i: nat) returns (nxt: MetaNode)
      requires Shape(nodes) && i < |nodes| && n == nodes[i]
      requires Within(abs.ring, abs.tab)
      modifies this`size, this`abs, ents`state
      ensures Shape(nodes) && (i + 1 < |nodes| ==> nxt == nodes[i + 1])
      ensures nxt == nodes[0] <==> i + 1 == |nodes|
      ensures abs.ring == old(abs).ring && Within(abs.ring, abs.tab)
      ensures Ops.SweepFrom(abs, i + 1, genID) == old(Ops.SweepFrom(abs, i, genID))
    {
      Downgrade(n.entry, genID);
      nxt := n.next;
    }

    /** Once around the circle: after each node the walk stops if it is back at the head. */
    method SweepAll(genID: nat)
      requires Shape(nodes) && HeadFirst() && nodes != [] && Within(abs.ring, abs.tab)
      modifies this`size, this`abs, ents`state
      ensures Shape(nodes) && abs == Ops.SweepFrom(old(abs), 0, genID)
    {
      ghost var q, swept := nodes, Ops.SweepFrom(abs, 0, genID);
      var n := Sweep(head, genID, 0);
      ghost var i := 1;
      while n != head
        invariant 0 < i <= |q| == |abs.ring|
        invariant n == head <==> i == |q|
        invariant i < |q| ==> n == q[i]
        invariant Shape(nodes)
        invariant Within(abs.ring, abs.tab)
        invariant Ops.SweepFrom(abs, i, genID) == swept
        decreases |q| - i
      {
        n := Sweep(n, genID, i);
        i := i + 1;
      }
    }

    /** Turns the residents of a freed generation into ghosts. */
    method GenerationEvicted(genID: nat)
      requires Valid()
      modifies this`size, this`abs, ents`state
      ensures Valid() && abs == Ops.GenerationEvicted(old(abs), genID)
    {
      Ops.GenerationEvictedValid(abs, genID);
      if head == null {
        return;
      }
      SweepAll(genID);
    }
  }
}
