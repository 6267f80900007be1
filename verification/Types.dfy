/** What the cache keeps in memory: client keys and values, arenas, pointers into them, and entries. */
module Types {
  import opened StateByte
  import opened RingSums

  /** Client types: keys are comparable, values are opaque to the cache. */
  type Key(==)
  type Value

  /** A region of values released all at once; `serial` numbers a shard's arenas in order of creation. */
  class Arena {
    ghost const serial: nat
    var cells: seq<Value>
    var freed: bool

    constructor (ghost n: nat)
      ensures serial == n && cells == [] && !freed
    {
      serial, cells, freed := n, [], false;
    }

    method NewValue(v: Value) returns (p: Ptr)
      modifies this`cells
      ensures cells == old(cells) + [v]
      ensures p == Ptr(this, |old(cells)|)
    {
      p := Ptr(this, |cells|);
      cells := cells + [v];
    }

    /** Afterwards no pointer handed out before resolves. */
    method Free()
      modifies this`cells, this`freed
      ensures freed && cells == []
    {
      cells, freed := [], true;
    }
  }

  datatype Ptr = Nil | Ptr(arena: Arena, off: nat)

  /** Metadata of one cached item, shared by the shard's index and the clock. */
  class Entry {
    const h: nat
    const key: Key
    var vptr: Ptr
    var weight: nat
    var genID: nat
    var state: bv8
    ghost var id: nat

    constructor (h: nat, key: Key, vptr: Ptr, weight: nat, genID: nat, state: bv8)
      ensures this.h == h && this.key == key && this.vptr == vptr
      ensures this.weight == weight && this.genID == genID && this.state == state
    {
      this.h, this.key, this.vptr := h, key, vptr;
      this.weight, this.genID, this.state := weight, genID, state;
    }

    /** The fields the clock looks at. */
    ghost function Meta(): Meta
      reads this
    {
      RingSums.Meta(Decode(state), weight, genID)
    }
  }
}
