/** The whole cache: keys routed to shards, its capacity over all of them, and what clients can observe. */
module CacheSpec {
  import opened Types
  import opened ClockSpec
  import opened ShardSpec
  import Ref = Reference

  datatype Cache = Cache(shards: seq<Shard>)

  // ---------------------------------------------------------------- construction

  datatype Created = Ok(cache: Cache) | BadCapacity | BadTtl | BadShards | Panic

  /** The shard count test of the constructor, on its 8-bit argument. */
  predicate CountAccepted(shards: bv8) {
    !(shards == 0 || shards & (shards - 1) != 0)
  }

  function Fresh(n: nat, each: nat, hashes: nat -> (Key -> nat)): (shards: seq<Shard>)
    requires each > 0
    ensures |shards| == n
    ensures forall i | 0 <= i < n :: shards[i] == Empty(each, hashes(i)) && ShardSpec.Shaped(shards[i])
  {
    if n == 0 then [] else Fresh(n - 1, each, hashes) + [Empty(each, hashes(n - 1))]
  }

  function New(capBytes: int, ttl: int, shards: bv8, hashes: nat -> (Key -> nat)): (r: Created)
    ensures r.Ok? ==> Shaped(r.cache)
  {
    if capBytes <= 0 then BadCapacity
    else if ttl <= 0 then BadTtl
    else if !CountAccepted(shards) then BadShards
    else if capBytes / (shards as int) == 0 then Panic
    else Ok(Cache(Fresh(shards as int, capBytes / (shards as int), hashes)))
  }

  /** The constructor: the checks in order, then one shard after another. */
  method NewCache(capBytes: int, ttl: int, shards: bv8, hashes: nat -> (Key -> nat)) returns (r: Created)
    ensures r == New(capBytes, ttl, shards, hashes)
  {
    if capBytes <= 0 {
      return BadCapacity;
    }
    if ttl <= 0 {
      return BadTtl;
    }
    if shards == 0 || shards & (shards - 1) != 0 {
      return BadShards;
    }
    var n := shards as int;
    var each := capBytes / n;
    if each == 0 {
      return Panic;
    }
    QuotientPositive(capBytes, n);
    var made: seq<Shard> := [];
    for i := 0 to n
      invariant made == Fresh(i, each, hashes)
    {
      made := made + [Empty(each, hashes(i))];
    }
    r := Ok(Cache(made));
  }

  lemma CountAcceptedIff(shards: bv8)
    ensures CountAccepted(shards) <==> shards in {1, 2, 4, 8, 16, 32, 64, 128}
  {
  }

  /** Creation succeeds exactly for a power-of-two shard count, a positive ttl and at least one byte per shard. */
  lemma NewSucceedsIff(capBytes: int, ttl: int, shards: bv8, hashes: nat -> (Key -> nat))
    ensures New(capBytes, ttl, shards, hashes).Ok? <==>
      ttl > 0 && shards in {1, 2, 4, 8, 16, 32, 64, 128} && capBytes >= shards as int
    ensures New(capBytes, ttl, shards, hashes).Ok? ==>
      var c := New(capBytes, ttl, shards, hashes).cache;
      && |c.shards| == shards as int > 0
      && (forall i | 0 <= i < |c.shards| :: c.shards[i] == Empty(capBytes / |c.shards|, hashes(i)))
      && |c.shards| * (capBytes / |c.shards|) <= capBytes
  {
    CountAcceptedIff(shards);
    if shards != 0 {
      QuotientPositive(capBytes, shards as int);
    }
  }

  /** The checks come in this order: capacity, ttl, shard count, and last the panic over an empty share. */
  lemma NewAnswers(capBytes: int, ttl: int, shards: bv8, hashes: nat -> (Key -> nat))
    ensures var r := New(capBytes, ttl, shards, hashes);
      && (r.BadCapacity? <==> capBytes <= 0)
      && (r.BadTtl? <==> capBytes > 0 && ttl <= 0)
      && (r.BadShards? <==> capBytes > 0 && ttl > 0 && shards !in {1, 2, 4, 8, 16, 32, 64, 128})
      && (r.Panic? <==> ttl > 0 && shards in {1, 2, 4, 8, 16, 32, 64, 128} && 0 < capBytes < shards as int)
  {
    CountAcceptedIff(shards);
    if shards != 0 {
      QuotientPositive(capBytes, shards as int);
    }
  }

  lemma QuotientPositive(a: int, b: int)
    requires b > 0
    ensures a > 0 ==> (a / b == 0 <==> a < b)
    ensures b * (a / b) <= a
  {
    if 0 < a < b {
      assert a / b == 0;
    }
  }

  // ---------------------------------------------------------------- operations

  ghost predicate Shaped(c: Cache) {
    |c.shards| > 0 && forall i | 0 <= i < |c.shards| :: ShardSpec.Shaped(c.shards[i])
  }

  /** The shard of a key; the first shard's hash decides for all. */
  function Route(c: Cache, k: Key): (i: nat)
    requires |c.shards| > 0
    ensures i < |c.shards|
  {
    c.shards[0].hash(k) % |c.shards|
  }

  ghost function Put(c: Cache, k: Key, v: Value, w: int): Cache
    requires Shaped(c)
  {
    var i := Route(c, k);
    Cache(c.shards[i := ShardSpec.Put(c.shards[i], k, v, w)])
  }

  function Looked(c: Cache, k: Key): Cache
    requires |c.shards| > 0
  {
    var i := Route(c, k);
    Cache(c.shards[i := Touched(c.shards[i], k)])
  }

  /** A miss is answered by the loader and leaves the cache as it was; nothing is stored. */
  function GetOrLoad(c: Cache, k: Key, loader: Key -> Answer): Answer
    requires |c.shards| > 0
  {
    var answer := Get(c.shards[Route(c, k)], k);
    if answer.Miss? then loader(k) else answer
  }

  datatype CacheOp = OpPut(k: Key, v: Value, w: int) | OpLoad(k: Key)

  function OnShard(op: CacheOp): Op {
    match op
    case OpPut(k, v, w) => ShardSpec.OpPut(k, v, w)
    case OpLoad(k) => ShardSpec.OpGet(k)
  }

  ghost function Apply(c: Cache, op: CacheOp): Cache
    requires Shaped(c)
  {
    match op
    case OpPut(k, v, w) => Put(c, k, v, w)
    case OpLoad(k) => Looked(c, k)
  }

  /** An operation moves the shard of its key and no other, and never the routing. */
  lemma ApplyRouted(c: Cache, op: CacheOp)
    requires Shaped(c)
    ensures var d, i := Apply(c, op), Route(c, op.k);
      && Shaped(d) && |d.shards| == |c.shards|
      && d.shards[i] == ShardSpec.Apply(c.shards[i], OnShard(op))
      && (forall j | 0 <= j < |c.shards| && j != i :: d.shards[j] == c.shards[j])
      && forall k :: Route(d, k) == Route(c, k)
  {
    ApplyShaped(c.shards[Route(c, op.k)], OnShard(op));
  }

  lemma Remainder(x: nat, q: nat, n: nat, i: nat)
    requires x == q * n + i && i < n
    ensures x % n == i
  {
    var d := x / n - q;
    assert x == n * (x / n) + x % n;
    assert n * d == i - x % n;
    SmallMultiple(n, d);
  }

  lemma SmallMultiple(n: int, d: int)
    requires -n < n * d < n
    ensures d == 0
  {
  }

  /**
   Which shard that is: the hash of the key under the first shard's seed, written as a multiple of the
   number of shards and a rest, names it by the rest.
   */
  lemma RoutedByRest(c: Cache, k: Key, v: Value, w: int, loader: Key -> Answer, q: nat, i: nat)
    requires Shaped(c) && c.shards[0].hash(k) == q * |c.shards| + i && i < |c.shards|
    ensures Apply(c, CacheOp.OpPut(k, v, w)) == Cache(c.shards[i := ShardSpec.Put(c.shards[i], k, v, w)])
    ensures Apply(c, CacheOp.OpLoad(k)) == Cache(c.shards[i := Touched(c.shards[i], k)])
    ensures GetOrLoad(c, k, loader) == if Holds(c.shards[i], k) then Get(c.shards[i], k) else loader(k)
  {
    Remainder(c.shards[0].hash(k), q, |c.shards|, i);
  }

  ghost function Run(c: Cache, ops: seq<CacheOp>): (d: Cache)
    requires Shaped(c)
    ensures Shaped(d) && |d.shards| == |c.shards|
    decreases |ops|
  {
    if ops == [] then c
    else
      ApplyRouted(c, ops[0]);
      Run(Apply(c, ops[0]), ops[1..])
  }

  /** The operations whose keys `c` routes to shard `i`, in order. */
  function Routed(c: Cache, ops: seq<CacheOp>, i: nat): seq<Op>
    requires |c.shards| > 0
    decreases |ops|
  {
    if ops == [] then []
    else if Route(c, ops[0].k) == i then [OnShard(ops[0])] + Routed(c, ops[1..], i)
    else Routed(c, ops[1..], i)
  }

  lemma {:induction false} RoutedSame(c: Cache, d: Cache, ops: seq<CacheOp>, i: nat)
    requires |c.shards| > 0 && |d.shards| > 0 && forall k :: Route(d, k) == Route(c, k)
    ensures Routed(d, ops, i) == Routed(c, ops, i)
    decreases |ops|
  {
    if ops != [] {
      RoutedSame(c, d, ops[1..], i);
    }
  }

  /** Shards never interfere: each one has seen exactly the operations routed to it. */
  lemma {:induction false} ShardsIndependent(c: Cache, ops: seq<CacheOp>, i: nat)
    requires Shaped(c) && i < |c.shards|
    ensures Run(c, ops).shards[i] == RunShard(c.shards[i], Routed(c, ops, i))
    decreases |ops|
  {
    if ops != [] {
      var d := Apply(c, ops[0]);
      ApplyRouted(c, ops[0]);
      ShardsIndependent(d, ops[1..], i);
      RoutedSame(c, d, ops[1..], i);
      if Route(c, ops[0].k) == i {
        assert ([OnShard(ops[0])] + Routed(c, ops[1..], i))[1..] == Routed(c, ops[1..], i);
      }
    }
  }

  lemma {:induction false} RouteKept(c: Cache, ops: seq<CacheOp>)
    requires Shaped(c)
    ensures forall k :: Route(Run(c, ops), k) == Route(c, k)
    decreases |ops|
  {
    if ops != [] {
      ApplyRouted(c, ops[0]);
      RouteKept(Apply(c, ops[0]), ops[1..]);
    }
  }

  /**
   What a client reads after any run: the answer of the reference that saw only the operations routed
   to the key's shard, the loader's answer on a miss.
   */
  lemma ClientView(capBytes: int, ttl: int, shards: bv8, hashes: nat -> (Key -> nat),
                   ops: seq<CacheOp>, k: Key, loader: Key -> Answer)
    requires New(capBytes, ttl, shards, hashes).Ok?
    ensures
      var c := New(capBytes, ttl, shards, hashes).cache;
      var i := Route(c, k);
      var seen := Ref.RefGet(Ref.RefRun(Ref.Start(capBytes / |c.shards|, hashes(i)), Routed(c, ops, i)), k);
      GetOrLoad(Run(c, ops), k, loader) == if seen.Miss? then loader(k) else seen
  {
    NewShaped(capBytes, ttl, shards, hashes);
    var c := New(capBytes, ttl, shards, hashes).cache;
    var i := Route(c, k);
    ShardsIndependent(c, ops, i);
    RouteKept(c, ops);
    Ref.ShardRefinesReference(capBytes / |c.shards|, hashes(i), Routed(c, ops, i), k);
  }

  function CachePuts(keys: seq<Key>, v: Value, w: int): seq<CacheOp> {
    if keys == [] then [] else [CacheOp.OpPut(keys[0], v, w)] + CachePuts(keys[1..], v, w)
  }

  lemma {:induction false} RoutedPuts(c: Cache, keys: seq<Key>, v: Value, w: int, i: nat)
    requires |c.shards| > 0 && forall j | 0 <= j < |keys| :: Route(c, keys[j]) == i
    ensures Routed(c, CachePuts(keys, v, w), i) == Ref.Puts(keys, v, w)
    decreases |keys|
  {
    if keys != [] {
      assert CachePuts(keys, v, w)[1..] == CachePuts(keys[1..], v, w);
      RoutedPuts(c, keys[1..], v, w, i);
    }
  }

  lemma ShardReadsFreedValue(c: Cache, each: nat, hash: Key -> nat, k: Key, v: Value, keys: seq<Key>,
                             u: Value, w: int, loader: Key -> Answer)
    requires Shaped(c) && each > 0 && c.shards[Route(c, k)] == Empty(each, hash) && w > each
    requires |keys| >= 4 && Ref.Apart([k] + keys, hash)
    requires forall j | 0 <= j < |keys| :: Route(c, keys[j]) == Route(c, k)
    ensures GetOrLoad(Run(c, [CacheOp.OpPut(k, v, 0)] + CachePuts(keys, u, w)), k, loader) == Dangling
  {
    var i, ops := Route(c, k), [CacheOp.OpPut(k, v, 0)] + CachePuts(keys, u, w);
    assert ops[1..] == CachePuts(keys, u, w);
    RoutedPuts(c, keys, u, w, i);
    assert Routed(c, ops, i) == [ShardSpec.OpPut(k, v, 0)] + Ref.Puts(keys, u, w);
    ShardsIndependent(c, ops, i);
    RouteKept(c, ops);
    Ref.FreedValueIsRead(each, hash, k, v, keys, u, w);
  }

  /**
   The public operations get there as well: four heavy puts into the shard of a key, and `GetOrLoad`
   reads the key's value from a freed arena instead of asking the loader.
   */
  lemma ClientReadsFreedValue(capBytes: int, ttl: int, shards: bv8, hashes: nat -> (Key -> nat),
                              k: Key, v: Value, keys: seq<Key>, u: Value, w: int, loader: Key -> Answer)
    requires New(capBytes, ttl, shards, hashes).Ok? && |keys| >= 4 && w > capBytes
    requires var c := New(capBytes, ttl, shards, hashes).cache;
      && Ref.Apart([k] + keys, hashes(Route(c, k)))
      && forall j | 0 <= j < |keys| :: Route(c, keys[j]) == Route(c, k)
    ensures var c := New(capBytes, ttl, shards, hashes).cache;
      GetOrLoad(Run(c, [CacheOp.OpPut(k, v, 0)] + CachePuts(keys, u, w)), k, loader) == Dangling
  {
    var c := New(capBytes, ttl, shards, hashes).cache;
    NewShaped(capBytes, ttl, shards, hashes);
    var each := capBytes / |c.shards|;
    assert each <= capBytes;
    ShardReadsFreedValue(c, each, hashes(Route(c, k)), k, v, keys, u, w, loader);
  }

  lemma NewShaped(capBytes: int, ttl: int, shards: bv8, hashes: nat -> (Key -> nat))
    requires New(capBytes, ttl, shards, hashes).Ok?
    ensures var c := New(capBytes, ttl, shards, hashes).cache;
      Shaped(c) && forall i | 0 <= i < |c.shards| ::
        capBytes / |c.shards| > 0 && c.shards[i] == Empty(capBytes / |c.shards|, hashes(i))
  {
    NewSucceedsIff(capBytes, ttl, shards, hashes);
    QuotientPositive(capBytes, shards as int);
    var c := New(capBytes, ttl, shards, hashes).cache;
    forall i | 0 <= i < |c.shards|
      ensures ShardSpec.Shaped(c.shards[i])
    {
    }
  }

  // ---------------------------------------------------------------- keys stay in their shards

  ghost predicate AtHome(c: Cache)
    requires Shaped(c)
  {
    forall i, h | 0 <= i < |c.shards| && h in c.shards[i].index ::
      Route(c, c.shards[i].body[c.shards[i].index[h]].key) == i
  }

  lemma ApplyKeys(s: Shard, op: Op, h: nat)
    requires ShardSpec.Shaped(s)
    ensures ShardSpec.Shaped(ShardSpec.Apply(s, op))
    ensures var t := ShardSpec.Apply(s, op);
      h in t.index ==>
        || (op.OpPut? && t.body[t.index[h]].key == op.k)
        || (h in s.index && t.body[t.index[h]].key == s.body[s.index[h]].key)
  {
    ApplyShaped(s, op);
  }

  lemma {:induction false} RunAtHome(c: Cache, ops: seq<CacheOp>)
    requires Shaped(c) && AtHome(c)
    ensures AtHome(Run(c, ops))
    decreases |ops|
  {
    if ops != [] {
      var d, i := Apply(c, ops[0]), Route(c, ops[0].k);
      ApplyRouted(c, ops[0]);
      forall j, h | 0 <= j < |d.shards| && h in d.shards[j].index
        ensures Route(d, d.shards[j].body[d.shards[j].index[h]].key) == j
      {
        if j == i {
          ApplyKeys(c.shards[i], OnShard(ops[0]), h);
        }
      }
      RunAtHome(d, ops[1..]);
    }
  }

  lemma NewAtHome(capBytes: int, ttl: int, shards: bv8, hashes: nat -> (Key -> nat))
    requires New(capBytes, ttl, shards, hashes).Ok?
    ensures AtHome(New(capBytes, ttl, shards, hashes).cache)
  {
    NewShaped(capBytes, ttl, shards, hashes);
  }

  /** After any run of a new cache a key is indexed only in the shard its hash names. */
  lemma KeysStayHome(capBytes: int, ttl: int, shards: bv8, hashes: nat -> (Key -> nat), ops: seq<CacheOp>,
                     i: nat, h: nat)
    requires New(capBytes, ttl, shards, hashes).Ok?
    ensures var d := Run(New(capBytes, ttl, shards, hashes).cache, ops);
      i < |d.shards| && h in d.shards[i].index ==>
        hashes(0)(d.shards[i].body[d.shards[i].index[h]].key) % (shards as int) == i
  {
    var c := New(capBytes, ttl, shards, hashes).cache;
    var d := Run(c, ops);
    NewShaped(capBytes, ttl, shards, hashes);
    NewAtHome(capBytes, ttl, shards, hashes);
    RunAtHome(c, ops);
    RouteKept(c, ops);
    if i < |d.shards| && h in d.shards[i].index {
      var k := d.shards[i].body[d.shards[i].index[h]].key;
      assert Route(d, k) == i && Route(d, k) == Route(c, k);
      assert c.shards[0].hash == hashes(0) && |c.shards| == shards as int;
    }
  }
}
