# arena-cache: a Dafny model of one shard and of the cache around it

arena-cache keeps values in arenas that are freed in bulk. A shard ties three structures together:

- the **clock** (`ClockRing.dfy`): a circular doubly linked list with a moving hand, a state byte per
  entry and a running byte count. `ClockSpec.dfy` is the same machine on values: the ring is a queue
  read from the hand, one visit pops the front and drops it or pushes it back with its next state;
- the **generation ring** (`GenRing.dfy`): a four-slot circular buffer of generations, each with an
  arena, a byte count and a 32-bit id. `Generations.dfy` numbers the generations in order of creation;
- the **index** from hash to entry, in `ShardMemory.dfy`, with its value form in `ShardSpec.dfy`.

The classes `ClockRing.Clock`, `GenRing.Ring` and `ShardMemory.ShardObject` carry the fields of the Go
structs and change them in place; every method's postcondition equates the new abstract value with a
function of the old one. The other files state laws about those functions that do not mention how
they compute:

| file | question answered |
|---|---|
| `EvictionOrder.dfy`, `EvictionFates.dfy` | who is evicted, in which order, where the hand stops, what survivors look like |
| `NewestEntry.dfy` | when an insertion keeps the entry it inserts |
| `ClockOps.dfy` | how each operation moves `size` against the weight of the residents |
| `VisitLaw.dfy` | on which visit of the hand an entry goes |
| `ShardClock.dfy` | every run of a shard is a run of its clock |
| `ShardEffects.dfy` | what each operation of a shard does to single entries |
| `Counters.dfy` | what the hit, miss and eviction counters count |
| `ArenaSafety.dfy` | which pointers never lead into a freed arena |
| `Reference.dfy` | what a client can observe of a shard |
| `Budget.dfy` | how often arenas rotate, how long a value lives, how much is live |
| `Agreement.dfy` | how the clock's bytes and the generations' bytes compare |
| `Capacity.dfy` | when one operation lets the residents of a shard outweigh its capacity |
| `CapacityRuns.dfy` | the same after any run, and for how many further puts |
| `CacheSpec.dfy` | construction, routing and what clients of the whole cache read |
| `CacheCapacity.dfy` | the residents of all shards against the capacity of the cache |

`ShardRuns.dfy` closes the circle: a client of a shard object created in memory gets, over any run of
operations, the answers of the reference.

## Modelling decisions

- **Entry identity.** The clock's parameter `any` is reinterpreted as an entry with the layout of the
  shard's own (`internal/clockpro/clockpro.go:63-68`). The model has one class `Types.Entry` that both
  sides share, numbered in order of registration.
- **State byte.** Entries hold a `bv8` and the methods use the bit operations of the source; the
  value form is a kind and a reference flag. `Registered` keeps every byte among the six legal ones.
- **Weights.** `put` takes any integer. The entry keeps it modulo 2^32, the generation is charged the
  full, possibly negative, amount. Laws that need non-negative or 32-bit weights say so.
- **Ids.** Generation ids wrap at 2^32 as in the source; `Generations.IdsDiffer` shows why that is harmless.
- **Hash.** A shard's seeded hash is an arbitrary function, so all collisions are allowed. An entry
  displaced by a collision stays on the clock ring.
- **Arenas.** `Free` replaces the wrapped arena by an empty one; the model empties the cells, so a
  stale pointer no longer resolves and reading it is the answer `Dangling`.
- **Rotation.** Runs of a shard may contain `rotate` anywhere, although only `put` calls it; runs of
  the cache contain puts and lookups only, because its public operations never delete.
- **Atomic steps.** Each shard method is one step; locks and atomics do not appear.

## Where the code and its documentation differ

- `internal/arena/arena.go:24-29` argues that freed data is never read because its entries are ghosts
  or gone. That holds for entries without the TEST bit (`ArenaSafety.NoDanglingResident`), but `get`
  does not look at that bit: `Reference.FreedValueIsRead` reads freed memory after five puts,
  `CacheSpec.ClientReadsFreedValue` does so through the public operations, and `Reference.ReadBackIff`
  says exactly when it happens. The ejection hook's own read is safe (`ArenaSafety.HookNeverDangles`).
- `internal/clockpro/clockpro.go:85` calls `size` the weight of hot and cold entries. In-place updates
  and removed ghosts break that (`Capacity.UpdateOutgrowsCapacity`, `Capacity.DeletionOutgrowsCapacity`);
  `ClockOps.ExactAccounting` and `ShardClock.ShardDrift` give the exact difference. Insertion
  nevertheless always ends, because `size` within the capacity is enough for it
  (`ClockOps.EvictableWithin`), and that is kept by every operation.
- Keeping `size` within the capacity does not keep the residents within it. An update that raises a
  weight breaks the promise at once (`Capacity.UpdateOutgrowsCapacity`) or at a later insertion
  (`Capacity.InsertionOutgrowsCapacity`). The deletion of a ghost breaks it without any update
  (`Capacity.DeletionOutgrowsCapacity`); nothing in the repository calls `delete` yet, so the public
  operations do not reach that input. `Capacity.PutWithinCapacityIff` is the exact condition for one put
  of a given weight from any state. For puts of any weight after any run there are two:
  `CapacityRuns.RunThenInsertsIff` says that all further insertions into the clock, however many, keep
  the residents within the capacity exactly if the raises so far add up to no more than zero, and
  `CapacityRuns.RunThenPutsIff` adds, for puts of a given number of absent keys, the one alternative:
  that many of the heaviest weights still fit. For a single put this is `CapacityRuns.RunThenAnyPutIff`;
  `Capacity.SecondInsertionOutgrowsCapacity` shows that room for one does not protect the put after it.
  `CacheCapacity.CapacityHolds` is the promise for runs in which no update raises a resident's weight.
- `GetOrLoad` does not store what the loader returns, and eviction never invokes the user's callback;
  the model follows the code.

## Model

| member | source | states |
|---|---|---|
| StateByte.Bytes | internal/clockpro/clockpro.go:40-45 | the six legal bytes, written out, and the kind and flag each one stands for |
| StateByte.EncodeDecode | internal/clockpro/clockpro.go:40-45 | every kind and reference flag has a legal byte that reads back as itself |
| StateByte.OrRefBit | internal/clockpro/clockpro.go:47-51 | or-ing the reference bit into a legal byte sets the flag and nothing else |
| StateByte.ClearRefBit | internal/clockpro/clockpro.go:209-222 | clearing the bit resets the flag and nothing else |
| StateByte.TestBit | internal/clockpro/clockpro.go:182 | on the bytes that occur the sweep's one-bit test agrees with the loop's two-bit mask |
| ClockSpec.StepAccounts | internal/clockpro/clockpro.go:206-236 | one iteration lowers the sum of state ranks by exactly one and keeps the part of `size` no resident accounts for |
| ClockSpec.OverBudgetHasResident | internal/clockpro/clockpro.go:198-206 | while the loop must go on, a resident of positive weight is linked, so the ring is not emptied |
| ClockSpec.Run | internal/clockpro/clockpro.go:198-238 | whenever the unaccounted part of `size` fits the capacity the loop ends with `size` within it |
| EvictionOrder.ClosedForm | internal/clockpro/clockpro.go:198-238 | the hand stops at the first position of at most three passes where `size` fits; ring, states, size and log there are given without running the loop |
| EvictionOrder.IterationBound | internal/clockpro/clockpro.go:206-237 | the loop makes at most three visits per node |
| EvictionOrder.EvictedAt | internal/clockpro/clockpro.go:223-227 | what the sweep has ejected at any position is a prefix of cold, then hot, then referenced entries, each class in ring order |
| EvictionOrder.VictimsFollowSchedule | internal/clockpro/clockpro.go:198-252 | the victims are a prefix of that schedule and `size` drops by exactly their weight |
| EvictionFates.VictimsMinimal | internal/clockpro/clockpro.go:206 | after any proper prefix of the victims `size` was still over the capacity |
| EvictionFates.RunFates | internal/clockpro/clockpro.go:207-234 | exactly the victims stop being resident, other residents stay linked, weights and generations never change |
| EvictionFates.GhostBytes | internal/clockpro/clockpro.go:223-227 | an entry ejected by the loop is left with the byte 0x02, earlier ghosts keep theirs |
| EvictionFates.EvictionTheorem | internal/clockpro/clockpro.go:198-252 | the loop ejects exactly the shortest prefix of the schedule that makes `size` fit, no entry twice |
| NewestEntry.RegisteredIsLast | internal/clockpro/clockpro.go:109-121 | a new entry is last in the order of ejection |
| NewestEntry.NewestSurvives | internal/clockpro/clockpro.go:142-148 | the new entry is resident exactly if its weight fits beside the unaccounted bytes; else no resident is left and `size` is those bytes |
| ClockOps.EvictableWithin | internal/clockpro/clockpro.go:198-206 | `size` within the capacity before an insertion is enough for its loop to end |
| ClockOps.RegisterAccounts | internal/clockpro/clockpro.go:142-146 | registration keeps the accounts |
| ClockOps.RegisteredEntry | internal/clockpro/clockpro.go:142-146 | a new entry has the byte 0x80 and the weight and generation it came with |
| ClockOps.SetReferencedAccounts | internal/clockpro/clockpro.go:49-51 | a reference keeps the accounts |
| ClockOps.ReferencedEntry | internal/clockpro/clockpro.go:49-51 | a reference or-s 0x80 into the byte of the entry, resident or ghost, and changes nothing else |
| ClockOps.RemoveAt | internal/clockpro/clockpro.go:123-133 | removal closes the gap in the ring; removing the head makes its successor the head |
| ClockOps.WithoutMembers | internal/clockpro/clockpro.go:152-169 | exactly the searched entry leaves the ring |
| ClockOps.RemoveAccounts | internal/clockpro/clockpro.go:152-169 | removing a resident keeps the accounts, removing a ghost takes its weight off once too often |
| ClockOps.GenerationEvictedClosedForm | internal/clockpro/clockpro.go:174-192 | exactly the residents of the generation become unreferenced ghosts, `size` drops by their weight, order and other states stay |
| ClockOps.SweptBytes | internal/clockpro/clockpro.go:180-186 | the sweep writes 0x02 over the bytes of the generation's residents and leaves every other byte |
| ClockOps.GenerationEvictedAccounts | internal/clockpro/clockpro.go:174-192 | the sweep keeps the accounts and never raises `size` |
| ClockOps.GenerationEvictedTwice | internal/clockpro/clockpro.go:174-192 | the sweep is idempotent |
| ClockOps.UpdateAccounts | pkg/cache.go:180-191 | an in-place update shifts the accounts by the change of a resident's weight |
| ClockOps.UpdatedEntry | pkg/cache.go:180-191 | an update keeps the state byte, `size` and the order, and stores weight and generation, for ghosts too |
| ClockOps.InsertEntries | internal/clockpro/clockpro.go:142-148 | an insertion changes no weight or generation, revives no ghost and unlinks ghosts only |
| ClockOps.ApplyAccounts | internal/clockpro/clockpro.go:142-192 | every operation keeps `size` within the capacity, whatever happened before, and moves the accounts by its drift only |
| ClockOps.DriftLaw | internal/clockpro/clockpro.go:142-192 | over any run `size` plus the drift is the resident weight |
| ClockOps.ExactAccounting | internal/clockpro/clockpro.go:85 | `size` is the resident weight precisely when the drifts cancel, and the residents fit then |
| VisitLaw.StepLaw | internal/clockpro/clockpro.go:206-236 | a visit keeps the state byte equal to the number of visits since the last reference |
| VisitLaw.ThirdVisitLaw | internal/clockpro/clockpro.go:49-51 | in every run each ejection is the third visit since the last reference and every passing visit the first or second |
| ClockRing.Clock.constructor | internal/clockpro/clockpro.go:97-103 | an empty clock |
| ClockRing.Clock.Append | internal/clockpro/clockpro.go:109-121 | the circle gains one node before the head, links stay mutually inverse |
| ClockRing.Clock.RemoveNode | internal/clockpro/clockpro.go:123-133 | the circle without the node is again a circle; the head moves on if it was the node |
| ClockRing.Clock.Age | internal/clockpro/clockpro.go:207-227 | the bit operations of the hot and cold cases are the transition of the value form |
| ClockRing.Clock.DropNode | internal/clockpro/clockpro.go:228-233 | a ghost's node goes and the hand rests on its linked successor |
| ClockRing.Clock.Visit | internal/clockpro/clockpro.go:206-236 | one turn of the pointer loop is one step of the queue machine, and the hand rests on a linked node |
| ClockRing.Clock.EvictLoop | internal/clockpro/clockpro.go:205-237 | the pointer loop ends, equals the machine's run, and the head is the front of the final queue |
| ClockRing.Clock.EvictIfNeeded | internal/clockpro/clockpro.go:198-204 | the same behind the two guards |
| ClockRing.Clock.CallEjectCb | internal/clockpro/clockpro.go:240-252 | each call is recorded for its entry; a pointer is dereferenced only with a hook and a value |
| ClockRing.Clock.Insert | internal/clockpro/clockpro.go:142-148 | the whole new state of an insertion |
| ClockRing.Clock.SetReferenced | internal/clockpro/clockpro.go:49-51 | only the entry's flag changes |
| ClockRing.Clock.Remove | internal/clockpro/clockpro.go:152-169 | the search ends on any circle and removes the entry if it is linked, else nothing; an entry never registered changes nothing |
| ClockRing.Clock.GenerationEvicted | internal/clockpro/clockpro.go:174-192 | the walk around the circle is the sweep of the value form |
| Generations.SlotLaw | internal/genring/genring.go:133-148 | after r rotations the active slot is r mod 4, each slot holds the newest generation of its residue, generation n was freed once, by rotation n + 4 |
| Generations.IdsInOrder | internal/genring/genring.go:107-144 | the ids issued are 1, 2, 3, ... up to 2^32 - 1, then 0, then the same again |
| Generations.NewBudget | internal/genring/genring.go:98-104 | the budget is a quarter of the capacity rounded down, or all of it below four bytes |
| GenRing.Ring.MemoryIsSlots | internal/genring/genring.go:73-148 | in every valid state the slots, active index, id counter and log of freed generations in memory are those the slot law describes |
| GenRing.Ring.IssuedIds | internal/genring/genring.go:142-148 | in memory generation n has the id n + 1 until the 32-bit numbers run out, and generation n + 2^32 repeats it |
| Generations.BehindActive | internal/genring/genring.go:90-113 | read backwards from the active slot the ring holds generations r, r-1, r-2, r-3 as far as they exist |
| Generations.SlotBytesAreLive | internal/genring/genring.go:152-160 | summing the slots counts every live generation exactly once |
| Generations.IdsDiffer | internal/genring/genring.go:142-148 | among the live generations and the one just freed no two ids are equal, despite wrap-around |
| GenRing.Generation.constructor | internal/genring/genring.go:39-49 | a fresh arena and no bytes |
| GenRing.Generation.Free | internal/genring/genring.go:66-71 | the arena is released and forgotten |
| GenRing.Ring.constructor | internal/genring/genring.go:90-113 | one generation, and a budget of a quarter of the capacity or all of it when tiny |
| GenRing.Ring.Active | internal/genring/genring.go:116-118 | the active slot holds the newest generation, with its arena |
| GenRing.Ring.CheckRotationNeeded | internal/genring/genring.go:122-126 | the newest generation is charged and the answer says whether it is over budget |
| GenRing.Ring.Rotate | internal/genring/genring.go:133-148 | the fourth newest generation, if any, is freed and returned, a fresh one takes its slot, all other arenas stay unfreed |
| GenRing.Ring.LiveBytes | internal/genring/genring.go:152-160 | the bytes of the last four generations |
| GenRing.Ring.Allocate | pkg/cache.go:199-201 | the value gets a new cell in the newest generation's arena |
| Types.Arena.NewValue | internal/arena/arena.go:59-61 | the pointer leads to a new cell holding the value, other cells stay |
| Types.Arena.Free | internal/arena/arena.go:53-57 | no earlier pointer resolves afterwards |
| ShardSpec.ApplyShaped | pkg/cache.go:138-252 | every shard operation keeps index, clock, entries and arenas consistent |
| ShardMemory.ShardObject.constructor | pkg/cache.go:99-109 | an empty shard of new objects only |
| ShardMemory.ShardObject.Put | pkg/cache.go:175-222 | the whole new state of an update or insertion, rotation included; what the shard takes in are new objects |
| ShardMemory.ShardObject.Overwrite | pkg/cache.go:180-191 | the update path changes value, weight and generation of the entry and neither its state nor `size` |
| ShardMemory.ShardObject.Add | pkg/cache.go:195-216 | a new entry in arena, index and clock |
| ShardMemory.ShardObject.Charge | pkg/cache.go:218-221 | the generation is charged and rotated out when over budget |
| ShardMemory.ShardObject.Get | pkg/cache.go:138-168 | the answer of the value form; on a hit and only then the entry is marked referenced; hits or misses go on by one |
| ShardMemory.ShardObject.Delete | pkg/cache.go:226-237 | slot and node go, and the evictions go on by one, exactly when the slot holds the key |
| ShardMemory.ShardObject.Rotate | pkg/cache.go:243-252 | an arena is freed once four exist and the clock is swept for its id; the generation taken in is new |
| ShardRuns.Step | pkg/cache.go:138-252 | any operation on the shard in memory is that of the value form, reply and counters included |
| ShardRuns.Run | pkg/cache.go:138-252 | so is any run of operations |
| ShardRuns.Session | pkg/cache.go:99-266 | over any run the replies a client of a newly created shard object gets are those of the reference, and the counters it reads off are the numbers of replies that found their key, of those that did not, and of the deletions that removed one, modulo 2^64 |
| Counters.CountedAll | pkg/cache.go:262-266 | the counters go on by the numbers of hits, misses and evictions, modulo 2^64 |
| Counters.OutcomesSeen | pkg/cache.go:145-234 | the hits are the answers that found their key, the misses those that did not, the evictions the deletions that shrank the index |
| ShardEffects.GetMarks | pkg/cache.go:154-157 | a lookup that finds its key sets the reference bit of that entry, resident or ghost, and changes nothing else |
| ShardEffects.MissLeavesAll | pkg/cache.go:145-152 | a lookup or deletion of a key the slot does not hold changes nothing |
| ShardEffects.DeleteUnlinks | pkg/cache.go:226-237 | a deletion takes exactly that entry off index and ring and its weight off `size`; the order of the others stays |
| ShardEffects.UpdateRewrites | pkg/cache.go:180-191 | an update stores the new weight modulo 2^32, for a ghost too; state byte, order, `size` and budgets stay |
| ShardEffects.PutRegisters | pkg/cache.go:195-221 | after an inserting put, rotation included, the slot reaches a new entry of the given weight, a resident exactly if it fits beside the unaccounted bytes |
| ShardEffects.RotateSparesActive | pkg/cache.go:243-252 | a rotation leaves the order of the ring and the entries of the active generation alone |
| ArenaSafety.RotateSafe | pkg/cache.go:243-252 | freeing an arena leaves no resident of the ring pointing into it |
| ArenaSafety.DeleteSafe | pkg/cache.go:226-237 | unlinking a deleted entry strands no other slot of the index |
| ArenaSafety.NoDanglingResident | internal/arena/arena.go:24-29 | in every run an indexed entry without the TEST bit is on the ring, its id names a generation still in the buffer, and its pointer resolves |
| ArenaSafety.HookNeverDangles | internal/clockpro/clockpro.go:240-252 | in every run the pointer of an entry ejected by an insertion still resolves when the hook reads it |
| ArenaSafety.OnlyTheFreedGeneration | internal/clockpro/clockpro.go:180-186 | rotation makes ghosts of exactly the residents put four generations ago, although ids are reused, and of none before there are four |
| Reference.ShardRefinesReference | pkg/cache.go:138-237 | in every run `get` answers as a reference with one slot per hash: last put wins, delete only on key match, evictions never show |
| Reference.AnswersAgree | pkg/cache.go:138-168 | all answers of a run are the reference's, in order |
| Reference.PutThenGet | pkg/cache.go:170-222 | in the reference a put is read back exactly until the fourth rotation |
| Reference.ReadBackIff | internal/arena/arena.go:24-29 | a stored value is read back if and only if fewer than four rotations followed its put |
| Reference.LastPutCounts | pkg/cache.go:187-189 | after any run the entry of a slot has the weight of the last put modulo 2^32 and the id of the generation it went to, ghost or not |
| Reference.DeletedIsMissed | pkg/cache.go:145-152 | a key deleted, or displaced by another key of the same hash, is missed until its slot is put to again |
| Reference.FreedValueIsRead | pkg/cache.go:156-221 | four puts of other keys, each above a generation's budget, and `get` reads the first value from a freed arena; with fewer it is read back |
| Budget.RunCharges | internal/genring/genring.go:122-126 | in every run what is inserted is what the generation active at its start and the later ones recorded since |
| Budget.BornEmpty | internal/genring/genring.go:142-146 | when it is created a generation is the active one and has recorded nothing |
| Budget.LiveBytesRecorded | internal/genring/genring.go:152-160 | after any run live bytes are exactly the weight inserted since the oldest live generation was created |
| Budget.RunGrows | internal/genring/genring.go:122-126 | in runs of non-negative weights that rotate only by budget every generation closed outgrew its budget |
| Budget.RotationsAmortised | internal/genring/genring.go:122-148 | in runs of non-negative weights that rotate only by budget, rotations times (perGen + 1) is at most the inserted weight |
| Budget.LifetimeOfValue | pkg/cache.go:195-221 | in such runs an arena survives until at least 3 (perGen + 1) further weight is inserted after a put into it |
| Budget.LiveBytesBounded | internal/genring/genring.go:98-126 | with weights between 0 and a maximum the active generation is within budget after every operation and live bytes within four budgets and three maximal weights |
| Agreement.RunGenLoad | internal/clockpro/clockpro.go:198-238 | the eviction loop never adds weight to a generation |
| Agreement.ResidentsWithinLive | internal/genring/genring.go:152-160 | the residents weigh at most what the live generations recorded |
| Agreement.SizeWithinBoth | pkg/cache.go:199-221 | without in-place updates each live generation's residents weigh at most its bytes, and `size` is within both capacity and live bytes |
| ShardClock.RunClock | pkg/cache.go:175-252 | what a run of a shard does to its clock is a run of clock operations |
| ShardClock.ShardThirdVisit | internal/clockpro/clockpro.go:206-236 | the third-visit law holds in every run of a shard |
| ShardClock.ShardDrift | pkg/cache.go:180-237 | in every run of a shard `size` is within the capacity, insertions end, and the residents outweigh `size` by exactly the drift |
| CacheSpec.NewCache | pkg/cache.go:274-303 | the checks in order and one shard per index |
| CacheSpec.NewSucceedsIff | pkg/cache.go:276-300 | creation succeeds exactly for a power-of-two shard count, a positive ttl and at least a byte per shard |
| CacheSpec.NewAnswers | pkg/cache.go:276-284 | which error is returned, exactly: capacity before ttl before shard count, and the panic for less than a byte per shard |
| CacheSpec.ApplyRouted | pkg/cache.go:306-315 | an operation changes the shard of its key and no other |
| CacheSpec.RoutedByRest | pkg/cache.go:306-338 | that shard is the rest of dividing the hash of the key under the first shard's seed by the number of shards; puts, lookups and answers go there |
| CacheSpec.ShardsIndependent | pkg/cache.go:306-338 | after any run each shard is as if it had seen only the operations routed to it |
| CacheSpec.ClientView | pkg/cache.go:312-315 | `GetOrLoad` answers as the reference of the key's shard, or as the loader on a miss |
| CacheSpec.ClientReadsFreedValue | pkg/cache.go:306-315 | four heavy puts into a key's shard, and `GetOrLoad` reads its value from a freed arena |
| CacheSpec.KeysStayHome | pkg/cache.go:335-338 | after any run a key is only indexed in the shard its hash under the first seed names modulo the number of shards |
| Capacity.RunSpare | internal/clockpro/clockpro.go:223-227 | a run of the loop takes from the residents outside a generation exactly what it ejects of them |
| Capacity.AnyInsertFitsIff | internal/clockpro/clockpro.go:142-148 | insertions of every weight leave the residents within the capacity exactly if `size` covers the residents before |
| Capacity.ApplyRaises | pkg/cache.go:175-252 | only updates of residents and deletions of ghosts move the accounts, by the change of weight and by the ghost's weight |
| Capacity.PutWithinCapacityIff | pkg/cache.go:175-222 | from any state a put leaves the residents within the capacity exactly if the new weight fits in place of the old one, or every prefix of the ejection schedule that makes `size` fit makes the unswept residents fit |
| Capacity.UpdateOutgrowsCapacity | pkg/cache.go:187-189 | after an update from weight 0 to x the residents weigh x while `size` stays 0 |
| Capacity.InsertionOutgrowsCapacity | pkg/cache.go:187-216 | an insertion breaks the promise after an update that kept it, with `size` within the capacity |
| Capacity.DeletionOutgrowsCapacity | internal/clockpro/clockpro.go:156-163 | without updates, deleting a ghost lets the residents reach twice the capacity |
| Capacity.SecondInsertionOutgrowsCapacity | pkg/cache.go:187-216 | with room for the heaviest weight the next insertion keeps the promise and the one after it does not |
| CapacityRuns.RaisesAreDrifts | pkg/cache.go:175-252 | what a run raises is the drift of the clock operations it causes |
| CapacityRuns.RunWithinCapacity | internal/clockpro/clockpro.go:85 | after any run the residents weigh `size` and all raises together, and fit if those add up to no more than zero |
| CapacityRuns.InsertRunsFitIff | internal/clockpro/clockpro.go:142-148 | every run of further 32-bit insertions keeps the residents within the capacity exactly if `size` covers the residents before |
| CapacityRuns.PutAddsAtMost | pkg/cache.go:195-221 | an inserting put adds no more than its weight to the residents |
| CapacityRuns.PutsFitIff | pkg/cache.go:195-221 | puts of given absent keys, whatever their weights, keep the residents within the capacity exactly if `size` covers the residents before or that many heaviest weights fit beside them |
| CapacityRuns.AnyPutFitsIff | pkg/cache.go:195-221 | the same for one put, rotation included |
| CapacityRuns.RunThenInsertsIff | internal/clockpro/clockpro.go:142-148 | after any run of a shard all further insertions into its clock fit exactly if the raises add up to no more than zero |
| CapacityRuns.RunThenPutsIff | pkg/cache.go:195-221 | after any run puts of given absent keys fit exactly if so, or if that many heaviest weights fit beside the residents |
| CapacityRuns.RunThenAnyPutIff | pkg/cache.go:195-221 | the same for the next put alone |
| CacheCapacity.CapacityHolds | pkg/cache.go:274-309 | if no update in place raises a resident's weight, all residents together weigh at most the capacity |
| CacheCapacity.ResidentsExactly | pkg/cache.go:306-309 | in every run the residents of all shards weigh what their clocks count plus what updates raised |
| CacheCapacity.SteadyNeverRaises | pkg/cache.go:180-191 | keys of steady weight never raise one |
| CacheCapacity.SteadyCapacityHolds | pkg/cache.go:274-309 | the capacity promise for keys of steady weight |

## Left out

- CacheSpec.NewCache: the cache around the shards is modelled on values, because its own fields are never updated after construction; that two shards share no memory is therefore not stated. The second validation, after the options were applied, is left out: no option touches the fields it checks.
- 64-bit wrap-around of `size` and of a generation's byte count: both are unbounded integers here.
- Interleavings: locks, the unlocked tail of `get` and the update under a read lock are not modelled; every method is one step.
- Time: creation times, `ttl` and the rotation step are stored but never consulted, so rotation by age does not exist.
- `Len`, `SizeBytes` and `Close`, the option plumbing and metrics: they would add only easy members.
- `pkg/loader.go`: the single-flight wrapper is not called by the shard.
- The wrapper's slice and byte helpers in `internal/arena/arena.go` are not used by the shard.
