# OPD token allocation engine, modelled in Dafny

This project models the allocation engine of an outpatient-department (OPD) token
system. Patients hold tokens for a doctor. Each doctor has a chain of time slots, and
each slot has a `capacity` and a `used` counter. A token is CONFIRMED in a slot, WAITING
with no slot, or CANCELLED.

The engine has three write operations:

- **Booking (`allocateToken`)** seats a token in the first slot, in start-time order,
  that still has room. When every slot is full, the token joins the waiting list.
- **Emergency insertion (`insertEmergency` / `rippleInsert`)** seats an EMERGENCY token
  in the doctor's first slot. If that slot overflows, a lowest-priority confirmed token
  of the slot is evicted and carried to the next strictly later slot, and so on down
  the chain.
- **Cancellation (`cancelToken`)** frees the token's slot and promotes the doctor's
  highest-priority waiting token into it.

Priorities come from a fixed table per token type plus an aging bonus.

## Modules

- `Schema` (schema.dfy) holds the closed enums of the two tables, a nullable `Option`,
  and the outcome of an `UPDATE ... RETURNING *`: a row, no row, or a CHECK violation.
- `Sorting` (sorting.dfy) holds what `ORDER BY` promises, a sorted permutation, and an
  insertion sort that produces one.
- `Priority` (priority.dfy) models utils/priority.js.
- `SlotModel` (slots.dfy) models models/Slot.js as a class `SlotTable`. Its field
  `rows: seq<Slot>` is the table, and the SERIAL id of a row is its index plus one.
  Each method is one SQL statement.
- `TokenModel` (tokens.dfy) models models/Token.js as a class `TokenTable` in the same
  way, together with `Count`, the `COUNT(*) FILTER (WHERE ...)` of the statistics query.
- `Allocation` (allocation.dfy) models services/allocationService.js.
  - The operations are methods over a `SlotTable` and a `TokenTable`.
  - `rippleInsert`'s recursion is the recursive method `RippleOn`, and one seat step is
    the method `SeatStep`.
  - Its termination measure is the number of the doctor's slots that start later than
    the current one.
  - The ghost predicate `Cascade` states what the calls of `rippleInsert` do, call by
    call: which token is seated where, which lowest-priority token is evicted from each
    full slot, and which slot it is carried to. `RippleOn`, `RippleInsert` and
    `InsertEmergency` each end in a `Cascade` from their first slot.

## Invariants and design decisions

- **The store invariant `Consistent(slots, tokens)`** has three parts:
  - every slot's `used` equals the number of CONFIRMED tokens pointing at it;
  - no slot is over capacity;
  - every CONFIRMED token points at a slot of its own doctor, and every WAITING token
    points at none.

  The empty store satisfies it (`EmptyConsistent`). Creating a slot keeps it
  (`CreateKeepsConsistent`), and so does booking (`AllocationKeepsConsistent`). Emergency
  insertion and cancellation require it and keep it. So it holds in every state that
  these writers reach from the empty store. Inside an evicting ripple step, between the
  increment and the eviction, the store is only `Intact`: the counts agree and every
  token is placed, but the slot is one over its capacity (`SeatOverflows`). The eviction
  restores it.
- **Ties.** `ORDER BY` without a tie-break returns any of the tied rows. So the query
  methods promise only what SQL promises: any lowest-priority victim, any
  highest-priority waiting token, and any of several slots with an equal start time.
  Everything proved about the engine therefore holds for every such choice.
- **The no-victim error is unreachable.** When a slot is found over capacity, the token
  just seated is one of its confirmed tokens, so `findLowestPriorityInSlot` always
  returns a row. `SeatStep` asserts this at the point where the source throws.
- **The comparator's doc comment is the wrong way round.** `comparePriority` returns
  `token2.priority - token1.priority`, which is negative when the first token has the
  higher priority. The doc comment says it is positive in that case. The model follows
  the code: `ComparePriority` and `ComparatorOrderIsDescending` state what the code
  does, which is to sort in descending priority.
- **`insertEmergency` returns the row as it was created**, WAITING with no slot, not
  the token's state after the ripple. `InsertEmergency` returns the same.

## Model

| member | source | states |
|---|---|---|
| `Priority.GetBasePriority` | utils/priority.js:38-40 | the score is 0 exactly when the type is not in the table, and otherwise lies within the table's range 0..100 |
| `Priority.CalculatePriority` | utils/priority.js:21-33 | with no elapsed time the score is the type's base score; with non-negative elapsed time it is at least the base; an unknown type scores only the waiting bonus |
| `Priority.CalculatePriorityMonotone` | utils/priority.js:25-32 | the score never decreases as the clock advances, and five minutes of waiting add exactly one point |
| `Priority.BaseTableOrder` | utils/priority.js:5-11 | EMERGENCY > PRIORITY > FOLLOWUP > ONLINE > WALKIN > any type missing from the table |
| `Priority.EnumTypesScored` | utils/priority.js:5-11 | every type of the closed enum has a positive base score |
| `Priority.ComparePriority` | utils/priority.js:46-48 | zero exactly when the priorities are equal, and negative exactly when the first token has the higher priority |
| `Priority.ComparePriorityAntisymmetric` | utils/priority.js:46-48 | swapping the arguments negates the comparison |
| `Priority.ComparatorOrderIsDescending` | utils/priority.js:43-48 | a sequence ordered by the comparator is in non-increasing priority |
| `Sorting.SortBy` | models/Slot.js:38 | `ORDER BY` yields a permutation of the selected rows in non-decreasing key order |
| `Sorting.InsertBySorted` | models/Slot.js:38 | inserting into a sorted sequence keeps it sorted |
| `Sorting.InsertByPermutes` | models/Slot.js:38 | inserting adds exactly the new element to the multiset of rows |
| `SlotModel.SlotsAfter` | models/Slot.js:50-51 | exactly the doctor's rows that start strictly after the given time |
| `SlotModel.DoctorSlots` | models/Slot.js:36-37 | exactly the doctor's rows |
| `SlotModel.SetUsed` | models/Slot.js:65-67 | only the named row's `used` changes; every other row is unchanged |
| `SlotModel.SlotsAfterShrinks` | services/allocationService.js:161-168 | moving the cut-off past one of the doctor's slots leaves strictly fewer slots after it, which is the ripple's termination measure |
| `SlotModel.SlotsAfterMonotone` | models/Slot.js:48-58 | a later cut-off never leaves more of the doctor's slots after it |
| `SlotModel.Describe` | models/Slot.js:110-113 | `available + used = capacity`, and `has_space` holds exactly when `available` is positive |
| `SlotModel.SlotTable.Create` | models/Slot.js:7-16 | a row is appended with the next id, the given doctor, times and capacity, and `used` = 0 (the column default) |
| `SlotModel.SlotTable.FindById` | models/Slot.js:21-29 | a row is found exactly when some row has that id, and it is that row |
| `SlotModel.SlotTable.FindByDoctorId` | models/Slot.js:34-43 | exactly the doctor's rows (as a multiset), in non-decreasing start time |
| `SlotModel.SlotTable.FindNextSlot` | models/Slot.js:48-58 | a slot of the doctor starting strictly after the given time, with no such slot starting earlier; none exactly when the doctor has no such slot, so slots with an equal start time are skipped |
| `SlotModel.SlotTable.UpdateUsage` | models/Slot.js:63-73 | sets `used` of that row exactly; no row for an unknown id; a value outside 0..capacity+5 is rejected by the CHECK with no change |
| `SlotModel.SlotTable.IncrementUsage` | models/Slot.js:78-88 | raises that row's `used` by one and changes nothing else; no row for an unknown id; rejected with no change beyond capacity+5 |
| `SlotModel.SlotTable.DecrementUsage` | models/Slot.js:93-103 | lowers that row's `used` by one only when it is positive, and otherwise matches no row and changes nothing |
| `SlotModel.SlotTable.FindAllWithAvailability` | models/Slot.js:108-121 | exactly the doctor's rows, by start time, each with `available = capacity - used` and `has_space` exactly when `used < capacity` |
| `TokenModel.Patched` | models/Token.js:92-104 | each supplied field among slot, status and priority is replaced, and every other column is kept |
| `Allocation.SeatedIsPatched` | services/allocationService.js:131-135 | the row that seats a token is the one `update` writes with a slot and status CONFIRMED |
| `Allocation.EvictedIsPatched` | services/allocationService.js:153-156 | the row that evicts a token is the one `update` writes with no slot and status WAITING |
| `TokenModel.StatusPartition` | models/Token.js:160-163 | confirmed + waiting + cancelled = the doctor's total, because the status enum is closed |
| `TokenModel.TypePartition` | models/Token.js:165-169 | the five per-type counts add up to the doctor's total, because the type enum is closed |
| `TokenModel.CountUpdate` | models/Token.js:160-163 | rewriting one row moves it out of the counts it matched and into the counts it now matches |
| `TokenModel.TokenTable.Create` | models/Token.js:7-26 | a row is appended with the next id and the given fields; a falsy slot id is stored as NULL and an omitted status as CONFIRMED |
| `TokenModel.TokenTable.FindById` | models/Token.js:31-39 | a row is found exactly when some row has that id, and it is that row |
| `TokenModel.TokenTable.FindBySlotId` | models/Token.js:44-53 | exactly the rows with that slot and status (CONFIRMED by default), in non-increasing priority |
| `TokenModel.TokenTable.FindLowestPriorityInSlot` | models/Token.js:58-68 | a CONFIRMED token of the slot with minimal priority; none exactly when the slot has no CONFIRMED token |
| `TokenModel.TokenTable.FindWaitingByDoctorId` | models/Token.js:73-82 | exactly the doctor's WAITING tokens, in non-increasing priority |
| `TokenModel.TokenTable.Update` | models/Token.js:87-117 | only the named row changes, and only in the supplied fields; no row for an unknown id |
| `TokenModel.TokenTable.Cancel` | models/Token.js:122-132 | only the named row changes, to CANCELLED, and its slot is kept |
| `TokenModel.TokenTable.GetStatsByDoctorId` | models/Token.js:158-176 | the three status counts, and also the five type counts, each add up to the total |
| `Allocation.JoinUsage` | services/allocationService.js:132-138 | a token that becomes CONFIRMED in a slot, together with that slot's increment, keeps every slot's `used` equal to its confirmed count |
| `Allocation.LeaveUsage` | services/allocationService.js:153-159 | a token that stops being CONFIRMED in a slot, together with that slot's decrement, keeps the counts equal, and the slot's `used` was positive |
| `Allocation.BookKeepsConsistent` | services/allocationService.js:29-46 | a booking into a slot with room keeps the store consistent |
| `Allocation.WaitlistKeepsConsistent` | services/allocationService.js:49-57 | a new waiting token keeps the store consistent |
| `Allocation.EmptyConsistent` | scripts/setup.js:36-65 | the freshly created, empty tables satisfy the store invariant |
| `Allocation.CreateKeepsConsistent` | models/Slot.js:7-16 | appending a slot with `used` 0 keeps a consistent store consistent, because no token points at a slot that does not exist yet |
| `Allocation.AllocationKeepsConsistent` | services/allocationService.js:10-68 | whichever way a booking goes (first fit, or waitlisted with every slot full), a consistent store stays consistent |
| `Allocation.FirstFitFound` | services/allocationService.js:29-42 | the slot chosen after skipping full ones is the first slot of the doctor, in start-time order, with room, and only its `used` goes up, by one |
| `Allocation.ChainFull` | services/allocationService.js:49-57 | when the loop finds no room, every slot of the doctor is full and no slot changed |
| `Allocation.SeatFirstFit` | services/allocationService.js:29-47 | books a CONFIRMED token first-fit, or writes nothing and reports every slot of the chain full |
| `Allocation.AllocateToken` | services/allocationService.js:10-68 | no slots: an error with no write; otherwise one new row with the given patient, doctor, type and the type's base priority, CONFIRMED first-fit with only that slot's `used` up by one, or WAITING with no slot when every slot is full and no slot changes |
| `Allocation.SeatAbsorbs` | services/allocationService.js:131-144 | seating the carried token in a slot with room leaves the store consistent with that slot's `used` one higher |
| `Allocation.SeatEvicts` | services/allocationService.js:144-159 | seating in a full slot, then evicting a confirmed token of it, leaves the store consistent with every slot's `used` as before |
| `Allocation.SeatOverflows` | services/allocationService.js:131-146 | after a carried token is seated in a full slot and the slot's `used` is raised, the counts agree and every token is placed, and the slot is exactly one over its capacity |
| `Allocation.AbsorbFootprint` | services/allocationService.js:131-144 | an absorbing step turns one of the doctor's WAITING tokens CONFIRMED and touches only the doctor's rows |
| `Allocation.EvictFootprint` | services/allocationService.js:144-159 | an evicting step leaves the doctor's confirmed and waiting counts as they were, and the victim is one of the doctor's tokens, now WAITING |
| `Allocation.SeatStep` | services/allocationService.js:131-159 | a slot with room seats the carried token and raises `used` by one; a full slot ends with a minimal-priority confirmed token of it (possibly the carried one) evicted to WAITING with no slot, and `used` restored; the store stays consistent and the no-victim error cannot occur |
| `Allocation.RequeueIsNoop` | services/allocationService.js:122-129 | at the end of the chain, re-marking the carried token WAITING with no slot changes nothing |
| `Allocation.ChainShrinks` | services/allocationService.js:161-168 | the next slot leaves strictly fewer of the doctor's slots after it than the current one |
| `Allocation.EvictKeepsCarrying` | services/allocationService.js:144-168 | after an eviction the victim is carried on, with the ripple's invariant intact |
| `Allocation.AbsorbEndsCarrying` | services/allocationService.js:131-144 | an absorbing step ends the ripple with the `Rippled` outcome for an absorbed cascade: consistent, one slot of the doctor that had room holds one more token and no other slot changed, tokens changed only in slot and status, and the doctor has one more confirmed and one fewer waiting token |
| `Allocation.ExhaustEndsCarrying` | services/allocationService.js:122-129 | a chain that runs out while a token is carried ends with no slot changed, tokens changed only in slot and status, and the doctor's counts as at the start |
| `Allocation.EvictPlacement` | services/allocationService.js:131-156 | a seat followed by an eviction writes only the slot and status columns of token rows |
| `Allocation.HeadEarliest` | models/Slot.js:35-38 | the first row of the doctor's slots in start-time order is a slot of the doctor that no slot of the doctor starts before |
| `Allocation.NextShrinks` | services/allocationService.js:161-168 | the slot `findNextSlot` returns leaves strictly fewer of the doctor's slots after it, which bounds the cascade |
| `Allocation.CascadeStep` | services/allocationService.js:144-168 | a full slot that evicts a lowest-priority token of it and hands it to the next slot, followed by the cascade from there, is a cascade from the full slot |
| `Allocation.CascadeDisplaces` | services/allocationService.js:131-168 | with a full first slot holding a priority-20 WALKIN token and two free later slots, the EMERGENCY token takes the first slot and the walk-in moves to the second |
| `Allocation.CascadeNeverSkips` | services/allocationService.js:131-168 | in that store, no cascade leaves the first slot alone and seats the emergency token in the third slot |
| `Allocation.WalkedAbsorb` | services/allocationService.js:131-168 | the slot the walk reaches, when it has room, absorbs the cascade and is the first slot with room from where the walk began |
| `Allocation.EarliestAbsorbedFirst` | services/allocationService.js:81-103 | from an earliest slot of the doctor, the first slot with room from there on is the doctor's first slot with room |
| `Allocation.WalkStep` | services/allocationService.js:161-168 | when the slot the walk has reached is full, every start time up to it has a full slot and the walk moves on to the next slot `findNextSlot` returns, with no slot skipped |
| `Allocation.RippleHop` | services/allocationService.js:131-168 | one call of rippleInsert: a slot with room absorbs the carried token, its `used` rising by one and only that token changing, and the ripple ends absorbed; a full slot evicts a lowest-priority confirmed token of it (after the seat) to WAITING, keeps the ripple's invariant with that victim to carry, changes no slot, and hands on to what `findNextSlot` returns after the slot |
| `Allocation.StartCarrying` | services/allocationService.js:102-103 | a ripple begins with the store consistent, nothing changed, and a WAITING token of the doctor carried |
| `Allocation.StartRipple` | services/allocationService.js:120-168 | a ripple from a slot of the doctor begins with nothing walked past, and at most as many calls remain as the doctor has slots |
| `Allocation.RippleOn` | services/allocationService.js:120-170 | rippleInsert from a given slot of the chain: the tables end as `Cascade` says, after at most one call per slot still ahead, in the `Rippled` outcome; a slot with room absorbs the token; an absorbing slot is the doctor's first slot with room from where the ripple began; when none absorbs, every start time of the doctor from there on has a full slot |
| `Allocation.RippleInsert` | services/allocationService.js:120-170 | the tables end as `Cascade` from `first` says: each full slot seats the carried token and evicts a lowest-priority confirmed token to the next later slot; at most as many calls as the doctor has slots; ends in `Rippled` (consistent, only slot and status of the doctor's live tokens change, one slot with room gains one token or no slot changes, with the counts to match); with no slot, nothing changes; a first slot with room takes the carried token and nothing else changes; an absorbing slot is the first with room from `first`'s start time on; when none absorbs, every start time from there on has a full slot |
| `Allocation.AppendedRipple` | services/allocationService.js:93-103 | a ripple of a newly appended WAITING token, seen from before the append: rows change only in slot and status, other doctors' and cancelled rows are untouched, and the doctor gains one confirmed token when the cascade is absorbed and one waiting token otherwise |
| `Allocation.AdmitEmergency` | services/allocationService.js:88-103 | creates the EMERGENCY token WAITING with its base priority and ripples it in from the given earliest slot, with every outcome that insertEmergency states |
| `Allocation.InsertEmergency` | services/allocationService.js:74-114 | no slots: an error with no write; otherwise it returns the row as created (EMERGENCY, WAITING, no slot, base priority 100), keeps the store consistent, and ends as `Cascade` from an earliest slot of the doctor says: when that slot is full, the new token is CONFIRMED in it and a lowest-priority token of it is evicted and carried on; when it has room, the new token is CONFIRMED in it and nothing else changes; an absorbing slot is the doctor's first slot with room, and the confirmed count rises by one; otherwise no slot changes, the waiting count rises by one, and every start time of the doctor has a full slot; rows change only in slot and status |
| `Allocation.SeatOf` | services/allocationService.js:192 | in a consistent store a CONFIRMED token always has a slot, and that slot's `used` counts it |
| `Allocation.CancelWaiting` | services/allocationService.js:210-211 | cancelling a WAITING token changes no slot and keeps the store consistent |
| `Allocation.CancelFreeing` | services/allocationService.js:192-211 | cancelling a CONFIRMED token with no one to promote, with its slot's `used` down by one, keeps the store consistent |
| `Allocation.CancelPromoting` | services/allocationService.js:192-211 | cancelling a CONFIRMED token and promoting a waiting token of the same doctor into its slot keeps the store consistent with no slot changed |
| `Allocation.FreedCounts` | services/allocationService.js:192-211 | without a promotion, the doctor has one confirmed token fewer, the same number waiting, and one cancelled token more |
| `Allocation.HandedCounts` | services/allocationService.js:192-211 | with a promotion, the doctor has the same number confirmed, one waiting token fewer, and one cancelled token more |
| `Allocation.FirstWaiting` | services/allocationService.js:196-199 | the first row of the waiting query is a WAITING token of the doctor that no waiting token of the doctor outranks |
| `Allocation.NoWaiting` | services/allocationService.js:196-198 | an empty waiting query means the doctor has no WAITING token |
| `Allocation.Promote` | services/allocationService.js:201-206 | the promoted token becomes CONFIRMED in the slot and the slot's `used` rises by one |
| `Allocation.ReleaseSeat` | services/allocationService.js:192-207 | `used` goes down by one; if the doctor has a waiting token, a highest-priority one is seated in the slot and `used` is back where it was; a promotion happens exactly when a waiting token exists |
| `Allocation.CancelToken` | services/allocationService.js:175-222 | missing or already cancelled: an error with no write; a WAITING token is cancelled with no slot change; a CONFIRMED token frees its slot and, exactly when the doctor has a waiting token, a highest-priority one takes the seat (`used` net unchanged, otherwise one lower); the token ends CANCELLED with its slot kept, and the store stays consistent |
| `Allocation.GetAllocationSummary` | services/allocationService.js:227-235 | the doctor's slots with their availability, in start-time order, and the doctor's counts per status and per type, each family adding up to the total; nothing is written |

## Left out

- The HTTP layer (server.js, routes/) is not modelled. Two facts are kept from it:
  - booking accepts only PRIORITY, FOLLOWUP, ONLINE and WALKIN (`Bookable`, a precondition of `AllocateToken`);
  - emergency insertion takes no type.
- The `rebalance` call on cancellation in routes/tokenRoutes.js:94-96 is dead: `cancelToken` returns only a message. It is not modelled.
- Transactions and connection pooling (`BEGIN`/`COMMIT`/`ROLLBACK`, `client.release`) are not modelled. The model queries run on the pool rather than on the transaction's client, so each operation is modelled as its sequence of single-statement writes. The engine's own errors all fire before the first write.
- Concurrency between requests is not modelled; every operation runs alone.
- Clocks are not modelled. `Date.now()` and `new Date()` become one `clock` parameter, because the engine reads the creation time and the current time at once, so no time elapses at creation.
- `created_at` and `updated_at` timestamps are not modelled.
- Priorities are `real`; the `NUMERIC(10,2)` rounding of the stored column is not modelled.
- `start_time` is a `VARCHAR(10)` compared as a string. The model uses a totally ordered natural-number key, so string collation is not modelled.
- `capacity` is a natural number; a negative capacity, which the schema allows, is not modelled.
- Foreign keys are not modelled. Doctors are plain ids, and models/Doctor.js is not part of this model.
- Table lookups by JavaScript object key are modelled as a map from the five type names. Inherited keys such as `"constructor"` are not modelled.
- simulation/simulateDay.js and scripts/setup.js are not part of this model, apart from the enums, the `used` default and the CHECK on `used`.
- `Allocation.InsertEmergency`: requires a consistent store (`Consistent`). From an inconsistent one, the source can throw the no-victim error or exceed the CHECK, and that is not modelled.
- `Allocation.CancelToken`: requires a consistent store (`Consistent`). From an inconsistent one, the guarded decrement may match no row, and that is not modelled.
- `Allocation.RippleInsert`: requires a consistent store and a waiting token of the slot's doctor, which is what `insertEmergency` passes it; whether the cascade was absorbed and the number of seat steps are ghost outputs, since the source returns nothing.
- `Allocation.InsertEmergency`: does not say which of several slots sharing the earliest start time the ripple starts from, because `ORDER BY start_time` leaves their order to the database; the slot it starts from is a ghost output.
- `Allocation.AllocateToken`: states consistency preservation in the separate lemma `AllocationKeepsConsistent` rather than in its own contract.
