/** The allocation engine: booking, emergency ripple insertion and cancellation with
    promotion (services/allocationService.js), stated over the two tables. */
module Allocation {
  import opened Schema
  import opened Priority
  import opened SlotModel
  import opened TokenModel

  /** The engine's own errors; each is raised before any statement writes. */
  datatype Error = NoSlots | TokenNotFound | AlreadyCancelled

  datatype Result<T> = Ok(value: T) | Err(error: Error)

  /** What `getAllocationSummary` returns. */
  datatype Summary = Summary(slots: seq<Availability>, statistics: Stats)

  const CANCELLED_MESSAGE: string := "Token cancelled successfully"

  // ---------------------------------------------------------------------------------------
  // The engine invariant

  /** Where a token of each status points: a confirmed token at a slot of its own doctor,
      a waiting token at no slot; a cancelled token keeps its last slot as history. */
  ghost predicate Placed(t: Token, slots: seq<Slot>)
  {
    match t.status
    case Confirmed => t.slotId.Some? && 1 <= t.slotId.value <= |slots| && slots[t.slotId.value - 1].doctorId == t.doctorId
    case Waiting => t.slotId == None
    case Cancelled => true
  }

  ghost predicate PlacedAt(tokens: seq<Token>, slots: seq<Slot>, j: nat)
    requires j < |tokens|
  {
    Placed(tokens[j], slots)
  }

  ghost predicate AllPlaced(tokens: seq<Token>, slots: seq<Slot>)
  {
    forall j :: 0 <= j < |tokens| ==> PlacedAt(tokens, slots, j)
  }

  /** Every slot's `used` is the number of confirmed tokens pointing at it. */
  ghost predicate UsageAt(slots: seq<Slot>, tokens: seq<Token>, i: nat)
    requires i < |slots|
  {
    slots[i].used == Count(tokens, InSlot(i + 1, Confirmed))
  }

  ghost predicate UsageMatches(slots: seq<Slot>, tokens: seq<Token>)
  {
    forall i :: 0 <= i < |slots| ==> UsageAt(slots, tokens, i)
  }

  ghost predicate WithinCapacity(slots: seq<Slot>)
  {
    forall i :: 0 <= i < |slots| ==> slots[i].used <= slots[i].capacity
  }

  /** The counts agree and every token is placed. An evicting ripple step passes through
      such a state with its slot one over capacity, between the increment and the eviction
      (lemma `SeatOverflows`). */
  ghost predicate Intact(slots: seq<Slot>, tokens: seq<Token>)
  {
    SlotsWellFormed(slots) && TokensWellFormed(tokens) && UsageMatches(slots, tokens) && AllPlaced(tokens, slots)
  }

  /** The committed-state invariant: intact, and no slot over its capacity. */
  ghost predicate Consistent(slots: seq<Slot>, tokens: seq<Token>)
  {
    Intact(slots, tokens) && WithinCapacity(slots)
  }

  /** The token confirmed in slot `slotId` by the engine's update of slot and status. */
  function Seated(t: Token, slotId: nat): Token
  {
    t.(slotId := Some(slotId), status := Confirmed)
  }

  /** The token sent back to the waiting list, with no slot, by the engine's update. */
  function Evicted(t: Token): Token
  {
    t.(slotId := None, status := Waiting)
  }

  /** `Seated` and `Evicted` are the rows that `update` writes for those two field sets. */
  lemma SeatedIsPatched(t: Token, slotId: nat)
    ensures Seated(t, slotId) == Patched(t, Some(Some(slotId)), Some(Confirmed), None)
  {
  }

  lemma EvictedIsPatched(t: Token)
    ensures Evicted(t) == Patched(t, Some(None), Some(Waiting), None)
  {
  }

  /** The tokens table after row `k` (an id) is seated in slot `slotId`. */
  function SeatRow(rows: seq<Token>, k: nat, slotId: nat): seq<Token>
    requires 1 <= k <= |rows|
  {
    rows[k - 1 := Seated(rows[k - 1], slotId)]
  }

  /** The tokens table after row `k` (an id) is sent back to the waiting list. */
  function EvictRow(rows: seq<Token>, k: nat): seq<Token>
    requires 1 <= k <= |rows|
  {
    rows[k - 1 := Evicted(rows[k - 1])]
  }

  /** Nothing but `used` changes in any slot row, and only in the doctor's rows. */
  ghost predicate OnlyUsageChanged(before: seq<Slot>, after: seq<Slot>, doctorId: nat)
  {
    && |after| == |before|
    && (forall i :: 0 <= i < |before| ==> after[i] == before[i].(used := after[i].used))
    && (forall i :: 0 <= i < |before| && before[i].doctorId != doctorId ==> after[i] == before[i])
  }

  /** Rows of other doctors, and cancelled rows, are left as they were. */
  ghost predicate Untouched(before: seq<Token>, after: seq<Token>, doctorId: nat)
  {
    && |before| <= |after|
    && forall j :: 0 <= j < |before| && (before[j].doctorId != doctorId || before[j].status == Cancelled) ==>
         after[j] == before[j]
  }

  /** Rows keep every column but `slot_id` and `status`: the only columns the engine's
      token updates write. No row is added or removed. */
  ghost predicate OnlyPlacementChanged(before: seq<Token>, after: seq<Token>)
  {
    && |after| == |before|
    && forall j :: 0 <= j < |before| ==> after[j] == before[j].(slotId := after[j].slotId, status := after[j].status)
  }

  /** Rewriting one row in its slot and status only keeps the other columns of every row. */
  lemma PlacementStep(before: seq<Token>, rows: seq<Token>, k: nat, t: Token)
    requires OnlyPlacementChanged(before, rows) && k < |rows|
    requires t == rows[k].(slotId := t.slotId, status := t.status)
    ensures OnlyPlacementChanged(before, rows[k := t])
  {
    var after := rows[k := t];
    forall j | 0 <= j < |before|
      ensures after[j] == before[j].(slotId := after[j].slotId, status := after[j].status)
    {
      if j == k {
        assert rows[j] == before[j].(slotId := rows[j].slotId, status := rows[j].status);
      }
    }
  }

  /** The slot table after a ripple that a slot of doctor `d` absorbed: slot `sid`, which
      had room, holds one more token, and no other slot changed. */
  ghost predicate AbsorbedBy(before: seq<Slot>, after: seq<Slot>, d: nat, sid: nat)
  {
    && 1 <= sid <= |before| && before[sid - 1].doctorId == d && !Full(before[sid - 1])
    && after == SetUsed(before, sid, before[sid - 1].used + 1)
  }

  // ---------------------------------------------------------------------------------------
  // The invariant across single statements

  /** A row that becomes confirmed in slot `slotId` adds one to that slot's count. */
  lemma JoinUsage(slots: seq<Slot>, tokens: seq<Token>, slotId: nat, k: nat, t: Token)
    requires UsageMatches(slots, tokens)
    requires 1 <= slotId <= |slots| && k < |tokens|
    requires tokens[k].status != Confirmed && Matches(t, InSlot(slotId, Confirmed))
    ensures UsageMatches(SetUsed(slots, slotId, slots[slotId - 1].used + 1), tokens[k := t])
  {
    var slots', tokens' := SetUsed(slots, slotId, slots[slotId - 1].used + 1), tokens[k := t];
    forall i | 0 <= i < |slots'|
      ensures UsageAt(slots', tokens', i)
    {
      assert UsageAt(slots, tokens, i);
      CountUpdate(tokens, k, t, InSlot(i + 1, Confirmed));
    }
  }

  /** A confirmed row of slot `slotId` that stops being confirmed takes one off that slot's
      count, which was therefore positive. */
  lemma LeaveUsage(slots: seq<Slot>, tokens: seq<Token>, slotId: nat, k: nat, t: Token)
    requires UsageMatches(slots, tokens)
    requires 1 <= slotId <= |slots| && k < |tokens|
    requires Matches(tokens[k], InSlot(slotId, Confirmed)) && t.status != Confirmed
    ensures slots[slotId - 1].used > 0
    ensures UsageMatches(SetUsed(slots, slotId, slots[slotId - 1].used - 1), tokens[k := t])
  {
    assert UsageAt(slots, tokens, slotId - 1);
    CountUpdate(tokens, k, t, InSlot(slotId, Confirmed));
    var slots', tokens' := SetUsed(slots, slotId, slots[slotId - 1].used - 1), tokens[k := t];
    forall i | 0 <= i < |slots'|
      ensures UsageAt(slots', tokens', i)
    {
      assert UsageAt(slots, tokens, i);
      CountUpdate(tokens, k, t, InSlot(i + 1, Confirmed));
    }
  }

  /** Replacing a row by a placed one keeps every row placed. */
  lemma ReplacePlaced(tokens: seq<Token>, slots: seq<Slot>, k: nat, t: Token)
    requires AllPlaced(tokens, slots) && k < |tokens| && Placed(t, slots)
    ensures AllPlaced(tokens[k := t], slots)
  {
    var tokens' := tokens[k := t];
    forall j | 0 <= j < |tokens'|
      ensures PlacedAt(tokens', slots, j)
    {
      if j != k {
        assert PlacedAt(tokens, slots, j);
      }
    }
  }

  /** Changing a slot's `used` moves no token out of place. */
  lemma SetUsedPlaced(tokens: seq<Token>, slots: seq<Slot>, id: nat, used: nat)
    requires AllPlaced(tokens, slots) && 1 <= id <= |slots|
    ensures AllPlaced(tokens, SetUsed(slots, id, used))
  {
    forall j | 0 <= j < |tokens|
      ensures PlacedAt(tokens, SetUsed(slots, id, used), j)
    {
      assert PlacedAt(tokens, slots, j);
    }
  }

  /** Setting `used` back to the value it had undoes an earlier change of it. */
  lemma SetUsedRestore(slots: seq<Slot>, id: nat, used: nat)
    requires 1 <= id <= |slots|
    ensures SetUsed(SetUsed(slots, id, used), id, slots[id - 1].used) == slots
  {
    var r := SetUsed(SetUsed(slots, id, used), id, slots[id - 1].used);
    assert r[id - 1] == slots[id - 1];
    assert forall i :: 0 <= i < |slots| ==> r[i] == slots[i];
  }

  /** A row moved from one status of the doctor to another shifts the two counts by one. */
  lemma StatusShift(tokens: seq<Token>, k: nat, t: Token, d: nat)
    requires k < |tokens| && tokens[k].doctorId == d && t.doctorId == d
    ensures Count(tokens[k := t], WithStatus(d, Confirmed)) + (if tokens[k].status == Confirmed then 1 else 0)
            == Count(tokens, WithStatus(d, Confirmed)) + (if t.status == Confirmed then 1 else 0)
    ensures Count(tokens[k := t], WithStatus(d, Waiting)) + (if tokens[k].status == Waiting then 1 else 0)
            == Count(tokens, WithStatus(d, Waiting)) + (if t.status == Waiting then 1 else 0)
  {
    CountUpdate(tokens, k, t, WithStatus(d, Confirmed));
    CountUpdate(tokens, k, t, WithStatus(d, Waiting));
  }

  /** Seating a waiting token in a slot that had room: the store stays consistent with
      the slot's `used` one higher. */
  lemma SeatAbsorbs(slots: seq<Slot>, tokens: seq<Token>, slotId: nat, carried: nat)
    requires Consistent(slots, tokens)
    requires 1 <= slotId <= |slots| && 1 <= carried <= |tokens|
    requires tokens[carried - 1].status == Waiting && tokens[carried - 1].doctorId == slots[slotId - 1].doctorId
    requires slots[slotId - 1].used < slots[slotId - 1].capacity
    ensures Consistent(SetUsed(slots, slotId, slots[slotId - 1].used + 1), SeatRow(tokens, carried, slotId))
  {
    var t := Seated(tokens[carried - 1], slotId);
    JoinUsage(slots, tokens, slotId, carried - 1, t);
    ReplacePlaced(tokens, slots, carried - 1, t);
    SetUsedPlaced(tokens[carried - 1 := t], slots, slotId, slots[slotId - 1].used + 1);
  }

  /** Seating a waiting token in a full slot and then evicting a confirmed token of that
      slot (possibly the one just seated) leaves the store consistent with every slot as
      it was; the victim is one of the slot's doctor's tokens. */
  lemma SeatEvicts(slots: seq<Slot>, tokens: seq<Token>, slotId: nat, carried: nat, victim: nat)
    requires Consistent(slots, tokens)
    requires 1 <= slotId <= |slots| && 1 <= carried <= |tokens| && 1 <= victim <= |tokens|
    requires tokens[carried - 1].status == Waiting && tokens[carried - 1].doctorId == slots[slotId - 1].doctorId
    requires Matches(SeatRow(tokens, carried, slotId)[victim - 1], InSlot(slotId, Confirmed))
    ensures Consistent(slots, EvictRow(SeatRow(tokens, carried, slotId), victim))
  {
    var u := slots[slotId - 1].used;
    var seated := SeatRow(tokens, carried, slotId);
    var over := SetUsed(slots, slotId, u + 1);
    JoinUsage(slots, tokens, slotId, carried - 1, seated[carried - 1]);
    ReplacePlaced(tokens, slots, carried - 1, seated[carried - 1]);
    assert PlacedAt(seated, slots, victim - 1);
    LeaveUsage(over, seated, slotId, victim - 1, Evicted(seated[victim - 1]));
    SetUsedRestore(slots, slotId, u + 1);
    ReplacePlaced(seated, slots, victim - 1, Evicted(seated[victim - 1]));
  }

  /** Seating a waiting token in a full slot and raising the slot's `used`: the store is
      intact, with that slot exactly one over its capacity, so the eviction that follows has
      a confirmed token to pick and brings the slot back within capacity. */
  lemma SeatOverflows(slots: seq<Slot>, tokens: seq<Token>, slotId: nat, carried: nat)
    requires Consistent(slots, tokens)
    requires 1 <= slotId <= |slots| && 1 <= carried <= |tokens|
    requires tokens[carried - 1].status == Waiting && tokens[carried - 1].doctorId == slots[slotId - 1].doctorId
    requires Full(slots[slotId - 1])
    ensures var over := SetUsed(slots, slotId, slots[slotId - 1].used + 1);
            && Intact(over, SeatRow(tokens, carried, slotId))
            && over[slotId - 1].used == over[slotId - 1].capacity + 1
  {
    var t := Seated(tokens[carried - 1], slotId);
    var over := SetUsed(slots, slotId, slots[slotId - 1].used + 1);
    JoinUsage(slots, tokens, slotId, carried - 1, t);
    ReplacePlaced(tokens, slots, carried - 1, t);
    SetUsedPlaced(tokens[carried - 1 := t], slots, slotId, slots[slotId - 1].used + 1);
    assert SlotsWellFormed(over) by {
      forall i | 0 <= i < |over|
        ensures over[i].id == i + 1 && over[i].used <= over[i].capacity + OVERFLOW_MARGIN
      {
        if i != slotId - 1 {
          assert over[i] == slots[i];
        }
      }
    }
  }

  /** The first state of the store: no slots and no tokens. */
  lemma EmptyConsistent()
    ensures Consistent([], [])
  {
  }

  /** `Slot.create` appends a slot with `used` 0; no token points at it yet, because every
      confirmed token points at an existing slot, so the store stays consistent. */
  lemma CreateKeepsConsistent(slots: seq<Slot>, tokens: seq<Token>, doctorId: nat, startTime: nat, endTime: nat, capacity: nat)
    requires Consistent(slots, tokens)
    ensures Consistent(slots + [Slot(|slots| + 1, doctorId, startTime, endTime, capacity, 0)], tokens)
  {
    var slots' := slots + [Slot(|slots| + 1, doctorId, startTime, endTime, capacity, 0)];
    forall j | 0 <= j < |tokens|
      ensures !Matches(tokens[j], InSlot(|slots| + 1, Confirmed))
    {
      assert PlacedAt(tokens, slots, j);
    }
    CountNone(tokens, InSlot(|slots| + 1, Confirmed));
    forall i | 0 <= i < |slots'|
      ensures UsageAt(slots', tokens, i)
    {
      if i < |slots| {
        assert UsageAt(slots, tokens, i);
      }
    }
    forall j | 0 <= j < |tokens|
      ensures PlacedAt(tokens, slots', j)
    {
      assert PlacedAt(tokens, slots, j);
      if tokens[j].status == Confirmed {
        assert slots'[tokens[j].slotId.value - 1] == slots[tokens[j].slotId.value - 1];
      }
    }
  }

  /** A booking seated in a slot with room keeps the store consistent. */
  lemma BookKeepsConsistent(slots: seq<Slot>, tokens: seq<Token>, slotId: nat, t: Token)
    requires 1 <= slotId <= |slots| && slots[slotId - 1].used < slots[slotId - 1].capacity
    requires t.id == |tokens| + 1 && t.status == Confirmed && t.slotId == Some(slotId)
    requires t.doctorId == slots[slotId - 1].doctorId
    ensures Consistent(slots, tokens) ==> Consistent(SetUsed(slots, slotId, slots[slotId - 1].used + 1), tokens + [t])
  {
    if !Consistent(slots, tokens) {
      return;
    }
    var slots' := SetUsed(slots, slotId, slots[slotId - 1].used + 1);
    forall i | 0 <= i < |slots'|
      ensures UsageAt(slots', tokens + [t], i)
    {
      assert UsageAt(slots, tokens, i);
      CountAppend(tokens, t, InSlot(i + 1, Confirmed));
    }
    SetUsedPlaced(tokens, slots, slotId, slots[slotId - 1].used + 1);
    assert AllPlaced(tokens + [t], slots') by {
      forall j | 0 <= j < |tokens + [t]|
        ensures PlacedAt(tokens + [t], slots', j)
      {
        if j < |tokens| {
          assert PlacedAt(tokens, slots', j);
        }
      }
    }
  }

  /** A token added to the waiting list keeps the store consistent. */
  lemma WaitlistKeepsConsistent(slots: seq<Slot>, tokens: seq<Token>, t: Token)
    requires t.id == |tokens| + 1 && t.status == Waiting && t.slotId == None
    ensures Consistent(slots, tokens) ==> Consistent(slots, tokens + [t])
  {
    if !Consistent(slots, tokens) {
      return;
    }
    forall i | 0 <= i < |slots|
      ensures UsageAt(slots, tokens + [t], i)
    {
      assert UsageAt(slots, tokens, i);
      CountAppend(tokens, t, InSlot(i + 1, Confirmed));
    }
    forall j | 0 <= j < |tokens + [t]|
      ensures PlacedAt(tokens + [t], slots, j)
    {
      if j < |tokens| {
        assert PlacedAt(tokens, slots, j);
      }
    }
  }

  // ---------------------------------------------------------------------------------------
  // Booking

  ghost predicate Full(s: Slot)
  {
    s.used >= s.capacity
  }

  /** Every slot of the doctor starting before `t` is full. */
  ghost predicate FullBefore(rows: seq<Slot>, doctorId: nat, t: int)
  {
    forall i :: 0 <= i < |rows| && rows[i].doctorId == doctorId && rows[i].startTime < t ==> Full(rows[i])
  }

  /** Every slot of the doctor is full. */
  ghost predicate AllFull(rows: seq<Slot>, doctorId: nat)
  {
    forall i :: 0 <= i < |rows| && rows[i].doctorId == doctorId ==> Full(rows[i])
  }

  /** The booked token sits in a slot of its doctor that had room, every slot of the
      doctor starting earlier is full, and only that slot's `used` went up, by one. */
  ghost predicate FirstFit(before: seq<Slot>, after: seq<Slot>, t: Token)
  {
    && t.slotId.Some? && 1 <= t.slotId.value <= |before|
    && var s := before[t.slotId.value - 1];
       && s.doctorId == t.doctorId && !Full(s)
       && FullBefore(before, t.doctorId, s.startTime)
       && after == SetUsed(before, t.slotId.value, s.used + 1)
  }

  /** The token waits with no slot, every slot of its doctor is full, and no slot changed. */
  ghost predicate Waitlisted(before: seq<Slot>, after: seq<Slot>, t: Token)
  {
    t.slotId == None && after == before && AllFull(before, t.doctorId)
  }

  /** If the first `k` slots of the doctor's start-ordered chain are full, so is every slot
      of the doctor that starts before the `k`-th. */
  lemma PrefixFull(rows: seq<Slot>, ordered: seq<Slot>, doctorId: nat, k: nat)
    requires forall s :: s in ordered <==> s in rows && s.doctorId == doctorId
    requires forall i, j :: 0 <= i < j < |ordered| ==> ordered[i].startTime <= ordered[j].startTime
    requires k < |ordered| && forall m :: 0 <= m < k ==> Full(ordered[m])
    ensures FullBefore(rows, doctorId, ordered[k].startTime)
  {
    forall i | 0 <= i < |rows| && rows[i].doctorId == doctorId && rows[i].startTime < ordered[k].startTime
      ensures Full(rows[i])
    {
      assert rows[i] in ordered;
      var m :| 0 <= m < |ordered| && ordered[m] == rows[i];
    }
  }

  /** A slot of the chain is the row of the table its id names. */
  lemma ChainMember(rows: seq<Slot>, ordered: seq<Slot>, doctorId: nat, k: nat)
    requires SlotsWellFormed(rows)
    requires forall s :: s in ordered <==> s in rows && s.doctorId == doctorId
    requires k < |ordered|
    ensures 1 <= ordered[k].id <= |rows| && rows[ordered[k].id - 1] == ordered[k]
    ensures ordered[k].doctorId == doctorId
  {
    assert ordered[k] in rows;
  }

  /** A token seated in the first slot of the chain with room, past `k` full ones, is
      booked first-fit once that slot's `used` goes up by one. */
  lemma FirstFitFound(rows: seq<Slot>, ordered: seq<Slot>, doctorId: nat, k: nat, t: Token, rows': seq<Slot>)
    requires SlotsWellFormed(rows)
    requires forall s :: s in ordered <==> s in rows && s.doctorId == doctorId
    requires forall i, j :: 0 <= i < j < |ordered| ==> ordered[i].startTime <= ordered[j].startTime
    requires k < |ordered| && (forall m :: 0 <= m < k ==> Full(ordered[m])) && !Full(ordered[k])
    requires t.slotId == Some(ordered[k].id) && t.doctorId == doctorId
    requires 1 <= ordered[k].id <= |rows| && rows' == SetUsed(rows, ordered[k].id, ordered[k].used + 1)
    ensures FirstFit(rows, rows', t)
  {
    ChainMember(rows, ordered, doctorId, k);
    PrefixFull(rows, ordered, doctorId, k);
  }

  /** If the whole chain is full, every slot of the doctor is, and a token left without a
      slot, with no slot changed, is waitlisted. */
  lemma ChainFull(rows: seq<Slot>, ordered: seq<Slot>, doctorId: nat, t: Token, rows': seq<Slot>)
    requires forall s :: s in ordered <==> s in rows && s.doctorId == doctorId
    requires forall m :: 0 <= m < |ordered| ==> Full(ordered[m])
    requires t.slotId == None && t.doctorId == doctorId && rows' == rows
    ensures Waitlisted(rows, rows', t)
  {
    forall i | 0 <= i < |rows| && rows[i].doctorId == doctorId
      ensures Full(rows[i])
    {
      assert rows[i] in ordered;
    }
  }

  /** Whatever a booking does to a consistent store, the store stays consistent: the new
      row is either booked first-fit or waitlisted with every slot full. */
  lemma AllocationKeepsConsistent(slots: seq<Slot>, tokens: seq<Token>, slots': seq<Slot>, t: Token)
    requires Consistent(slots, tokens)
    requires t.id == |tokens| + 1
    requires || (t.status == Confirmed && FirstFit(slots, slots', t))
             || (t.status == Waiting && Waitlisted(slots, slots', t))
    ensures Consistent(slots', tokens + [t])
  {
    if t.status == Confirmed {
      BookKeepsConsistent(slots, tokens, t.slotId.value, t);
    } else {
      WaitlistKeepsConsistent(slots, tokens, t);
    }
  }

  /** The loop of allocateToken: walks the doctor's start-ordered chain and books a
      CONFIRMED token in the first slot with room, raising that slot's `used` by one; when
      the whole chain is full nothing is written. */
  method SeatFirstFit(slots: SlotTable, tokens: TokenTable, ordered: seq<Slot>, patient: string, doctorId: nat,
                      ttype: TokenType, priority: real) returns (booked: Option<Token>)
    requires slots.Valid() && tokens.Valid()
    requires forall s :: s in ordered <==> s in slots.rows && s.doctorId == doctorId
    requires forall i, j :: 0 <= i < j < |ordered| ==> ordered[i].startTime <= ordered[j].startTime
    modifies slots, tokens
    ensures slots.Valid() && tokens.Valid()
    ensures booked.None? ==>
              && slots.rows == old(slots.rows) && tokens.rows == old(tokens.rows)
              && forall m :: 0 <= m < |ordered| ==> Full(ordered[m])
    ensures booked.Some? ==>
              && tokens.rows == old(tokens.rows) + [booked.value]
              && booked.value == Token(|old(tokens.rows)| + 1, patient, doctorId, booked.value.slotId, ttype, priority, Confirmed)
              && FirstFit(old(slots.rows), slots.rows, booked.value)
  {
    ghost var slots0, tokens0 := slots.rows, tokens.rows;
    for k := 0 to |ordered|
      invariant slots.rows == slots0 && tokens.rows == tokens0
      invariant forall m :: 0 <= m < k ==> Full(ordered[m])
    {
      var slot := ordered[k];
      if slot.used < slot.capacity {
        ChainMember(slots0, ordered, doctorId, k);
        var token := tokens.Create(patient, doctorId, Some(slot.id), ttype, priority, Some(Confirmed));
        assert token.slotId == Some(slot.id) && slots0[slot.id - 1] == slot;
        var _ := slots.IncrementUsage(slot.id);
        FirstFitFound(slots0, ordered, doctorId, k, token, slots.rows);
        return Some(token);
      }
    }
    booked := None;
  }

  /** allocateToken: the token is CONFIRMED in the first slot, in start-time order, that
      still has room, and that slot's `used` goes up by one; when every slot is full it is
      WAITING with no slot and no slot changes; a doctor without slots is an error with no
      write. The priority is the type's base score (no time has passed at creation). */
  method AllocateToken(slots: SlotTable, tokens: TokenTable, patient: string, doctorId: nat,
                       ttype: TokenType, clock: int) returns (r: Result<Token>)
    requires slots.Valid() && tokens.Valid()
    requires Bookable(ttype)
    modifies slots, tokens
    ensures slots.Valid() && tokens.Valid()
    ensures DoctorSlots(old(slots.rows), doctorId) == [] ==>
              r == Err(NoSlots) && slots.rows == old(slots.rows) && tokens.rows == old(tokens.rows)
    ensures DoctorSlots(old(slots.rows), doctorId) != [] ==>
              && r.Ok?
              && tokens.rows == old(tokens.rows) + [r.value]
              && r.value.id == |old(tokens.rows)| + 1 && r.value.patient == patient
              && r.value.doctorId == doctorId && r.value.ttype == ttype
              && r.value.priority == GetBasePriority(TypeName(ttype)) as real
              && (r.value.status == Confirmed || r.value.status == Waiting)
    ensures r.Ok? && r.value.status == Confirmed ==> FirstFit(old(slots.rows), slots.rows, r.value)
    ensures r.Ok? && r.value.status == Waiting ==> Waitlisted(old(slots.rows), slots.rows, r.value)
  {
    ghost var slots0 := slots.rows;
    var ordered := slots.FindByDoctorId(doctorId);
    assert |ordered| == |multiset(DoctorSlots(slots.rows, doctorId))| == |DoctorSlots(slots.rows, doctorId)|;
    if |ordered| == 0 {
      return Err(NoSlots);
    }
    var priority := CalculatePriority(TypeName(ttype), clock, clock);
    var booked := SeatFirstFit(slots, tokens, ordered, patient, doctorId, ttype, priority);
    if booked.Some? {
      return Ok(booked.value);
    }
    var token := tokens.Create(patient, doctorId, None, ttype, priority, Some(Waiting));
    ChainFull(slots0, ordered, doctorId, token, slots.rows);
    r := Ok(token);
  }

  // ---------------------------------------------------------------------------------------
  // Emergency insertion

  /** A row found by a query is the row its id names. */
  lemma SlotRow(rows: seq<Slot>, s: Slot)
    requires SlotsWellFormed(rows) && s in rows
    ensures 1 <= s.id <= |rows| && rows[s.id - 1] == s
  {
    var i :| 0 <= i < |rows| && rows[i] == s;
  }

  lemma TokenRow(rows: seq<Token>, t: Token)
    requires TokensWellFormed(rows) && t in rows
    ensures 1 <= t.id <= |rows| && rows[t.id - 1] == t
  {
    var i :| 0 <= i < |rows| && rows[i] == t;
  }

  /** The victim: a confirmed token of the slot whose priority no other confirmed token of
      the slot undercuts. */
  ghost predicate LowestIn(rows: seq<Token>, v: nat, slotId: nat)
  {
    && 1 <= v <= |rows| && Matches(rows[v - 1], InSlot(slotId, Confirmed))
    && forall j :: 0 <= j < |rows| && Matches(rows[j], InSlot(slotId, Confirmed)) ==> rows[v - 1].priority <= rows[j].priority
  }

  lemma UntouchedTrans(a: seq<Token>, b: seq<Token>, c: seq<Token>, d: nat)
    requires Untouched(a, b, d) && Untouched(b, c, d)
    ensures Untouched(a, c, d)
  {
    forall j | 0 <= j < |a| && (a[j].doctorId != d || a[j].status == Cancelled)
      ensures c[j] == a[j]
    {
      assert b[j] == a[j];
    }
  }

  /** Seating into a slot with room: one of the doctor's tokens goes from WAITING to
      CONFIRMED, and nothing outside the doctor's rows changes. */
  lemma {:induction false} AbsorbFootprint(slots: seq<Slot>, tokens: seq<Token>, slot: Slot, carried: nat,
                                           slots': seq<Slot>, tokens': seq<Token>)
    requires 1 <= slot.id <= |slots| && slots[slot.id - 1] == slot && 1 <= carried <= |tokens|
    requires tokens[carried - 1].status == Waiting && tokens[carried - 1].doctorId == slot.doctorId
    requires tokens' == SeatRow(tokens, carried, slot.id)
    requires slots' == SetUsed(slots, slot.id, slot.used + 1)
    ensures var d := slot.doctorId;
            && Count(tokens', WithStatus(d, Confirmed)) == Count(tokens, WithStatus(d, Confirmed)) + 1
            && Count(tokens', WithStatus(d, Waiting)) + 1 == Count(tokens, WithStatus(d, Waiting))
            && Untouched(tokens, tokens', d)
            && OnlyUsageChanged(slots, slots', d)
  {
    StatusShift(tokens, carried - 1, Seated(tokens[carried - 1], slot.id), slot.doctorId);
  }

  /** Seating into a full slot and evicting one of its confirmed tokens: the doctor's
      confirmed and waiting counts are as they were, the victim waits, and nothing outside
      the doctor's rows changes. */
  lemma {:induction false} EvictFootprint(slots: seq<Slot>, tokens: seq<Token>, slotId: nat, carried: nat, victim: nat,
                                          tokens': seq<Token>)
    requires Consistent(slots, tokens)
    requires 1 <= slotId <= |slots| && 1 <= carried <= |tokens| && 1 <= victim <= |tokens|
    requires tokens[carried - 1].status == Waiting && tokens[carried - 1].doctorId == slots[slotId - 1].doctorId
    requires Matches(SeatRow(tokens, carried, slotId)[victim - 1], InSlot(slotId, Confirmed))
    requires tokens' == EvictRow(SeatRow(tokens, carried, slotId), victim)
    ensures var d := slots[slotId - 1].doctorId;
            && Count(tokens', WithStatus(d, Confirmed)) == Count(tokens, WithStatus(d, Confirmed))
            && Count(tokens', WithStatus(d, Waiting)) == Count(tokens, WithStatus(d, Waiting))
            && Untouched(tokens, tokens', d)
            && tokens'[victim - 1].status == Waiting && tokens'[victim - 1].doctorId == d
  {
    var d := slots[slotId - 1].doctorId;
    var seated := SeatRow(tokens, carried, slotId);
    if victim != carried {
      assert PlacedAt(tokens, slots, victim - 1);
    }
    StatusShift(tokens, carried - 1, seated[carried - 1], d);
    StatusShift(seated, victim - 1, Evicted(seated[victim - 1]), d);
  }

  /** One call of rippleInsert with a slot, up to the recursive call: the carried token is
      seated in the slot; if that leaves the slot with more confirmed tokens than its
      capacity, a lowest-priority confirmed token of the slot (possibly the carried one) is
      sent back to the waiting list and the slot's `used` is restored, and its id is
      returned to be carried on. The no-victim error cannot happen. */
  method SeatStep(slots: SlotTable, tokens: TokenTable, slot: Slot, carried: nat) returns (victim: Option<nat>)
    requires slots.Valid() && tokens.Valid() && Consistent(slots.rows, tokens.rows)
    requires slot in slots.rows && 1 <= carried <= |tokens.rows|
    requires tokens.rows[carried - 1].status == Waiting && tokens.rows[carried - 1].doctorId == slot.doctorId
    modifies slots, tokens
    ensures slots.Valid() && tokens.Valid() && Consistent(slots.rows, tokens.rows)
    ensures 1 <= slot.id <= |old(slots.rows)| && old(slots.rows)[slot.id - 1] == slot
    ensures !Full(slot) ==>
              && victim.None? && tokens.rows == SeatRow(old(tokens.rows), carried, slot.id)
              && slots.rows == SetUsed(old(slots.rows), slot.id, slot.used + 1)
    ensures Full(slot) ==>
              && victim.Some? && LowestIn(SeatRow(old(tokens.rows), carried, slot.id), victim.value, slot.id)
              && tokens.rows == EvictRow(SeatRow(old(tokens.rows), carried, slot.id), victim.value)
              && slots.rows == old(slots.rows)
  {
    ghost var slots0, tokens0 := slots.rows, tokens.rows;
    SlotRow(slots0, slot);
    ghost var seated := SeatRow(tokens0, carried, slot.id);
    var _ := tokens.Update(carried, Some(Some(slot.id)), Some(Confirmed), None);
    assert tokens.rows == seated;
    assert slot.used <= slot.capacity;
    var _ := slots.IncrementUsage(slot.id);
    assert slots.rows == SetUsed(slots0, slot.id, slot.used + 1);
    var updated := slots.FindById(slot.id);
    assert updated.value == slot.(used := slot.used + 1);
    if updated.value.used > updated.value.capacity {
      SeatOverflows(slots0, tokens0, slot.id, carried);
      assert Matches(tokens.rows[carried - 1], InSlot(slot.id, Confirmed));
      var lowest := tokens.FindLowestPriorityInSlot(slot.id);
      assert lowest.Some?;
      var v := lowest.value;
      TokenRow(tokens.rows, v);
      var _ := tokens.Update(v.id, Some(None), Some(Waiting), None);
      assert tokens.rows == EvictRow(seated, v.id);
      var _ := slots.DecrementUsage(slot.id);
      SetUsedRestore(slots0, slot.id, slot.used + 1);
      assert slots.rows == slots0;
      SeatEvicts(slots0, tokens0, slot.id, carried, v.id);
      victim := Some(v.id);
    } else {
      SeatAbsorbs(slots0, tokens0, slot.id, carried);
      victim := None;
    }
  }

  /** The waiting token about to be carried is placed, so re-stating it as waiting with no
      slot changes nothing. */
  lemma RequeueIsNoop(slots: seq<Slot>, tokens: seq<Token>, k: nat)
    requires AllPlaced(tokens, slots) && k < |tokens| && tokens[k].status == Waiting
    ensures tokens[k := Patched(tokens[k], Some(None), Some(Waiting), None)] == tokens
  {
    assert PlacedAt(tokens, slots, k);
  }

  /** The start-time bound on the remaining chain: a slot of the doctor that starts after
      `t` leaves fewer of the doctor's slots after its own start. */
  lemma {:induction false} ChainShrinks(snap: seq<Slot>, rows: seq<Slot>, d: nat, t: int, next: Slot)
    requires OnlyUsageChanged(snap, rows, d) && SlotsWellFormed(rows)
    requires next in rows && next.doctorId == d && next.startTime > t
    ensures |SlotsAfter(snap, d, next.startTime)| < |SlotsAfter(snap, d, t)|
  {
    SlotRow(rows, next);
    assert snap[next.id - 1].startTime == next.startTime;
    SlotsAfterShrinks(snap, d, t, next.startTime, next.id - 1);
  }

  /** The state between two steps of a ripple that began from `slots0`/`tokens0` for doctor
      `d`: the store is consistent, only the doctor's rows have moved, only slot usage has
      changed, the doctor's confirmed and waiting counts are as they were, and `token` is a
      waiting token of the doctor, the one being carried. */
  ghost predicate Carrying(slots0: seq<Slot>, tokens0: seq<Token>, d: nat, slots: seq<Slot>, tokens: seq<Token>, token: nat)
  {
    && Consistent(slots, tokens)
    && |tokens| == |tokens0| && OnlyPlacementChanged(tokens0, tokens)
    && OnlyUsageChanged(slots0, slots, d) && Untouched(tokens0, tokens, d)
    && 1 <= token <= |tokens| && tokens[token - 1].status == Waiting && tokens[token - 1].doctorId == d
    && Count(tokens, WithStatus(d, Confirmed)) == Count(tokens0, WithStatus(d, Confirmed))
    && Count(tokens, WithStatus(d, Waiting)) == Count(tokens0, WithStatus(d, Waiting))
  }

  /** A step that evicts a victim carries the victim on, in the same ripple. */
  lemma EvictKeepsCarrying(slots0: seq<Slot>, tokens0: seq<Token>, d: nat, slots: seq<Slot>, tokens: seq<Token>,
                           token: nat, slot: Slot, victim: nat, slots': seq<Slot>, tokens': seq<Token>)
    requires Carrying(slots0, tokens0, d, slots, tokens, token)
    requires 1 <= slot.id <= |slots| && slots[slot.id - 1] == slot && slot.doctorId == d
    requires LowestIn(SeatRow(tokens, token, slot.id), victim, slot.id)
    requires tokens' == EvictRow(SeatRow(tokens, token, slot.id), victim) && slots' == slots
    ensures Carrying(slots0, tokens0, d, slots', tokens', victim)
  {
    EvictFootprint(slots, tokens, slot.id, token, victim, tokens');
    SeatEvicts(slots, tokens, slot.id, token, victim);
    UntouchedTrans(tokens0, tokens, tokens', d);
    EvictPlacement(tokens0, tokens, token, slot.id, victim);
  }

  /** Seating one row and evicting another writes only slots and statuses. */
  lemma EvictPlacement(tokens0: seq<Token>, tokens: seq<Token>, token: nat, slotId: nat, victim: nat)
    requires OnlyPlacementChanged(tokens0, tokens) && 1 <= token <= |tokens| && 1 <= victim <= |tokens|
    ensures OnlyPlacementChanged(tokens0, EvictRow(SeatRow(tokens, token, slotId), victim))
  {
    var seated := SeatRow(tokens, token, slotId);
    PlacementStep(tokens0, tokens, token - 1, seated[token - 1]);
    PlacementStep(tokens0, seated, victim - 1, Evicted(seated[victim - 1]));
  }

  /** The outcome of a ripple for doctor `d` started from `slots0`/`tokens0`. The store is
      consistent; tokens changed only in slot and status, and only the doctor's live ones.
      If a slot absorbed the cascade, it is a slot of the doctor that had room and the only
      one that changed, by one more token, and the doctor has one more confirmed and one
      fewer waiting token. Otherwise no slot changed and the doctor's counts are as they were. */
  ghost predicate Rippled(slots0: seq<Slot>, tokens0: seq<Token>, d: nat, slots: seq<Slot>, tokens: seq<Token>,
                          absorbed: bool)
  {
    && Consistent(slots, tokens)
    && OnlyPlacementChanged(tokens0, tokens) && Untouched(tokens0, tokens, d)
    && OnlyUsageChanged(slots0, slots, d)
    && (absorbed ==>
          && (exists sid :: AbsorbedBy(slots0, slots, d, sid))
          && Count(tokens, WithStatus(d, Confirmed)) == Count(tokens0, WithStatus(d, Confirmed)) + 1
          && Count(tokens, WithStatus(d, Waiting)) + 1 == Count(tokens0, WithStatus(d, Waiting)))
    && (!absorbed ==>
          && slots == slots0
          && Count(tokens, WithStatus(d, Confirmed)) == Count(tokens0, WithStatus(d, Confirmed))
          && Count(tokens, WithStatus(d, Waiting)) == Count(tokens0, WithStatus(d, Waiting)))
  }

  /** Some slot of doctor `d` starting at `t` is full. */
  ghost predicate FullAt(rows: seq<Slot>, d: nat, t: int)
  {
    exists k :: 0 <= k < |rows| && rows[k].doctorId == d && rows[k].startTime == t && Full(rows[k])
  }

  /** `s` is a slot of doctor `d` that no slot of the doctor starts before: a valid first
      row of `findByDoctorId`, whose order among slots sharing a start time is not fixed. */
  ghost predicate Earliest(rows: seq<Slot>, d: nat, s: Slot)
  {
    && s in rows && s.doctorId == d
    && forall i :: 0 <= i < |rows| && rows[i].doctorId == d ==> s.startTime <= rows[i].startTime
  }

  /** The head of the doctor's slots sorted by start time is an earliest slot. */
  lemma HeadEarliest(rows: seq<Slot>, d: nat, ordered: seq<Slot>)
    requires |ordered| > 0
    requires forall s :: s in ordered <==> s in rows && s.doctorId == d
    requires forall i, j :: 0 <= i < j < |ordered| ==> ordered[i].startTime <= ordered[j].startTime
    ensures Earliest(rows, d, ordered[0])
  {
    assert ordered[0] in ordered;
    forall i | 0 <= i < |rows| && rows[i].doctorId == d
      ensures ordered[0].startTime <= rows[i].startTime
    {
      assert rows[i] in ordered;
      var j :| 0 <= j < |ordered| && ordered[j] == rows[i];
      if j > 0 {
        assert ordered[0].startTime <= ordered[j].startTime;
      }
    }
  }

  /** Every start time of the doctor's slots from `low` on has a full slot: a chain walked
      from `low` by `findNextSlot` meets only full slots. */
  ghost predicate ChainFullFrom(rows: seq<Slot>, d: nat, low: int)
  {
    forall i :: 0 <= i < |rows| && rows[i].doctorId == d && rows[i].startTime >= low ==>
      FullAt(rows, d, rows[i].startTime)
  }

  /** A chain that starts at an earliest slot covers every start time of the doctor. */
  lemma EarliestChainFull(rows: seq<Slot>, d: nat, s: Slot)
    requires Earliest(rows, d, s) && ChainFullFrom(rows, d, s.startTime)
    ensures ChainFullFrom(rows, d, 0)
  {
  }

  /** The walk of a ripple that started at `low` and last seated at start time `passed`:
      every start time in between had a full slot, `cur` is the earliest slot after `passed`,
      and when there is no `cur`, no slot of the doctor starts after `passed`. */
  ghost predicate Walked(rows: seq<Slot>, d: nat, low: int, passed: int, cur: Option<Slot>)
  {
    && (forall i :: 0 <= i < |rows| && rows[i].doctorId == d && low <= rows[i].startTime <= passed ==>
          FullAt(rows, d, rows[i].startTime))
    && (cur.Some? ==> forall i :: 0 <= i < |rows| && rows[i].doctorId == d && rows[i].startTime > passed ==>
          cur.value.startTime <= rows[i].startTime)
    && (cur.None? ==> forall i :: 0 <= i < |rows| && rows[i].doctorId == d ==> rows[i].startTime <= passed)
  }

  /** What `findNextSlot` may return after start time `t`: the doctor's earliest slot
      starting strictly later, or none when no slot of the doctor starts later. */
  ghost predicate NextAfter(rows: seq<Slot>, d: nat, t: int, next: Option<Slot>)
  {
    && (next.None? ==> forall i :: 0 <= i < |rows| && rows[i].doctorId == d ==> rows[i].startTime <= t)
    && (next.Some? ==>
          && next.value in rows && next.value.doctorId == d && next.value.startTime > t
          && forall i :: 0 <= i < |rows| && rows[i].doctorId == d && rows[i].startTime > t ==>
               next.value.startTime <= rows[i].startTime)
  }

  /** A slot of the doctor starting after `t` leaves fewer of the doctor's slots after it. */
  lemma NextShrinks(rows: seq<Slot>, d: nat, t: int, next: Slot)
    requires next in rows && next.doctorId == d && next.startTime > t
    ensures |SlotsAfter(rows, d, next.startTime)| < |SlotsAfter(rows, d, t)|
  {
    var k :| 0 <= k < |rows| && rows[k] == next;
    SlotsAfterShrinks(rows, d, t, next.startTime, k);
  }

  /** How many calls of rippleInsert can still run from `cur`: one for `cur` and one for
      each slot of its doctor that starts later. */
  function ChainLeft(rows: seq<Slot>, cur: Option<Slot>): nat
  {
    if cur.Some? then 1 + |SlotsAfter(rows, cur.value.doctorId, cur.value.startTime)| else 0
  }

  /** rippleInsert(cur, token), call by call, from the tokens `tokens0` to `slots`/`tokens`.
      `snap` is the slot table, which every call that hands a victim on leaves as it found
      it. No slot: the token is set WAITING with no slot. A slot with room: the token is
      CONFIRMED in it and its `used` rises by one. A full slot: the token is CONFIRMED in
      it, a lowest-priority confirmed token of the slot (possibly the one just seated) is
      set WAITING with no slot, and that victim is rippled into what `findNextSlot` returns
      after the slot's start time. */
  ghost predicate Cascade(snap: seq<Slot>, tokens0: seq<Token>, cur: Option<Slot>, token: nat,
                          slots: seq<Slot>, tokens: seq<Token>)
    requires 1 <= token <= |tokens0|
    decreases ChainLeft(snap, cur)
  {
    if cur.None? then
      slots == snap && tokens == EvictRow(tokens0, token)
    else if !Full(cur.value) then
      && 1 <= cur.value.id <= |snap|
      && slots == SetUsed(snap, cur.value.id, cur.value.used + 1)
      && tokens == SeatRow(tokens0, token, cur.value.id)
    else
      exists v: nat, next: Option<Slot> ::
        && LowestIn(SeatRow(tokens0, token, cur.value.id), v, cur.value.id)
        && NextAfter(snap, cur.value.doctorId, cur.value.startTime, next)
        && (if next.Some? then NextShrinks(snap, cur.value.doctorId, cur.value.startTime, next.value); true else true)
        && Cascade(snap, EvictRow(SeatRow(tokens0, token, cur.value.id), v), next, v, slots, tokens)
  }

  /** A full slot that evicts `v` and hands it on to `next` is one call of the cascade. */
  lemma CascadeStep(snap: seq<Slot>, tokens0: seq<Token>, cur: Slot, token: nat, v: nat, next: Option<Slot>,
                    slots: seq<Slot>, tokens: seq<Token>)
    requires 1 <= token <= |tokens0| && Full(cur)
    requires LowestIn(SeatRow(tokens0, token, cur.id), v, cur.id)
    requires NextAfter(snap, cur.doctorId, cur.startTime, next)
    requires Cascade(snap, EvictRow(SeatRow(tokens0, token, cur.id), v), next, v, slots, tokens)
    ensures Cascade(snap, tokens0, Some(cur), token, slots, tokens)
  {
    if next.Some? {
      NextShrinks(snap, cur.doctorId, cur.startTime, next.value);
    }
  }

  /** Three slots of one doctor, the first full with a WALKIN token of priority 20 and the
      other two free, and an EMERGENCY token of priority 100 rippled in from the first: the
      emergency token takes the first slot and the walk-in token moves to the second. */
  lemma CascadeDisplaces(snap: seq<Slot>, tokens0: seq<Token>)
    requires snap == [Slot(1, 1, 9, 10, 1, 1), Slot(2, 1, 10, 11, 1, 0), Slot(3, 1, 11, 12, 1, 0)]
    requires tokens0 == [Token(1, "w", 1, Some(1), Walkin, 20.0, Confirmed), Token(2, "e", 1, None, Emergency, 100.0, Waiting)]
    ensures Cascade(snap, tokens0, Some(snap[0]), 2, SetUsed(snap, 2, 1),
                    [tokens0[0].(slotId := Some(2)), tokens0[1].(slotId := Some(1), status := Confirmed)])
  {
    var seated := SeatRow(tokens0, 2, 1);
    assert LowestIn(seated, 1, 1);
    assert NextAfter(snap, 1, 9, Some(snap[1]));
    var evicted := EvictRow(seated, 1);
    assert SeatRow(evicted, 1, 2) == [tokens0[0].(slotId := Some(2)), tokens0[1].(slotId := Some(1), status := Confirmed)];
    CascadeStep(snap, tokens0, snap[0], 2, 1, Some(snap[1]), SetUsed(snap, 2, 1), SeatRow(evicted, 1, 2));
  }

  /** In the same store, the emergency token cannot skip the full first slot and take a
      later free one: every cascade from the first slot changes the second slot, the first
      one after it. */
  lemma CascadeNeverSkips(snap: seq<Slot>, tokens0: seq<Token>)
    requires snap == [Slot(1, 1, 9, 10, 1, 1), Slot(2, 1, 10, 11, 1, 0), Slot(3, 1, 11, 12, 1, 0)]
    requires tokens0 == [Token(1, "w", 1, Some(1), Walkin, 20.0, Confirmed), Token(2, "e", 1, None, Emergency, 100.0, Waiting)]
    ensures !Cascade(snap, tokens0, Some(snap[0]), 2, SetUsed(snap, 3, 1), SeatRow(tokens0, 2, 3))
  {
    assert snap[1].startTime == 10;
  }

  /** Every start time of doctor `d` from `low` up to, not including, `t` has a full slot. */
  ghost predicate FullUpTo(rows: seq<Slot>, d: nat, low: int, t: int)
  {
    forall i :: 0 <= i < |rows| && rows[i].doctorId == d && low <= rows[i].startTime < t ==>
      FullAt(rows, d, rows[i].startTime)
  }

  /** The slot that absorbed the cascade had room and is the first such slot of the doctor
      from `low` on: every start time before its own has a full slot. */
  ghost predicate AbsorbedFirst(before: seq<Slot>, after: seq<Slot>, d: nat, low: int)
  {
    exists sid :: AbsorbedBy(before, after, d, sid) && FullUpTo(before, d, low, before[sid - 1].startTime)
  }

  /** The slot the walk has reached, when it has room, is the first one with room. */
  lemma WalkedAbsorb(rows: seq<Slot>, after: seq<Slot>, d: nat, low: int, passed: int, slot: Slot)
    requires Walked(rows, d, low, passed, Some(slot)) && slot.doctorId == d && !Full(slot)
    requires 1 <= slot.id <= |rows| && rows[slot.id - 1] == slot
    requires after == SetUsed(rows, slot.id, slot.used + 1)
    ensures AbsorbedFirst(rows, after, d, low)
  {
    assert AbsorbedBy(rows, after, d, slot.id);
  }

  /** From an earliest slot of the doctor, the first slot with room from there on is the
      first slot with room of all. */
  lemma EarliestAbsorbedFirst(before: seq<Slot>, after: seq<Slot>, d: nat, s: Slot)
    requires Earliest(before, d, s) && AbsorbedFirst(before, after, d, s.startTime)
    ensures AbsorbedFirst(before, after, d, 0)
  {
    var sid :| AbsorbedBy(before, after, d, sid) && FullUpTo(before, d, s.startTime, before[sid - 1].startTime);
    assert FullUpTo(before, d, 0, before[sid - 1].startTime);
  }

  /** A full slot that was next in the walk passes the walk on to the slot `findNextSlot`
      returns after it. */
  lemma WalkStep(rows: seq<Slot>, d: nat, low: int, passed: int, slot: Slot, next: Option<Slot>)
    requires Walked(rows, d, low, passed, Some(slot)) && slot in rows && slot.doctorId == d && Full(slot)
    requires NextAfter(rows, d, slot.startTime, next)
    ensures Walked(rows, d, low, slot.startTime, next)
  {
    var k :| 0 <= k < |rows| && rows[k] == slot;
    forall i | 0 <= i < |rows| && rows[i].doctorId == d && low <= rows[i].startTime <= slot.startTime
      ensures FullAt(rows, d, rows[i].startTime)
    {
      if rows[i].startTime > passed {
        assert rows[i].startTime == slot.startTime;
        assert rows[k].doctorId == d && rows[k].startTime == rows[i].startTime && Full(rows[k]);
      }
    }
  }

  /** A walk that ran out met only full slots. */
  lemma WalkedAllFull(rows: seq<Slot>, d: nat, low: int, passed: int)
    requires Walked(rows, d, low, passed, None)
    ensures ChainFullFrom(rows, d, low)
  {
  }

  /** A step that finds room ends the ripple with the carried token seated in that slot:
      the ripple's outcome is an absorbed one. */
  lemma AbsorbEndsCarrying(slots0: seq<Slot>, tokens0: seq<Token>, d: nat, slots: seq<Slot>, tokens: seq<Token>,
                           token: nat, slot: Slot, slots': seq<Slot>, tokens': seq<Token>)
    requires Carrying(slots0, tokens0, d, slots, tokens, token) && slots == slots0
    requires 1 <= slot.id <= |slots| && slots[slot.id - 1] == slot && slot.doctorId == d && !Full(slot)
    requires tokens' == SeatRow(tokens, token, slot.id) && slots' == SetUsed(slots, slot.id, slot.used + 1)
    ensures Rippled(slots0, tokens0, d, slots', tokens', true)
  {
    AbsorbFootprint(slots, tokens, slot, token, slots', tokens');
    SeatAbsorbs(slots, tokens, slot.id, token);
    UntouchedTrans(tokens0, tokens, tokens', d);
    PlacementStep(tokens0, tokens, token - 1, Seated(tokens[token - 1], slot.id));
    assert AbsorbedBy(slots0, slots', d, slot.id);
  }

  /** A chain that runs out while a token is carried ends the ripple with no slot changed
      and the doctor's counts as they were. */
  lemma ExhaustEndsCarrying(slots0: seq<Slot>, tokens0: seq<Token>, d: nat, slots: seq<Slot>, tokens: seq<Token>,
                            token: nat)
    requires Carrying(slots0, tokens0, d, slots, tokens, token) && slots == slots0
    ensures Rippled(slots0, tokens0, d, slots, tokens, false)
  {
  }

  /** One call of rippleInsert with a slot, up to the recursive call, inside a ripple that
      began from `snap`/`tokens0` for doctor `d`. A slot with room absorbs the carried token
      and ends the ripple with the absorbed outcome. A full slot evicts a lowest-priority
      confirmed token of it, which is carried on with the ripple's invariant kept and no
      slot changed, and `next` is what `findNextSlot` returns after the slot. */
  method RippleHop(slots: SlotTable, tokens: TokenTable, ghost snap: seq<Slot>, ghost tokens0: seq<Token>,
                   ghost d: nat, slot: Slot, token: nat)
    returns (victim: Option<nat>, next: Option<Slot>)
    requires slots.Valid() && tokens.Valid() && slots.rows == snap
    requires Carrying(snap, tokens0, d, slots.rows, tokens.rows, token)
    requires slot in snap && slot.doctorId == d
    modifies slots, tokens
    ensures slots.Valid() && tokens.Valid() && 1 <= slot.id <= |snap| && snap[slot.id - 1] == slot
    ensures victim.None? ==>
              && !Full(slot) && Rippled(snap, tokens0, d, slots.rows, tokens.rows, true)
              && slots.rows == SetUsed(snap, slot.id, slot.used + 1)
              && tokens.rows == SeatRow(old(tokens.rows), token, slot.id)
    ensures victim.Some? ==>
              && Full(slot) && slots.rows == snap
              && LowestIn(SeatRow(old(tokens.rows), token, slot.id), victim.value, slot.id)
              && tokens.rows == EvictRow(SeatRow(old(tokens.rows), token, slot.id), victim.value)
              && Carrying(snap, tokens0, d, slots.rows, tokens.rows, victim.value)
              && NextAfter(snap, d, slot.startTime, next)
  {
    ghost var tokensBefore := tokens.rows;
    victim := SeatStep(slots, tokens, slot, token);
    if victim.None? {
      AbsorbEndsCarrying(snap, tokens0, d, snap, tokensBefore, token, slot, slots.rows, tokens.rows);
      return victim, None;
    }
    EvictKeepsCarrying(snap, tokens0, d, snap, tokensBefore, token, slot, victim.value, slots.rows, tokens.rows);
    next := slots.FindNextSlot(slot.doctorId, slot.startTime);
  }

  /** rippleInsert(cur, token), inside a ripple that began from `snap`/`tokens0` for doctor
      `d` at start time `low`, where every slot passed, up to start time `passed`, was full.
      It runs the `Cascade` from `cur` in at most one call per slot still ahead, and ends
      with the ripple's outcome. When `cur` has room it absorbs the token. When some slot
      absorbs the cascade, it is the first slot of the doctor with room from `low` on; when
      none does, every start time of the doctor from `low` on has a full slot. */
  method RippleOn(slots: SlotTable, tokens: TokenTable, ghost snap: seq<Slot>, ghost tokens0: seq<Token>,
                  ghost d: nat, ghost low: int, ghost passed: int, cur: Option<Slot>, token: nat)
    returns (ghost absorbed: bool, ghost steps: nat)
    requires slots.Valid() && tokens.Valid() && slots.rows == snap
    requires Carrying(snap, tokens0, d, slots.rows, tokens.rows, token)
    requires cur.Some? ==> cur.value in snap && cur.value.doctorId == d
    requires Walked(snap, d, low, passed, cur)
    modifies slots, tokens
    decreases ChainLeft(snap, cur)
    ensures slots.Valid() && tokens.Valid()
    ensures Rippled(snap, tokens0, d, slots.rows, tokens.rows, absorbed)
    ensures Cascade(snap, old(tokens.rows), cur, token, slots.rows, tokens.rows)
    ensures steps <= ChainLeft(snap, cur)
    ensures cur.Some? && !Full(cur.value) ==> absorbed
    ensures absorbed ==> AbsorbedFirst(snap, slots.rows, d, low)
    ensures !absorbed ==> ChainFullFrom(snap, d, low)
  {
    if cur.None? {
      WalkedAllFull(snap, d, low, passed);
      ExhaustEndsCarrying(snap, tokens0, d, slots.rows, tokens.rows, token);
      RequeueIsNoop(slots.rows, tokens.rows, token - 1);
      EvictedIsPatched(tokens.rows[token - 1]);
      var _ := tokens.Update(token, Some(None), Some(Waiting), None);
      return false, 0;
    }
    var slot := cur.value;
    var victim, next := RippleHop(slots, tokens, snap, tokens0, d, slot, token);
    if victim.None? {
      WalkedAbsorb(snap, slots.rows, d, low, passed, slot);
      return true, 1;
    }
    WalkStep(snap, d, low, passed, slot, next);
    if next.Some? {
      NextShrinks(snap, d, slot.startTime, next.value);
    }
    ghost var more;
    absorbed, more := RippleOn(slots, tokens, snap, tokens0, d, low, slot.startTime, next, victim.value);
    CascadeStep(snap, old(tokens.rows), slot, token, victim.value, next, slots.rows, tokens.rows);
    steps := 1 + more;
  }

  /** A ripple begins carrying a waiting token of the doctor with nothing changed. */
  lemma StartCarrying(snap: seq<Slot>, tokens0: seq<Token>, d: nat, carried: nat)
    requires Consistent(snap, tokens0)
    requires 1 <= carried <= |tokens0| && tokens0[carried - 1].status == Waiting && tokens0[carried - 1].doctorId == d
    ensures Carrying(snap, tokens0, d, snap, tokens0, carried)
  {
  }

  /** A ripple from a slot of the doctor begins with nothing walked past, and the slot
      leaves fewer of the doctor's slots after it than the doctor has. */
  lemma StartRipple(snap: seq<Slot>, tokens0: seq<Token>, d: nat, carried: nat, first: Slot)
    requires Carrying(snap, tokens0, d, snap, tokens0, carried)
    requires first in snap && first.doctorId == d
    ensures Walked(snap, d, first.startTime, first.startTime - 1, Some(first))
    ensures ChainLeft(snap, Some(first)) <= |DoctorSlots(snap, d)|
  {
    ChainShrinks(snap, snap, d, -1, first);
  }

  /** rippleInsert: the `Cascade` from `first`. The carried token is seated slot after
      slot; each full slot hands a lowest-priority token on to the next strictly later slot
      of the doctor, until a slot with room absorbs it or the chain runs out and the last
      carried token stays WAITING. At most one call per slot of the doctor runs, and the
      outcome is `Rippled`: either one slot of the doctor that had room takes one more token
      and no other slot changes, or no slot changes at all; tokens change only in slot and
      status. When `first` has room, it is the slot that absorbs the carried token and the
      only change; when another slot absorbs the cascade, it is the first slot with room
      from `first`'s start time on; when none does, every start time of the doctor from
      `first`'s on has a full slot. */
  method RippleInsert(slots: SlotTable, tokens: TokenTable, first: Option<Slot>, carried: nat)
    returns (ghost absorbed: bool, ghost steps: nat)
    requires slots.Valid() && tokens.Valid() && Consistent(slots.rows, tokens.rows)
    requires 1 <= carried <= |tokens.rows| && tokens.rows[carried - 1].status == Waiting
    requires first.Some? ==> first.value in slots.rows && first.value.doctorId == tokens.rows[carried - 1].doctorId
    modifies slots, tokens
    ensures slots.Valid() && tokens.Valid()
    ensures Cascade(old(slots.rows), old(tokens.rows), first, carried, slots.rows, tokens.rows)
    ensures var d := old(tokens.rows)[carried - 1].doctorId;
            && Rippled(old(slots.rows), old(tokens.rows), d, slots.rows, tokens.rows, absorbed)
            && steps <= |DoctorSlots(old(slots.rows), d)|
            && (first.None? ==> steps == 0 && !absorbed && tokens.rows == old(tokens.rows))
            && (first.Some? && !Full(first.value) ==>
                  && absorbed && 1 <= first.value.id <= |old(slots.rows)|
                  && slots.rows == SetUsed(old(slots.rows), first.value.id, first.value.used + 1)
                  && tokens.rows == SeatRow(old(tokens.rows), carried, first.value.id))
            && (first.Some? && absorbed ==> AbsorbedFirst(old(slots.rows), slots.rows, d, first.value.startTime))
            && (first.Some? && !absorbed ==> ChainFullFrom(old(slots.rows), d, first.value.startTime))
  {
    ghost var snap, tokens0 := slots.rows, tokens.rows;
    ghost var d := tokens.rows[carried - 1].doctorId;
    StartCarrying(snap, tokens0, d, carried);
    if first.None? {
      ExhaustEndsCarrying(snap, tokens0, d, snap, tokens0, carried);
      RequeueIsNoop(slots.rows, tokens.rows, carried - 1);
      EvictedIsPatched(tokens.rows[carried - 1]);
      var _ := tokens.Update(carried, Some(None), Some(Waiting), None);
      return false, 0;
    }
    StartRipple(snap, tokens0, d, carried, first.value);
    absorbed, steps := RippleOn(slots, tokens, snap, tokens0, d, first.value.startTime, first.value.startTime - 1,
                                first, carried);
  }

  /** Appending a row leaves every existing row where it was. */
  lemma AppendUntouched(tokens: seq<Token>, t: Token, d: nat)
    ensures Untouched(tokens, tokens + [t], d)
  {
    forall j | 0 <= j < |tokens|
      ensures (tokens + [t])[j] == tokens[j]
    {
    }
  }

  /** A ripple of a freshly appended WAITING token of the doctor, seen from before the
      append: every row, the new one included, changes only in slot and status, the old
      rows of other doctors and cancelled rows are untouched, and the doctor gains one
      confirmed token when the cascade is absorbed and one waiting token otherwise. */
  lemma AppendedRipple(slots0: seq<Slot>, tokens0: seq<Token>, t: Token, d: nat,
                       slots: seq<Slot>, tokens: seq<Token>, absorbed: bool)
    requires t.doctorId == d && t.status == Waiting
    requires Rippled(slots0, tokens0 + [t], d, slots, tokens, absorbed)
    ensures OnlyPlacementChanged(tokens0 + [t], tokens)
    ensures !absorbed ==> slots == slots0
    ensures absorbed ==> exists sid :: AbsorbedBy(slots0, slots, d, sid)
    ensures OnlyUsageChanged(slots0, slots, d)
    ensures Untouched(tokens0, tokens, d)
    ensures Count(tokens, WithStatus(d, Confirmed)) == Count(tokens0, WithStatus(d, Confirmed)) + (if absorbed then 1 else 0)
    ensures Count(tokens, WithStatus(d, Waiting)) == Count(tokens0, WithStatus(d, Waiting)) + (if absorbed then 0 else 1)
  {
    AppendUntouched(tokens0, t, d);
    UntouchedTrans(tokens0, tokens0 + [t], tokens, d);
    CountAppend(tokens0, t, WithStatus(d, Confirmed));
    CountAppend(tokens0, t, WithStatus(d, Waiting));
  }

  /** The part of insertEmergency after the doctor's slots are found: the WAITING
      EMERGENCY token is created and rippled in from `head`, an earliest slot of the doctor. */
  method AdmitEmergency(slots: SlotTable, tokens: TokenTable, patient: string, doctorId: nat, clock: int, head: Slot)
    returns (token: Token, ghost absorbed: bool)
    requires slots.Valid() && tokens.Valid() && Consistent(slots.rows, tokens.rows)
    requires Earliest(slots.rows, doctorId, head)
    modifies slots, tokens
    ensures slots.Valid() && tokens.Valid() && Consistent(slots.rows, tokens.rows)
    ensures token == Token(|old(tokens.rows)| + 1, patient, doctorId, None, Emergency,
                           GetBasePriority(TypeName(Emergency)) as real, Waiting)
    ensures !Full(head) ==>
              && absorbed && 1 <= head.id <= |old(slots.rows)|
              && slots.rows == SetUsed(old(slots.rows), head.id, head.used + 1)
              && tokens.rows == SeatRow(old(tokens.rows) + [token], token.id, head.id)
    ensures Cascade(old(slots.rows), old(tokens.rows) + [token], Some(head), token.id, slots.rows, tokens.rows)
    ensures absorbed ==> AbsorbedFirst(old(slots.rows), slots.rows, doctorId, 0)
    ensures !absorbed ==> ChainFullFrom(old(slots.rows), doctorId, 0)
    ensures OnlyPlacementChanged(old(tokens.rows) + [token], tokens.rows)
    ensures !absorbed ==> slots.rows == old(slots.rows)
    ensures absorbed ==> exists sid :: AbsorbedBy(old(slots.rows), slots.rows, doctorId, sid)
    ensures OnlyUsageChanged(old(slots.rows), slots.rows, doctorId)
    ensures Untouched(old(tokens.rows), tokens.rows, doctorId)
    ensures Count(tokens.rows, WithStatus(doctorId, Confirmed))
            == Count(old(tokens.rows), WithStatus(doctorId, Confirmed)) + (if absorbed then 1 else 0)
    ensures Count(tokens.rows, WithStatus(doctorId, Waiting))
            == Count(old(tokens.rows), WithStatus(doctorId, Waiting)) + (if absorbed then 0 else 1)
  {
    ghost var tokens0 := tokens.rows;
    var priority := CalculatePriority(TypeName(Emergency), clock, clock);
    token := tokens.Create(patient, doctorId, None, Emergency, priority, Some(Waiting));
    WaitlistKeepsConsistent(slots.rows, tokens0, token);
    ghost var tokens1 := tokens.rows;
    assert tokens1 == tokens0 + [token] && tokens1[token.id - 1] == token;
    ghost var steps;
    absorbed, steps := RippleInsert(slots, tokens, Some(head), token.id);
    AppendedRipple(old(slots.rows), tokens0, token, doctorId, slots.rows, tokens.rows, absorbed);
    if absorbed {
      EarliestAbsorbedFirst(old(slots.rows), slots.rows, doctorId, head);
    } else {
      EarliestChainFull(old(slots.rows), doctorId, head);
    }
  }

  /** insertEmergency: a WAITING EMERGENCY token is created and rippled in from the
      doctor's earliest slot. The store stays consistent and only the doctor's rows move.
      Either a slot absorbs the cascade and the doctor has one more confirmed token and as
      many waiting ones as before, or the chain runs out and the doctor has as many
      confirmed tokens and one more waiting one; in the first case only that slot's `used`
      changes, by one, and in the second no slot changes. Tokens, the new one included,
      change only in slot and status. The ripple starts at `first`, an earliest slot of the
      doctor: when it has room, the new token is CONFIRMED in it and nothing else changes;
      when the chain runs out, every start time of the doctor has a full slot. The returned
      row is the one created, not its state after the ripple. A doctor without slots is an
      error with no write. */
  method InsertEmergency(slots: SlotTable, tokens: TokenTable, patient: string, doctorId: nat, clock: int)
    returns (r: Result<Token>, ghost absorbed: bool, ghost first: Slot)
    requires slots.Valid() && tokens.Valid() && Consistent(slots.rows, tokens.rows)
    modifies slots, tokens
    ensures slots.Valid() && tokens.Valid() && Consistent(slots.rows, tokens.rows)
    ensures DoctorSlots(old(slots.rows), doctorId) == [] ==>
              r == Err(NoSlots) && slots.rows == old(slots.rows) && tokens.rows == old(tokens.rows)
    ensures DoctorSlots(old(slots.rows), doctorId) != [] ==>
              && r == Ok(Token(|old(tokens.rows)| + 1, patient, doctorId, None, Emergency,
                               GetBasePriority(TypeName(Emergency)) as real, Waiting))
              && Earliest(old(slots.rows), doctorId, first)
              && (!Full(first) ==>
                    && absorbed && 1 <= first.id <= |old(slots.rows)|
                    && slots.rows == SetUsed(old(slots.rows), first.id, first.used + 1)
                    && tokens.rows == SeatRow(old(tokens.rows) + [r.value], r.value.id, first.id))
              && Cascade(old(slots.rows), old(tokens.rows) + [r.value], Some(first), r.value.id, slots.rows, tokens.rows)
              && (absorbed ==> AbsorbedFirst(old(slots.rows), slots.rows, doctorId, 0))
              && (!absorbed ==> ChainFullFrom(old(slots.rows), doctorId, 0))
              && OnlyPlacementChanged(old(tokens.rows) + [r.value], tokens.rows)
              && (!absorbed ==> slots.rows == old(slots.rows))
              && (absorbed ==> exists sid :: AbsorbedBy(old(slots.rows), slots.rows, doctorId, sid))
              && OnlyUsageChanged(old(slots.rows), slots.rows, doctorId)
              && Untouched(old(tokens.rows), tokens.rows, doctorId)
              && Count(tokens.rows, WithStatus(doctorId, Confirmed))
                 == Count(old(tokens.rows), WithStatus(doctorId, Confirmed)) + (if absorbed then 1 else 0)
              && Count(tokens.rows, WithStatus(doctorId, Waiting))
                 == Count(old(tokens.rows), WithStatus(doctorId, Waiting)) + (if absorbed then 0 else 1)
  {
    absorbed := false;
    var ordered := slots.FindByDoctorId(doctorId);
    assert |ordered| == |multiset(DoctorSlots(slots.rows, doctorId))| == |DoctorSlots(slots.rows, doctorId)|;
    if |ordered| == 0 {
      return Err(NoSlots), false, Slot(0, doctorId, 0, 0, 0, 0);
    }
    var head := ordered[0];
    HeadEarliest(slots.rows, doctorId, ordered);
    first := head;
    var token;
    token, absorbed := AdmitEmergency(slots, tokens, patient, doctorId, clock, head);
    r := Ok(token);
  }

  // ---------------------------------------------------------------------------------------
  // Cancellation

  /** The doctor has no waiting token. */
  ghost predicate NoneWaiting(rows: seq<Token>, doctorId: nat)
  {
    forall j :: 0 <= j < |rows| ==> !Matches(rows[j], WithStatus(doctorId, Waiting))
  }

  /** `p` (an id) is a waiting token of the doctor that no waiting token of the doctor
      outranks: a valid first row of `findWaitingByDoctorId`. */
  ghost predicate HighestWaiting(rows: seq<Token>, doctorId: nat, p: nat)
  {
    && 1 <= p <= |rows| && Matches(rows[p - 1], WithStatus(doctorId, Waiting))
    && forall j :: 0 <= j < |rows| && Matches(rows[j], WithStatus(doctorId, Waiting)) ==> rows[j].priority <= rows[p - 1].priority
  }

  /** Token `k` (an id), confirmed in slot `sid`, is cancelled and nobody takes its place:
      the slot's `used` goes down by one and only row `k` changes, to CANCELLED. */
  ghost predicate Freed(slots: seq<Slot>, tokens: seq<Token>, k: nat, sid: nat, slots': seq<Slot>, tokens': seq<Token>)
  {
    && 1 <= k <= |tokens| && 1 <= sid <= |slots| && slots[sid - 1].used > 0
    && slots' == SetUsed(slots, sid, slots[sid - 1].used - 1)
    && tokens' == tokens[k - 1 := Withdrawn(tokens[k - 1])]
  }

  /** Token `k` (an id), confirmed in slot `sid`, is cancelled and the highest-priority
      waiting token `p` of its doctor is seated in `sid` instead: no slot changes. */
  ghost predicate Handed(slots: seq<Slot>, tokens: seq<Token>, k: nat, sid: nat, p: nat, slots': seq<Slot>, tokens': seq<Token>)
  {
    && 1 <= k <= |tokens| && HighestWaiting(tokens, tokens[k - 1].doctorId, p)
    && slots' == slots
    && tokens' == tokens[p - 1 := Seated(tokens[p - 1], sid)][k - 1 := Withdrawn(tokens[k - 1])]
  }

  /** A confirmed token of a consistent store sits in a slot of its doctor whose `used`
      counts it. */
  lemma SeatOf(slots: seq<Slot>, tokens: seq<Token>, k: nat)
    requires Consistent(slots, tokens) && k < |tokens| && tokens[k].status == Confirmed
    ensures var sid := tokens[k].slotId;
            sid.Some? && 1 <= sid.value <= |slots| && slots[sid.value - 1].used > 0
  {
    assert PlacedAt(tokens, slots, k);
    LeaveUsage(slots, tokens, tokens[k].slotId.value, k, Withdrawn(tokens[k]));
  }

  /** Cancelling a waiting token touches no slot count and keeps the store consistent. */
  lemma CancelWaiting(slots: seq<Slot>, tokens: seq<Token>, k: nat)
    requires Consistent(slots, tokens) && k < |tokens| && tokens[k].status == Waiting
    ensures Consistent(slots, tokens[k := Withdrawn(tokens[k])])
  {
    var tokens' := tokens[k := Withdrawn(tokens[k])];
    forall i | 0 <= i < |slots|
      ensures UsageAt(slots, tokens', i)
    {
      assert UsageAt(slots, tokens, i);
      CountUpdate(tokens, k, Withdrawn(tokens[k]), InSlot(i + 1, Confirmed));
    }
    ReplacePlaced(tokens, slots, k, Withdrawn(tokens[k]));
  }

  /** Cancelling a confirmed token with nobody to promote keeps the store consistent. */
  lemma CancelFreeing(slots: seq<Slot>, tokens: seq<Token>, k: nat, slots': seq<Slot>, tokens': seq<Token>)
    requires Consistent(slots, tokens) && 1 <= k <= |tokens| && tokens[k - 1].status == Confirmed
    requires tokens[k - 1].slotId.Some? && Freed(slots, tokens, k, tokens[k - 1].slotId.value, slots', tokens')
    ensures Consistent(slots', tokens')
  {
    var sid := tokens[k - 1].slotId.value;
    LeaveUsage(slots, tokens, sid, k - 1, Withdrawn(tokens[k - 1]));
    ReplacePlaced(tokens, slots, k - 1, Withdrawn(tokens[k - 1]));
    SetUsedPlaced(tokens[k - 1 := Withdrawn(tokens[k - 1])], slots, sid, slots[sid - 1].used - 1);
  }

  /** Cancelling a confirmed token and promoting a waiting token of the same doctor into
      its slot keeps the store consistent. */
  lemma CancelPromoting(slots: seq<Slot>, tokens: seq<Token>, k: nat, p: nat, slots': seq<Slot>, tokens': seq<Token>)
    requires Consistent(slots, tokens) && 1 <= k <= |tokens| && tokens[k - 1].status == Confirmed
    requires tokens[k - 1].slotId.Some? && Handed(slots, tokens, k, tokens[k - 1].slotId.value, p, slots', tokens')
    ensures Consistent(slots', tokens')
  {
    assert PlacedAt(tokens, slots, k - 1);
    var sid := tokens[k - 1].slotId.value;
    var u := slots[sid - 1].used;
    var seated := Seated(tokens[p - 1], sid);
    var promoted := tokens[p - 1 := seated];
    JoinUsage(slots, tokens, sid, p - 1, seated);
    LeaveUsage(SetUsed(slots, sid, u + 1), promoted, sid, k - 1, Withdrawn(tokens[k - 1]));
    SetUsedRestore(slots, sid, u + 1);
    ReplacePlaced(tokens, slots, p - 1, seated);
    ReplacePlaced(promoted, slots, k - 1, Withdrawn(tokens[k - 1]));
  }

  /** Cancelling with nobody to promote: the doctor has one confirmed token fewer, as many
      waiting tokens, and one cancelled token more. */
  lemma FreedCounts(slots: seq<Slot>, tokens: seq<Token>, k: nat, sid: nat, slots': seq<Slot>, tokens': seq<Token>)
    requires Freed(slots, tokens, k, sid, slots', tokens') && tokens[k - 1].status == Confirmed
    ensures var d := tokens[k - 1].doctorId;
            && Count(tokens', WithStatus(d, Confirmed)) + 1 == Count(tokens, WithStatus(d, Confirmed))
            && Count(tokens', WithStatus(d, Waiting)) == Count(tokens, WithStatus(d, Waiting))
            && Count(tokens', WithStatus(d, Cancelled)) == Count(tokens, WithStatus(d, Cancelled)) + 1
  {
    var d := tokens[k - 1].doctorId;
    CountUpdate(tokens, k - 1, Withdrawn(tokens[k - 1]), WithStatus(d, Confirmed));
    CountUpdate(tokens, k - 1, Withdrawn(tokens[k - 1]), WithStatus(d, Waiting));
    CountUpdate(tokens, k - 1, Withdrawn(tokens[k - 1]), WithStatus(d, Cancelled));
  }

  /** Cancelling with a promotion: the doctor has as many confirmed tokens, one waiting token
      fewer, and one cancelled token more. */
  lemma HandedCounts(slots: seq<Slot>, tokens: seq<Token>, k: nat, sid: nat, p: nat, slots': seq<Slot>, tokens': seq<Token>)
    requires Handed(slots, tokens, k, sid, p, slots', tokens') && tokens[k - 1].status == Confirmed
    ensures var d := tokens[k - 1].doctorId;
            && Count(tokens', WithStatus(d, Confirmed)) == Count(tokens, WithStatus(d, Confirmed))
            && Count(tokens', WithStatus(d, Waiting)) + 1 == Count(tokens, WithStatus(d, Waiting))
            && Count(tokens', WithStatus(d, Cancelled)) == Count(tokens, WithStatus(d, Cancelled)) + 1
  {
    var d := tokens[k - 1].doctorId;
    var seated := Seated(tokens[p - 1], sid);
    var mid := tokens[p - 1 := seated];
    assert mid[k - 1] == tokens[k - 1];
    CountUpdate(tokens, p - 1, seated, WithStatus(d, Confirmed));
    CountUpdate(tokens, p - 1, seated, WithStatus(d, Waiting));
    CountUpdate(tokens, p - 1, seated, WithStatus(d, Cancelled));
    CountUpdate(mid, k - 1, Withdrawn(tokens[k - 1]), WithStatus(d, Confirmed));
    CountUpdate(mid, k - 1, Withdrawn(tokens[k - 1]), WithStatus(d, Waiting));
    CountUpdate(mid, k - 1, Withdrawn(tokens[k - 1]), WithStatus(d, Cancelled));
  }

  /** The first row of the waiting query, as a row id, is a highest-priority waiting token. */
  lemma FirstWaiting(rows: seq<Token>, doctorId: nat, waiting: seq<Token>)
    requires TokensWellFormed(rows) && waiting != []
    requires forall t :: t in waiting <==> t in rows && t.doctorId == doctorId && t.status == Waiting
    requires forall i, j :: 0 <= i < j < |waiting| ==> waiting[i].priority >= waiting[j].priority
    ensures HighestWaiting(rows, doctorId, waiting[0].id) && rows[waiting[0].id - 1] == waiting[0]
  {
    TokenRow(rows, waiting[0]);
    forall j | 0 <= j < |rows| && Matches(rows[j], WithStatus(doctorId, Waiting))
      ensures rows[j].priority <= waiting[0].priority
    {
      assert rows[j] in waiting;
      var m :| 0 <= m < |waiting| && waiting[m] == rows[j];
      if m > 0 {
        assert waiting[0].priority >= waiting[m].priority;
      }
    }
  }

  /** An empty answer to the waiting query means the doctor has no waiting token. */
  lemma NoWaiting(rows: seq<Token>, doctorId: nat, waiting: seq<Token>)
    requires waiting == []
    requires forall t :: t in waiting <==> t in rows && t.doctorId == doctorId && t.status == Waiting
    ensures NoneWaiting(rows, doctorId)
  {
    forall j | 0 <= j < |rows|
      ensures !Matches(rows[j], WithStatus(doctorId, Waiting))
    {
      assert rows[j] in rows;
    }
  }

  /** Seats the token `p` in slot `sid` and counts it there: the promotion statements of
      cancelToken. */
  method Promote(slots: SlotTable, tokens: TokenTable, p: Token, sid: nat)
    requires slots.Valid() && tokens.Valid() && p in tokens.rows
    requires 1 <= sid <= |slots.rows| && slots.rows[sid - 1].used + 1 <= slots.rows[sid - 1].capacity + OVERFLOW_MARGIN
    modifies slots, tokens
    ensures slots.Valid() && tokens.Valid()
    ensures 1 <= p.id <= |old(tokens.rows)| && old(tokens.rows)[p.id - 1] == p
    ensures tokens.rows == old(tokens.rows)[p.id - 1 := Seated(p, sid)]
    ensures slots.rows == SetUsed(old(slots.rows), sid, old(slots.rows)[sid - 1].used + 1)
  {
    TokenRow(tokens.rows, p);
    var _ := tokens.Update(p.id, Some(Some(sid)), Some(Confirmed), None);
    var _ := slots.IncrementUsage(sid);
  }

  /** The slot half of cancelling the confirmed token `tokenId` of slot `sid`, before its own
      row is touched: the slot's `used` goes down by one, and if the doctor has a waiting
      token a highest-priority one is seated in the slot and `used` goes back up. */
  method ReleaseSeat(slots: SlotTable, tokens: TokenTable, tokenId: nat, sid: nat) returns (ghost promoted: Option<nat>)
    requires slots.Valid() && tokens.Valid()
    requires 1 <= tokenId <= |tokens.rows| && tokens.rows[tokenId - 1].status == Confirmed
    requires 1 <= sid <= |slots.rows| && slots.rows[sid - 1].used > 0
    modifies slots, tokens
    ensures slots.Valid() && tokens.Valid()
    ensures var d := old(tokens.rows)[tokenId - 1].doctorId;
            && (promoted.None? <==> NoneWaiting(old(tokens.rows), d))
            && (promoted.None? ==>
                  slots.rows == SetUsed(old(slots.rows), sid, old(slots.rows)[sid - 1].used - 1) && tokens.rows == old(tokens.rows))
            && (promoted.Some? ==>
                  && HighestWaiting(old(tokens.rows), d, promoted.value)
                  && slots.rows == old(slots.rows)
                  && tokens.rows == old(tokens.rows)[promoted.value - 1 := Seated(old(tokens.rows)[promoted.value - 1], sid)])
  {
    ghost var slots0, tokens0 := slots.rows, tokens.rows;
    var d := tokens.rows[tokenId - 1].doctorId;
    ghost var u := slots0[sid - 1].used;
    var _ := slots.DecrementUsage(sid);
    var waiting := tokens.FindWaitingByDoctorId(d);
    if |waiting| > 0 {
      var toPromote := waiting[0];
      FirstWaiting(tokens0, d, waiting);
      Promote(slots, tokens, toPromote, sid);
      SetUsedRestore(slots0, sid, u - 1);
      promoted := Some(toPromote.id);
    } else {
      NoWaiting(tokens0, d, waiting);
      promoted := None;
    }
  }

  /** cancelToken: a missing or already cancelled token is an error with no write. A waiting
      token is cancelled and no slot changes. A confirmed token frees its slot; if the doctor
      has a waiting token, a highest-priority one is promoted into that slot and the slot's
      `used` ends where it was, otherwise it ends one lower. The token ends CANCELLED with
      its slot kept, and the store stays consistent. */
  method CancelToken(slots: SlotTable, tokens: TokenTable, tokenId: nat)
    returns (r: Result<string>, ghost promoted: Option<nat>)
    requires slots.Valid() && tokens.Valid() && Consistent(slots.rows, tokens.rows)
    modifies slots, tokens
    ensures slots.Valid() && tokens.Valid() && Consistent(slots.rows, tokens.rows)
    ensures !(1 <= tokenId <= |old(tokens.rows)|) ==>
              r == Err(TokenNotFound) && slots.rows == old(slots.rows) && tokens.rows == old(tokens.rows)
    ensures 1 <= tokenId <= |old(tokens.rows)| && old(tokens.rows)[tokenId - 1].status == Cancelled ==>
              r == Err(AlreadyCancelled) && slots.rows == old(slots.rows) && tokens.rows == old(tokens.rows)
    ensures 1 <= tokenId <= |old(tokens.rows)| && old(tokens.rows)[tokenId - 1].status == Waiting ==>
              && r == Ok(CANCELLED_MESSAGE) && promoted.None?
              && slots.rows == old(slots.rows)
              && tokens.rows == old(tokens.rows)[tokenId - 1 := Withdrawn(old(tokens.rows)[tokenId - 1])]
    ensures 1 <= tokenId <= |old(tokens.rows)| && old(tokens.rows)[tokenId - 1].status == Confirmed ==>
              var c := old(tokens.rows)[tokenId - 1];
              && r == Ok(CANCELLED_MESSAGE) && c.slotId.Some?
              && (promoted.None? <==> NoneWaiting(old(tokens.rows), c.doctorId))
              && (promoted.None? ==> Freed(old(slots.rows), old(tokens.rows), tokenId, c.slotId.value, slots.rows, tokens.rows))
              && (promoted.Some? ==>
                    Handed(old(slots.rows), old(tokens.rows), tokenId, c.slotId.value, promoted.value, slots.rows, tokens.rows))
  {
    ghost var slots0, tokens0 := slots.rows, tokens.rows;
    promoted := None;
    var found := tokens.FindById(tokenId);
    if found.None? {
      return Err(TokenNotFound), None;
    }
    var token := found.value;
    assert token == tokens0[tokenId - 1];
    if token.status == Cancelled {
      return Err(AlreadyCancelled), None;
    }
    if token.status == Confirmed && token.slotId.Some? && token.slotId.value != 0 {
      SeatOf(slots0, tokens0, tokenId - 1);
      promoted := ReleaseSeat(slots, tokens, tokenId, token.slotId.value);
      ghost var released := tokens.rows;
      var _ := tokens.Cancel(tokenId);
      if promoted.Some? {
        assert released[tokenId - 1] == token;
        CancelPromoting(slots0, tokens0, tokenId, promoted.value, slots.rows, tokens.rows);
      } else {
        CancelFreeing(slots0, tokens0, tokenId, slots.rows, tokens.rows);
      }
    } else {
      assert token.status == Waiting by {
        assert PlacedAt(tokens0, slots0, tokenId - 1);
      }
      CancelWaiting(slots0, tokens0, tokenId - 1);
      var _ := tokens.Cancel(tokenId);
    }
    r := Ok(CANCELLED_MESSAGE);
  }

  // ---------------------------------------------------------------------------------------
  // Summary

  /** getAllocationSummary: the doctor's slots with their availability, in start-time order,
      and the doctor's token counts; nothing is written. */
  method GetAllocationSummary(slots: SlotTable, tokens: TokenTable, doctorId: nat) returns (r: Summary)
    requires slots.Valid() && tokens.Valid()
    ensures multiset(SlotsOf(r.slots)) == multiset(DoctorSlots(slots.rows, doctorId))
    ensures forall i, j :: 0 <= i < j < |r.slots| ==> r.slots[i].slot.startTime <= r.slots[j].slot.startTime
    ensures forall i :: 0 <= i < |r.slots| ==>
              r.slots[i].available == r.slots[i].slot.capacity - r.slots[i].slot.used
              && (r.slots[i].hasSpace <==> r.slots[i].slot.used < r.slots[i].slot.capacity)
    ensures r.statistics.confirmed == Count(tokens.rows, WithStatus(doctorId, Confirmed))
    ensures r.statistics.waiting == Count(tokens.rows, WithStatus(doctorId, Waiting))
    ensures r.statistics.cancelled == Count(tokens.rows, WithStatus(doctorId, Cancelled))
    ensures r.statistics.confirmed + r.statistics.waiting + r.statistics.cancelled == r.statistics.total
    ensures r.statistics.total == Count(tokens.rows, OfDoctor(doctorId))
    ensures r.statistics.emergency == Count(tokens.rows, OfType(doctorId, Emergency))
    ensures r.statistics.priority == Count(tokens.rows, OfType(doctorId, Priority))
    ensures r.statistics.followup == Count(tokens.rows, OfType(doctorId, Followup))
    ensures r.statistics.online == Count(tokens.rows, OfType(doctorId, Online))
    ensures r.statistics.walkin == Count(tokens.rows, OfType(doctorId, Walkin))
    ensures r.statistics.emergency + r.statistics.priority + r.statistics.followup
            + r.statistics.online + r.statistics.walkin == r.statistics.total
  {
    var available := slots.FindAllWithAvailability(doctorId);
    var stats := tokens.GetStatsByDoctorId(doctorId);
    r := Summary(available, stats);
  }
}
