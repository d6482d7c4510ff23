/** The slots table and the statements the engine runs against it (models/Slot.js). */
module SlotModel {
  import opened Schema
  import opened Sorting

  /** One row of the slots table. Start and end times are totally ordered keys. */
  datatype Slot = Slot(id: nat, doctorId: nat, startTime: nat, endTime: nat, capacity: nat, used: nat)

  /** What `findAllWithAvailability` adds to each row. */
  datatype Availability = Availability(slot: Slot, available: int, hasSpace: bool)

  /** The table's CHECK constraint allows `used` to exceed `capacity` by this much. */
  const OVERFLOW_MARGIN: nat := 5

  /** SERIAL ids 1, 2, ... in insertion order, and CHECK (used >= 0 AND used <= capacity + 5). */
  ghost predicate SlotsWellFormed(rows: seq<Slot>)
  {
    forall i :: 0 <= i < |rows| ==> rows[i].id == i + 1 && rows[i].used <= rows[i].capacity + OVERFLOW_MARGIN
  }

  /** The ordering key of `ORDER BY start_time`. */
  function StartKey(s: Slot): real
  {
    s.startTime as real
  }

  /** The doctor's rows whose start time is strictly after `t`, in table order. */
  function SlotsAfter(rows: seq<Slot>, doctorId: nat, t: int): (r: seq<Slot>)
    ensures forall s :: s in r <==> s in rows && s.doctorId == doctorId && s.startTime > t
  {
    if rows == [] then []
    else if rows[0].doctorId == doctorId && rows[0].startTime > t then
      [rows[0]] + SlotsAfter(rows[1..], doctorId, t)
    else
      SlotsAfter(rows[1..], doctorId, t)
  }

  /** All of the doctor's rows, in table order: the doctor's chain before it is sorted. */
  function DoctorSlots(rows: seq<Slot>, doctorId: nat): (r: seq<Slot>)
    ensures forall s :: s in r <==> s in rows && s.doctorId == doctorId
  {
    SlotsAfter(rows, doctorId, -1)
  }

  /** `rows` with the `used` column of the row with id `id` set to `used`. */
  function SetUsed(rows: seq<Slot>, id: nat, used: nat): (r: seq<Slot>)
    requires 1 <= id <= |rows|
    ensures |r| == |rows| && r[id - 1] == rows[id - 1].(used := used)
    ensures forall i :: 0 <= i < |rows| && i != id - 1 ==> r[i] == rows[i]
  {
    rows[id - 1 := rows[id - 1].(used := used)]
  }

  /** A later cut-off leaves no more of the doctor's slots after it. */
  lemma {:induction false} SlotsAfterMonotone(rows: seq<Slot>, doctorId: nat, t: int, t': int)
    requires t <= t'
    ensures |SlotsAfter(rows, doctorId, t')| <= |SlotsAfter(rows, doctorId, t)|
  {
    if rows != [] {
      SlotsAfterMonotone(rows[1..], doctorId, t, t');
    }
  }

  /** Moving the cut-off past one of the doctor's slots strictly shrinks the slots after it:
      the measure that makes the ripple terminate. */
  lemma {:induction false} SlotsAfterShrinks(rows: seq<Slot>, doctorId: nat, t: int, t': int, k: nat)
    requires t <= t' && k < |rows|
    requires rows[k].doctorId == doctorId && t < rows[k].startTime <= t'
    ensures |SlotsAfter(rows, doctorId, t')| < |SlotsAfter(rows, doctorId, t)|
  {
    if k == 0 {
      SlotsAfterMonotone(rows[1..], doctorId, t, t');
    } else {
      SlotsAfterShrinks(rows[1..], doctorId, t, t', k - 1);
    }
  }

  /** The availability columns that `findAllWithAvailability` computes for one row. */
  function Describe(s: Slot): (a: Availability)
    ensures a.slot == s && a.available + s.used == s.capacity
    ensures a.hasSpace <==> a.available > 0
  {
    Availability(s, s.capacity - s.used, s.used < s.capacity)
  }

  /** The slot rows of an availability listing. */
  function SlotsOf(r: seq<Availability>): seq<Slot>
  {
    seq(|r|, i requires 0 <= i < |r| => r[i].slot)
  }

  class SlotTable {
    var rows: seq<Slot>

    ghost predicate Valid()
      reads this
    {
      SlotsWellFormed(rows)
    }

    constructor ()
      ensures Valid() && rows == []
    {
      rows := [];
    }

    /** Inserts a slot and returns it: a new row with the next id and `used` at its default 0. */
    method Create(doctorId: nat, startTime: nat, endTime: nat, capacity: nat) returns (row: Slot)
      requires Valid()
      modifies this
      ensures Valid()
      ensures row == Slot(|old(rows)| + 1, doctorId, startTime, endTime, capacity, 0)
      ensures rows == old(rows) + [row]
    {
      row := Slot(|rows| + 1, doctorId, startTime, endTime, capacity, 0);
      rows := rows + [row];
    }

    /** The slot with the given id, if there is one. */
    function FindById(id: nat): (r: Option<Slot>)
      requires Valid()
      reads this
      ensures r.Some? <==> exists i :: 0 <= i < |rows| && rows[i].id == id
      ensures r.Some? ==> r.value in rows && r.value.id == id
    {
      if 1 <= id <= |rows| then Some(rows[id - 1]) else None
    }

    /** The doctor's slots, earliest start first: exactly the doctor's rows,
        in non-decreasing start time (rows with equal start times in any order). */
    method FindByDoctorId(doctorId: nat) returns (r: seq<Slot>)
      requires Valid()
      ensures multiset(r) == multiset(DoctorSlots(rows, doctorId))
      ensures forall s :: s in r <==> s in rows && s.doctorId == doctorId
      ensures forall i, j :: 0 <= i < j < |r| ==> r[i].startTime <= r[j].startTime
    {
      var mine := DoctorSlots(rows, doctorId);
      r := SortBy(mine, StartKey);
      forall s
        ensures s in r <==> s in mine
      {
        assert s in r <==> s in multiset(r);
        assert s in mine <==> s in multiset(mine);
      }
    }

    /** The doctor's next slot, at most one row, earliest start first among those starting later:
        a row of the doctor with the least start time strictly after `afterStartTime`, and none
        exactly when the doctor has no such row (rows with an equal start time are skipped). */
    method FindNextSlot(doctorId: nat, afterStartTime: nat) returns (r: Option<Slot>)
      requires Valid()
      ensures r.None? <==> forall i :: 0 <= i < |rows| && rows[i].doctorId == doctorId ==> rows[i].startTime <= afterStartTime
      ensures r.Some? ==> r.value in rows && r.value.doctorId == doctorId && r.value.startTime > afterStartTime
      ensures r.Some? ==> forall i :: 0 <= i < |rows| && rows[i].doctorId == doctorId && rows[i].startTime > afterStartTime ==>
                            r.value.startTime <= rows[i].startTime
    {
      var later := SlotsAfter(rows, doctorId, afterStartTime);
      var ordered := SortBy(later, StartKey);
      if ordered == [] {
        assert |later| == |multiset(later)| == |multiset(ordered)| == 0;
        r := None;
      } else {
        r := Some(ordered[0]);
        assert ordered[0] in multiset(later);
        forall i | 0 <= i < |rows| && rows[i].doctorId == doctorId && rows[i].startTime > afterStartTime
          ensures ordered[0].startTime <= rows[i].startTime
        {
          assert rows[i] in later;
          assert rows[i] in multiset(ordered);
          var m :| 0 <= m < |ordered| && ordered[m] == rows[i];
          if m > 0 {
            assert StartKey(ordered[0]) <= StartKey(ordered[m]);
          }
        }
      }
    }

    /** Sets the slot's `used` to a given value and returns the row: the value is checked against
        the CHECK constraint; nothing but that row's `used` changes. */
    method UpdateUsage(id: nat, used: int) returns (r: UpdateResult<Slot>)
      requires Valid()
      modifies this
      ensures Valid()
      ensures !(1 <= id <= |old(rows)|) ==> r == NoRow && rows == old(rows)
      ensures 1 <= id <= |old(rows)| && !(0 <= used <= old(rows)[id - 1].capacity + OVERFLOW_MARGIN) ==>
                r == CheckViolation && rows == old(rows)
      ensures 1 <= id <= |old(rows)| && 0 <= used <= old(rows)[id - 1].capacity + OVERFLOW_MARGIN ==>
                rows == SetUsed(old(rows), id, used) && r == Row(rows[id - 1])
    {
      if !(1 <= id <= |rows|) {
        r := NoRow;
      } else if !(0 <= used <= rows[id - 1].capacity + OVERFLOW_MARGIN) {
        r := CheckViolation;
      } else {
        rows := SetUsed(rows, id, used);
        r := Row(rows[id - 1]);
      }
    }

    /** Adds one to the slot's `used` and returns the row. */
    method IncrementUsage(id: nat) returns (r: UpdateResult<Slot>)
      requires Valid()
      modifies this
      ensures Valid()
      ensures !(1 <= id <= |old(rows)|) ==> r == NoRow && rows == old(rows)
      ensures 1 <= id <= |old(rows)| && old(rows)[id - 1].used + 1 > old(rows)[id - 1].capacity + OVERFLOW_MARGIN ==>
                r == CheckViolation && rows == old(rows)
      ensures 1 <= id <= |old(rows)| && old(rows)[id - 1].used + 1 <= old(rows)[id - 1].capacity + OVERFLOW_MARGIN ==>
                rows == SetUsed(old(rows), id, old(rows)[id - 1].used + 1) && r == Row(rows[id - 1])
    {
      if !(1 <= id <= |rows|) {
        r := NoRow;
      } else if rows[id - 1].used + 1 > rows[id - 1].capacity + OVERFLOW_MARGIN {
        r := CheckViolation;
      } else {
        rows := SetUsed(rows, id, rows[id - 1].used + 1);
        r := Row(rows[id - 1]);
      }
    }

    /** Takes one off the slot's `used` and returns the row, as a guarded
        decrement that matches no row, and changes nothing, when `used` is already 0. */
    method DecrementUsage(id: nat) returns (r: UpdateResult<Slot>)
      requires Valid()
      modifies this
      ensures Valid()
      ensures !(1 <= id <= |old(rows)| && old(rows)[id - 1].used > 0) ==> r == NoRow && rows == old(rows)
      ensures 1 <= id <= |old(rows)| && old(rows)[id - 1].used > 0 ==>
                rows == SetUsed(old(rows), id, old(rows)[id - 1].used - 1) && r == Row(rows[id - 1])
    {
      if 1 <= id <= |rows| && rows[id - 1].used > 0 {
        rows := SetUsed(rows, id, rows[id - 1].used - 1);
        r := Row(rows[id - 1]);
      } else {
        r := NoRow;
      }
    }

    /** The doctor's rows with `available = capacity - used` and `has_space = used < capacity`,
        ordered by start time. */
    method FindAllWithAvailability(doctorId: nat) returns (r: seq<Availability>)
      requires Valid()
      ensures multiset(SlotsOf(r)) == multiset(DoctorSlots(rows, doctorId))
      ensures forall i, j :: 0 <= i < j < |r| ==> r[i].slot.startTime <= r[j].slot.startTime
      ensures forall i :: 0 <= i < |r| ==>
                r[i].available == r[i].slot.capacity - r[i].slot.used && (r[i].hasSpace <==> r[i].slot.used < r[i].slot.capacity)
    {
      var ordered := FindByDoctorId(doctorId);
      r := seq(|ordered|, i requires 0 <= i < |ordered| => Describe(ordered[i]));
      assert SlotsOf(r) == ordered;
    }
  }
}
