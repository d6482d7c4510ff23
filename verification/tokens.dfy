/** The tokens table and the statements the engine runs against it (models/Token.js). */
module TokenModel {
  import opened Schema
  import opened Sorting

  /** One row of the tokens table (timestamps left out). `slotId` is None for SQL NULL. */
  datatype Token = Token(id: nat, patient: string, doctorId: nat, slotId: Option<nat>,
                         ttype: TokenType, priority: real, status: Status)

  /** The per-doctor counts of `getStatsByDoctorId`. */
  datatype Stats = Stats(confirmed: nat, waiting: nat, cancelled: nat, total: nat,
                         emergency: nat, priority: nat, followup: nat, online: nat, walkin: nat)

  /** SERIAL ids 1, 2, ... in insertion order. */
  ghost predicate TokensWellFormed(rows: seq<Token>)
  {
    forall i :: 0 <= i < |rows| ==> rows[i].id == i + 1
  }

  /** The WHERE clauses the statements and the engine's invariants filter tokens by. */
  datatype TokenFilter =
    | InSlot(slotId: nat, status: Status)
    | WithStatus(doctorId: nat, status: Status)
    | OfType(doctorId: nat, ttype: TokenType)
    | OfDoctor(doctorId: nat)

  predicate Matches(t: Token, f: TokenFilter)
  {
    match f
    case InSlot(sid, st) => t.slotId == Some(sid) && t.status == st
    case WithStatus(d, st) => t.doctorId == d && t.status == st
    case OfType(d, ty) => t.doctorId == d && t.ttype == ty
    case OfDoctor(d) => t.doctorId == d
  }

  /** The rows a filter selects, in table order. */
  function Select(rows: seq<Token>, f: TokenFilter): (r: seq<Token>)
    ensures forall t :: t in r <==> t in rows && Matches(t, f)
  {
    if rows == [] then []
    else (if Matches(rows[0], f) then [rows[0]] else []) + Select(rows[1..], f)
  }

  /** COUNT(*) FILTER (WHERE f). */
  function Count(rows: seq<Token>, f: TokenFilter): nat
  {
    if rows == [] then 0
    else Count(rows[..|rows| - 1], f) + (if Matches(rows[|rows| - 1], f) then 1 else 0)
  }

  /** The ordering keys of `ORDER BY priority` and `ORDER BY priority DESC`. */
  function PriorityKey(t: Token): real
  {
    t.priority
  }

  function PriorityDescKey(t: Token): real
  {
    -t.priority
  }

  /** The row `update` writes: each supplied field replaced, every other column kept. */
  function Patched(t: Token, slotId: Option<Option<nat>>, status: Option<Status>, priority: Option<real>): (r: Token)
    ensures r.id == t.id && r.patient == t.patient && r.doctorId == t.doctorId && r.ttype == t.ttype
    ensures r.slotId == (if slotId.Some? then slotId.value else t.slotId)
    ensures r.status == (if status.Some? then status.value else t.status)
    ensures r.priority == (if priority.Some? then priority.value else t.priority)
  {
    var t1 := if slotId.Some? then t.(slotId := slotId.value) else t;
    var t2 := if status.Some? then t1.(status := status.value) else t1;
    if priority.Some? then t2.(priority := priority.value) else t2
  }

  /** The row `cancel` writes: the status becomes CANCELLED and the slot is kept as history. */
  function Withdrawn(t: Token): Token
  {
    t.(status := Cancelled)
  }

  /** A filter that matches no row counts zero. */
  lemma {:induction false} CountNone(rows: seq<Token>, f: TokenFilter)
    requires forall j :: 0 <= j < |rows| ==> !Matches(rows[j], f)
    ensures Count(rows, f) == 0
  {
    if rows != [] {
      CountNone(rows[..|rows| - 1], f);
    }
  }

  /** Appending a row adds one to every count whose filter it matches. */
  lemma CountAppend(rows: seq<Token>, t: Token, f: TokenFilter)
    ensures Count(rows + [t], f) == Count(rows, f) + (if Matches(t, f) then 1 else 0)
  {
    assert (rows + [t])[..|rows|] == rows;
  }

  /** Rewriting one row moves it out of the counts it matched and into those it now matches. */
  lemma {:induction false} CountUpdate(rows: seq<Token>, i: nat, t: Token, f: TokenFilter)
    requires i < |rows|
    ensures Count(rows[i := t], f) == Count(rows, f) - (if Matches(rows[i], f) then 1 else 0) + (if Matches(t, f) then 1 else 0)
  {
    var n := |rows| - 1;
    if i == n {
      assert rows[i := t][..n] == rows[..n];
    } else {
      CountUpdate(rows[..n], i, t, f);
      assert rows[i := t][..n] == rows[..n][i := t];
    }
  }

  /** The three statuses partition a doctor's tokens. */
  lemma {:induction false} StatusPartition(rows: seq<Token>, doctorId: nat)
    ensures Count(rows, WithStatus(doctorId, Confirmed)) + Count(rows, WithStatus(doctorId, Waiting))
            + Count(rows, WithStatus(doctorId, Cancelled)) == Count(rows, OfDoctor(doctorId))
  {
    if rows != [] {
      StatusPartition(rows[..|rows| - 1], doctorId);
    }
  }

  /** The five types partition a doctor's tokens. */
  lemma {:induction false} TypePartition(rows: seq<Token>, doctorId: nat)
    ensures Count(rows, OfType(doctorId, Emergency)) + Count(rows, OfType(doctorId, Priority))
            + Count(rows, OfType(doctorId, Followup)) + Count(rows, OfType(doctorId, Online))
            + Count(rows, OfType(doctorId, Walkin)) == Count(rows, OfDoctor(doctorId))
  {
    if rows != [] {
      TypePartition(rows[..|rows| - 1], doctorId);
    }
  }

  class TokenTable {
    var rows: seq<Token>

    ghost predicate Valid()
      reads this
    {
      TokensWellFormed(rows)
    }

    constructor ()
      ensures Valid() && rows == []
    {
      rows := [];
    }

    /** Inserts a token and returns it: a falsy slot id is stored as NULL and an omitted
        status takes the column default CONFIRMED. */
    method Create(patient: string, doctorId: nat, slotId: Option<nat>, ttype: TokenType,
                  priority: real, status: Option<Status>) returns (row: Token)
      requires Valid()
      modifies this
      ensures Valid()
      ensures rows == old(rows) + [row]
      ensures row.id == |old(rows)| + 1 && row.patient == patient && row.doctorId == doctorId
      ensures row.ttype == ttype && row.priority == priority
      ensures row.slotId == (if slotId == Some(0) then None else slotId)
      ensures row.status == (if status.Some? then status.value else Confirmed)
    {
      var slot := if slotId == Some(0) then None else slotId;
      var st := if status.Some? then status.value else Confirmed;
      row := Token(|rows| + 1, patient, doctorId, slot, ttype, priority, st);
      rows := rows + [row];
    }

    /** The token with the given id, if there is one. */
    function FindById(id: nat): (r: Option<Token>)
      requires Valid()
      reads this
      ensures r.Some? <==> exists i :: 0 <= i < |rows| && rows[i].id == id
      ensures r.Some? ==> r.value in rows && r.value.id == id
    {
      if 1 <= id <= |rows| then Some(rows[id - 1]) else None
    }

    /** The slot's tokens with the given status, highest priority first:
        exactly those rows, in non-increasing priority. */
    method FindBySlotId(slotId: nat, status: Status := Confirmed) returns (r: seq<Token>)
      requires Valid()
      ensures multiset(r) == multiset(Select(rows, InSlot(slotId, status)))
      ensures forall t :: t in r <==> t in rows && Matches(t, InSlot(slotId, status))
      ensures forall i, j :: 0 <= i < j < |r| ==> r[i].priority >= r[j].priority
    {
      var selected := Select(rows, InSlot(slotId, status));
      r := SortBy(selected, PriorityDescKey);
      forall t
        ensures t in r <==> t in selected
      {
        assert t in r <==> t in multiset(r);
        assert t in selected <==> t in multiset(selected);
      }
      forall i, j | 0 <= i < j < |r|
        ensures r[i].priority >= r[j].priority
      {
        assert PriorityDescKey(r[i]) <= PriorityDescKey(r[j]);
      }
    }

    /** The slot's lowest-priority confirmed token, at most one row:
        a confirmed token of the slot with the least priority (any of them on a tie), and none
        exactly when the slot holds no confirmed token. */
    method FindLowestPriorityInSlot(slotId: nat) returns (r: Option<Token>)
      requires Valid()
      ensures r.None? <==> forall j :: 0 <= j < |rows| ==> !Matches(rows[j], InSlot(slotId, Confirmed))
      ensures r.Some? ==> r.value in rows && Matches(r.value, InSlot(slotId, Confirmed))
      ensures r.Some? ==> forall j :: 0 <= j < |rows| && Matches(rows[j], InSlot(slotId, Confirmed)) ==>
                            r.value.priority <= rows[j].priority
    {
      var candidates := Select(rows, InSlot(slotId, Confirmed));
      if candidates == [] {
        r := None;
      } else {
        var ordered := SortBy(candidates, PriorityKey);
        assert |ordered| == |multiset(candidates)| == |candidates|;
        r := Some(ordered[0]);
        assert ordered[0] in multiset(candidates);
        assert ordered[0] in candidates;
        assert ordered[0] in rows;
        var w :| 0 <= w < |rows| && rows[w] == ordered[0];
        assert Matches(rows[w], InSlot(slotId, Confirmed));
        forall j | 0 <= j < |rows| && Matches(rows[j], InSlot(slotId, Confirmed))
          ensures ordered[0].priority <= rows[j].priority
        {
          assert rows[j] in multiset(ordered);
          var m :| 0 <= m < |ordered| && ordered[m] == rows[j];
          if m > 0 {
            assert PriorityKey(ordered[0]) <= PriorityKey(ordered[m]);
          }
        }
      }
    }

    /** The doctor's waiting list, highest priority first:
        exactly the doctor's waiting tokens, in non-increasing priority. */
    method FindWaitingByDoctorId(doctorId: nat) returns (r: seq<Token>)
      requires Valid()
      ensures multiset(r) == multiset(Select(rows, WithStatus(doctorId, Waiting)))
      ensures forall t :: t in r <==> t in rows && t.doctorId == doctorId && t.status == Waiting
      ensures forall i, j :: 0 <= i < j < |r| ==> r[i].priority >= r[j].priority
    {
      var selected := Select(rows, WithStatus(doctorId, Waiting));
      r := SortBy(selected, PriorityDescKey);
      forall t
        ensures t in r <==> t in selected
      {
        assert t in r <==> t in multiset(r);
        assert t in selected <==> t in multiset(selected);
      }
      forall i, j | 0 <= i < j < |r|
        ensures r[i].priority >= r[j].priority
      {
        assert PriorityDescKey(r[i]) <= PriorityDescKey(r[j]);
      }
    }

    /** Writes the supplied fields among slot, status and priority of one token and returns
        the row: None in a parameter means the field was not supplied; no other row changes. */
    method Update(id: nat, slotId: Option<Option<nat>>, status: Option<Status>, priority: Option<real>)
      returns (r: Option<Token>)
      requires Valid()
      modifies this
      ensures Valid()
      ensures !(1 <= id <= |old(rows)|) ==> r == None && rows == old(rows)
      ensures 1 <= id <= |old(rows)| ==>
                rows == old(rows)[id - 1 := Patched(old(rows)[id - 1], slotId, status, priority)] && r == Some(rows[id - 1])
    {
      if 1 <= id <= |rows| {
        rows := rows[id - 1 := Patched(rows[id - 1], slotId, status, priority)];
        r := Some(rows[id - 1]);
      } else {
        r := None;
      }
    }

    /** Marks one token CANCELLED and returns the row; its slot is kept. */
    method Cancel(id: nat) returns (r: Option<Token>)
      requires Valid()
      modifies this
      ensures Valid()
      ensures !(1 <= id <= |old(rows)|) ==> r == None && rows == old(rows)
      ensures 1 <= id <= |old(rows)| ==>
                rows == old(rows)[id - 1 := Withdrawn(old(rows)[id - 1])] && r == Some(rows[id - 1])
    {
      if 1 <= id <= |rows| {
        rows := rows[id - 1 := Withdrawn(rows[id - 1])];
        r := Some(rows[id - 1]);
      } else {
        r := None;
      }
    }

    /** The per-status and per-type counts of the doctor's tokens; with the closed enums
        each family of counts adds up to the total. */
    function GetStatsByDoctorId(doctorId: nat): (r: Stats)
      reads this
      ensures r.confirmed + r.waiting + r.cancelled == r.total
      ensures r.emergency + r.priority + r.followup + r.online + r.walkin == r.total
    {
      StatusPartition(rows, doctorId);
      TypePartition(rows, doctorId);
      Stats(Count(rows, WithStatus(doctorId, Confirmed)), Count(rows, WithStatus(doctorId, Waiting)),
            Count(rows, WithStatus(doctorId, Cancelled)), Count(rows, OfDoctor(doctorId)),
            Count(rows, OfType(doctorId, Emergency)), Count(rows, OfType(doctorId, Priority)),
            Count(rows, OfType(doctorId, Followup)), Count(rows, OfType(doctorId, Online)),
            Count(rows, OfType(doctorId, Walkin)))
    }
  }
}
