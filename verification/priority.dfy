/** Priority scoring: a fixed table per token type plus an aging bonus (utils/priority.js). */
module Priority {
  import opened Schema
  import opened TokenModel

  /** Base score per type name; higher is served first. */
  const BASE_PRIORITY: map<string, int> :=
    map["EMERGENCY" := 100, "PRIORITY" := 80, "FOLLOWUP" := 60, "ONLINE" := 40, "WALKIN" := 20]

  /** Timestamps are milliseconds; the bonus is one point per five minutes waited. */
  const MS_PER_MINUTE: int := 60000
  const MINUTES_PER_POINT: int := 5

  /** `BASE_PRIORITY[type] || 0`: a missing (or zero) table entry scores 0. */
  function GetBasePriority(t: string): (r: int)
    ensures r == 0 <==> t !in BASE_PRIORITY
    ensures 0 <= r <= 100
  {
    if t in BASE_PRIORITY && BASE_PRIORITY[t] != 0 then BASE_PRIORITY[t] else 0
  }

  /** base + (minutes between `createdAt` and `now`) / 5, with times in milliseconds. */
  function CalculatePriority(t: string, createdAt: int, now: int): (r: real)
    ensures createdAt == now ==> r == GetBasePriority(t) as real
    ensures createdAt <= now ==> r >= GetBasePriority(t) as real
    ensures t !in BASE_PRIORITY ==> r == (now - createdAt) as real / (MS_PER_MINUTE * MINUTES_PER_POINT) as real
  {
    // The divisors are MS_PER_MINUTE and MINUTES_PER_POINT, written as literals so that the
    // arithmetic stays linear for the solver.
    var waitingMinutes := (now - createdAt) as real / 60000.0;
    GetBasePriority(t) as real + waitingMinutes / 5.0
  }

  /** `token2.priority - token1.priority`: negative when the first token outranks the second,
      so as a sort comparator it puts higher priorities first. */
  function ComparePriority(a: Token, b: Token): (r: real)
    ensures r == 0.0 <==> a.priority == b.priority
    ensures r < 0.0 <==> a.priority > b.priority
  {
    b.priority - a.priority
  }

  /** The table ranks EMERGENCY > PRIORITY > FOLLOWUP > ONLINE > WALKIN > unknown. */
  lemma BaseTableOrder(unknown: string)
    requires unknown !in BASE_PRIORITY
    ensures GetBasePriority(TypeName(Emergency)) > GetBasePriority(TypeName(Priority))
            > GetBasePriority(TypeName(Followup)) > GetBasePriority(TypeName(Online))
            > GetBasePriority(TypeName(Walkin)) > GetBasePriority(unknown)
  {
  }

  /** Every type of the closed enum has a table entry, so only foreign strings score 0. */
  lemma EnumTypesScored(t: TokenType)
    ensures GetBasePriority(TypeName(t)) > 0
  {
  }

  /** The score never decreases as the clock advances, and grows one point per five minutes. */
  lemma CalculatePriorityMonotone(t: string, createdAt: int, now: int, later: int)
    requires now <= later
    ensures CalculatePriority(t, createdAt, now) <= CalculatePriority(t, createdAt, later)
    ensures CalculatePriority(t, createdAt, now + MS_PER_MINUTE * MINUTES_PER_POINT)
            == CalculatePriority(t, createdAt, now) + 1.0
  {
  }

  /** The comparator is antisymmetric. */
  lemma ComparePriorityAntisymmetric(a: Token, b: Token)
    ensures ComparePriority(a, b) == -ComparePriority(b, a)
  {
  }

  /** A sequence ordered by the comparator is in non-increasing priority. */
  lemma ComparatorOrderIsDescending(s: seq<Token>)
    requires forall i, j :: 0 <= i < j < |s| ==> ComparePriority(s[i], s[j]) <= 0.0
    ensures forall i, j :: 0 <= i < j < |s| ==> s[i].priority >= s[j].priority
  {
  }
}
