/** Column types shared by the slots and tokens tables (scripts/setup.js). */
module Schema {

  /** A nullable column, or a query that may return no row (`rows[0]` undefined). */
  datatype Option<+T> = None | Some(value: T)

  /** What an `UPDATE ... RETURNING *` statement yields: the updated row, no row when
      the WHERE clause matched nothing, or a rejection by a CHECK constraint. */
  datatype UpdateResult<+T> = Row(value: T) | NoRow | CheckViolation

  /** The closed `token_type` enum. */
  datatype TokenType = Emergency | Priority | Followup | Online | Walkin

  /** The closed `token_status` enum. */
  datatype Status = Confirmed | Waiting | Cancelled

  /** The enum label as the application spells it. */
  function TypeName(t: TokenType): string
  {
    match t
    case Emergency => "EMERGENCY"
    case Priority => "PRIORITY"
    case Followup => "FOLLOWUP"
    case Online => "ONLINE"
    case Walkin => "WALKIN"
  }

  /** The types the booking endpoint accepts; EMERGENCY has its own entry point. */
  predicate Bookable(t: TokenType)
  {
    t != Emergency
  }
}
