/** Values shared by every controller of the challenge platform. */
module Common {

  /** Identifiers are the auto-incremented integer primary keys of the tables. */
  type UserId = nat
  type ChallengeId = nat
  type ParticipationId = nat
  type GameId = nat

  /** A field of a request body or query string: `None` stands for `undefined` or `null`. */
  datatype Option<+T> = None | Some(value: T) {
    function GetOr(default: T): T {
      match this
      case Some(v) => v
      case None => default
    }
  }

  /** What a handler answers: a value, or an error that becomes an HTTP status. */
  datatype Result<+T, +E> = Ok(value: T) | Err(error: E)

  /**
   * JavaScript truthiness of an optional string field: `if (field)` fails for
   * `undefined`, `null` and the empty string.
   */
  predicate Present(field: Option<string>) {
    field.Some? && field.value != ""
  }

  /** JavaScript truthiness of an optional numeric id: `if (!id)` also rejects 0. */
  predicate PresentId(field: Option<int>) {
    field.Some? && field.value != 0
  }
}
