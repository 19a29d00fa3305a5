/**
 * The two failures the service can raise: `SpeciesNotFoundException`, whose
 * message names the missing id, and the constraint violation that the
 * persistence layer raises when an entity breaks its invariant on save.
 */
module Errors {
  import opened Lang
  import opened LongFormat

  const NOT_FOUND_PREFIX: string := "Species not found with ID: "

  datatype ServiceError =
    | SpeciesNotFound(message: string)
    | ConstraintViolation

  /** The message built by the id-taking constructor: the prefix, then `Long.toString(id)`. */
  function NotFoundMessage(id: int): string {
    NOT_FOUND_PREFIX + LongToString(id)
  }

  /** The exception `getById`, `updateSpecies` and `deleteSpecies` throw for an absent id. */
  function NotFoundError(id: int): ServiceError {
    SpeciesNotFound(NotFoundMessage(id))
  }

  /** Reads the id back out of a not-found message, if the message has that shape. */
  function MessageId(message: string): Option<int> {
    if |NOT_FOUND_PREFIX| <= |message|
       && message[..|NOT_FOUND_PREFIX|] == NOT_FOUND_PREFIX
       && IsLongText(message[|NOT_FOUND_PREFIX|..])
    then Some(ParseLong(message[|NOT_FOUND_PREFIX|..]))
    else None
  }

  /** The message names the id it was built from. */
  lemma NotFoundMessageNamesId(id: int)
    ensures MessageId(NotFoundMessage(id)) == Some(id)
  {
    var message := NotFoundMessage(id);
    assert message[..|NOT_FOUND_PREFIX|] == NOT_FOUND_PREFIX;
    assert message[|NOT_FOUND_PREFIX|..] == LongToString(id);
    LongToStringRoundTrip(id);
  }

  /** Distinct ids give distinct messages, so a 404 body identifies the id asked for. */
  lemma NotFoundMessageInjective(a: int, b: int)
    ensures NotFoundMessage(a) == NotFoundMessage(b) ==> a == b
  {
    NotFoundMessageNamesId(a);
    NotFoundMessageNamesId(b);
  }

  /** The exact body of the 404 for id 999. */
  lemma NotFoundMessageFor999()
    ensures NotFoundMessage(999) == "Species not found with ID: 999"
  {
  }
}
