/** Identifiers are ULIDs read as numbers: equality and order are those of the numbers, and the
    empty identifier is zero. */
module Ids {
  type Id = nat
  const NilId: Id := 0
}
