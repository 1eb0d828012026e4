/** Vocabulary the parts share. */
module Delivery {
  /** A process of the group, by its stable identity. */
  type Member = nat

  /** A push carries one of these for each way in which the writer sent more than
      the subscription names: the span of a selection, elements no predicate was
      evaluated on, the span of a predicate's matches, or the object's own type. */
  datatype Fallback =
    | SelectionSpan
    | PredicateUnevaluated
    | PredicateSpan
    | TypeNative

  type Fallbacks = set<Fallback>

  const PREDICATE: Fallbacks := {PredicateUnevaluated, PredicateSpan}

  /** Where a subscription stands: pushed to as data is written, set aside until
      its reader asks for the backfill, or asked for and not yet served. */
  datatype EntryState = Live | Staged(from: nat) | Released(from: nat)

  datatype Option<+T> = None | Some(value: T)
}
