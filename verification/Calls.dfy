/** Calls that may fail: their fates are an oracle, and a log keeps the calls that were made. */
module Calls {

  /** A call works, throws and leaves something behind, or returns although it left something else. */
  datatype Fate<+L> = Works | Throws(left: L) | Lies(left: L)

  /** The fate of each call, by its number and by what it is. */
  type Fates<!C, !L> = (nat, C) -> Fate<L>

  /** Every call of the log from number `from` on has worked. */
  ghost predicate AllWork<C(!new), L(!new)>(fates: Fates<C, L>, log: seq<C>, from: nat) {
    forall k :: from <= k < |log| ==> fates(k, log[k]).Works?
  }

  /** Such a call was made from number `from` on and did not work. */
  ghost predicate Failed<C(!new), L(!new)>(fates: Fates<C, L>, log: seq<C>, from: nat, call: C) {
    exists k :: from <= k < |log| && log[k] == call && !fates(k, call).Works?
  }
}
