/** What the price feed policy of this chain switches off. */
module FeedPolicy {

  /** Whether an operation or a match that settles is refused, and whether margin calls are. */
  datatype Policy = Policy(settlementsDisabled: bool, marginCallsDisabled: bool)

  predicate ManagesMarginPositions(isPredictionMarket: bool) {
    !isPredictionMarket
  }

  /** The policy of every coin: those that are not prediction markets are managed, and neither
      settled nor margin called. */
  function PolicyOf(isPredictionMarket: bool): Policy {
    var managed := ManagesMarginPositions(isPredictionMarket);
    Policy(managed, managed)
  }
}
