/** Natural numbers, as amounts and counts. */
module Amounts {

  /** The most there may be of any asset, GRAPHENE_MAX_SHARE_SUPPLY. */
  const MAX_SHARE_SUPPLY := 1000000000000000

  function Min(a: nat, b: nat): nat {
    if a <= b then a else b
  }

  function Max(a: nat, b: nat): nat {
    if a <= b then b else a
  }
}
