/** The `reaching_limit` predicate of app/main.py. */
module Overdraft {

  /** Python's `abs` on integers. */
  function Abs(x: int): (r: nat)
    ensures r == x || r == -x
    ensures x <= r && -x <= r
  {
    if x < 0 then -x else x
  }

  /** `reaching_limit(balance, limit_amount, amount)`: whether taking `amount`
      from `balance` would overdraw the account beyond `limit`. */
  function ReachingLimit(balance: int, limit: int, amount: int): (r: bool)
    ensures 0 <= limit ==> (r <==> balance - amount < -limit)
    ensures limit < 0 ==> (r <==> balance - amount <= limit)
  {
    if balance - amount > limit then false
    else Abs(balance - amount) > limit
  }

  /** The limit scenarios of an account with limit 1000: a 500 debit from 0
      stays within it, a further 600 debit from -500 would pass it. */
  lemma ReachingLimitScenarios()
    ensures !ReachingLimit(0, 1000, 500)
    ensures ReachingLimit(-500, 1000, 600)
    ensures !ReachingLimit(-500, 1000, 500)
    ensures !ReachingLimit(5000, 1000, 100)
  {
  }
}
