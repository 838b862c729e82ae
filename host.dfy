/** What the blockchain host supplies to the contract: addresses, token
    identifiers and the transfers requested with `send().direct`. */
module Host {

  /** A `ManagedAddress`. Only equality between addresses matters. */
  type Addr = nat

  /** An `EgldOrEsdtTokenIdentifier`, opaque to the ledger. */
  datatype TokenId = Egld | Esdt(ticker: string)

  /** One `send().direct(to, token, nonce, amount)` request. */
  datatype Payout = Payout(to: Addr, token: TokenId, nonce: nat, amount: nat)

  /** The sum of the amounts of a run of transfers. */
  function TotalAmount(ps: seq<Payout>): nat
  {
    if ps == [] then 0 else ps[0].amount + TotalAmount(ps[1..])
  }

  /** `t` moved into the window [lo, hi]. */
  function Clamp(t: nat, lo: nat, hi: nat): (c: nat)
    requires lo <= hi
    ensures lo <= c <= hi
    ensures lo <= t <= hi ==> c == t
    ensures t < lo ==> c == lo
    ensures hi < t ==> c == hi
  {
    if t < lo then lo else if t > hi then hi else t
  }
}
