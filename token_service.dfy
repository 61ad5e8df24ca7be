/**
 The external token program, reduced to what the three programs observe: a
 balance per token account, `mint_to`, which credits an account, and
 `transfer`, which fails when the source balance is too small.

 Token accounts are named by who may sign for them. A `Wallet` is signed for
 by its owner; each other kind is a program vault, signed for by an address
 the owning program derives from the seeds noted beside it.
 */
module TokenService {
  import opened Num
  import opened Host

  datatype AccountId =
    | Wallet(owner: Pubkey, mint: Pubkey)  // a user's account for `mint`
    | StakeVault(mint: Pubkey)             // gaming token, ("stake_vault", mint)
    | RewardVault(mint: Pubkey)            // gaming token, ("reward_vault", mint)
    | RewardsPool(mint: Pubkey)            // memecoin game rewards, ("rewards_pool", mint)
    | AirdropPool(mint: Pubkey)            // memecoin airdrops, ("airdrop_pool", mint)
    | Escrow(gameId: Bytes)                // solitaire stake escrow, ("escrow", game_id)

  type Balances = map<AccountId, nat>

  /** The balance of `a`; an account that was never credited holds nothing. */
  function Balance(b: Balances, a: AccountId): nat
  {
    if a in b then b[a] else 0
  }

  /** The balances after `amount` is added to `a`, as `mint_to` or the receiving half of a transfer does. */
  function Credit(b: Balances, a: AccountId, amount: nat): (r: Balances)
    ensures Balance(r, a) == Balance(b, a) + amount
    ensures forall x :: x != a ==> Balance(r, x) == Balance(b, x)
  {
    b[a := Balance(b, a) + amount]
  }

  /** The balances after `amount` is taken from `a`, which must hold at least that much. */
  function Debit(b: Balances, a: AccountId, amount: nat): (r: Balances)
    requires Balance(b, a) >= amount
    ensures Balance(r, a) == Balance(b, a) - amount
    ensures forall x :: x != a ==> Balance(r, x) == Balance(b, x)
  {
    b[a := Balance(b, a) - amount]
  }

  /**
   The balances after a successful transfer: the source loses exactly
   `amount`, the destination gains exactly `amount`, and no other account
   changes. A transfer from an account to itself changes nothing.
   */
  function Move(b: Balances, from: AccountId, to: AccountId, amount: nat): (r: Balances)
    requires Balance(b, from) >= amount
    ensures from != to ==> Balance(r, from) == Balance(b, from) - amount
    ensures from != to ==> Balance(r, to) == Balance(b, to) + amount
    ensures from == to ==> Balance(r, from) == Balance(b, from)
    ensures forall x :: x != from && x != to ==> Balance(r, x) == Balance(b, x)
  {
    Credit(Debit(b, from, amount), to, amount)
  }

  /**
   Two transfers of the same amount, one there and one back, restore every
   balance: a transfer is undone by its reverse.
   */
  lemma MoveThenBack(b: Balances, from: AccountId, to: AccountId, amount: nat)
    requires Balance(b, from) >= amount
    ensures Balance(Move(b, from, to, amount), to) >= amount
    ensures forall x :: Balance(Move(Move(b, from, to, amount), to, from, amount), x) == Balance(b, x)
  {
    var m := Move(b, from, to, amount);
    forall x ensures Balance(Move(m, to, from, amount), x) == Balance(b, x) {
      if x == from || x == to {
      }
    }
  }

  /** The token program's balances, one object shared by every program that calls it. */
  class Ledger {
    var balances: Balances

    constructor (initial: Balances)
      ensures balances == initial
    {
      balances := initial;
    }

    /** `token::mint_to`: creates `amount` new tokens in `to`. */
    method MintTo(to: AccountId, amount: U64)
      modifies this
      ensures balances == Credit(old(balances), to, amount)
    {
      balances := Credit(balances, to, amount);
    }

    /** `token::transfer`: moves `amount` from `from` to `to`, or fails and changes nothing. */
    method Transfer(from: AccountId, to: AccountId, amount: U64) returns (ok: bool)
      modifies this
      ensures ok <==> Balance(old(balances), from) >= amount
      ensures ok ==> balances == Move(old(balances), from, to, amount)
      ensures !ok ==> balances == old(balances)
    {
      ok := Balance(balances, from) >= amount;
      if ok {
        balances := Move(balances, from, to, amount);
      }
    }
  }
}
