# Gaming token, memecoin and solitaire programs in Dafny

This project models three on-chain programs that share one token ledger:

- **Gaming token.** A mint configuration counts the supply minted so far.
  Time-locked stakes earn 5% a year (`amount * 5 * elapsed / (100 * 31_536_000)`,
  rounded down). The reward can be claimed while staked. On unstaking it is
  paid again from the stake's creation time. The stake vault only ever
  receives the principal, so an unstake that owes a positive reward
  succeeds only if the vault was funded from outside.
- **Memecoin.** A fixed supply is split 40/30/20/10 into four allocations,
  which are minted once. Game rewards are paid from a rewards pool, at most
  once per player and game id. Each recipient has one time-gated airdrop.
- **Solitaire.** A player stakes tokens into an escrow for each game and
  counts moves. The player either completes the game (half the stake back
  on a loss, twice the stake on a win) or abandons it after a day without
  activity, getting the stake back minus a 10% penalty.

Layout:

- `num.dfy` (`Num`): the fixed-width integers. Each checked operation
  returns `None` where the compiled program panics on overflow. `AsU64` is
  the `as u64` cast.
- `host.dfy` (`Host`): public keys, the failures raised by the account
  framework, and the all-or-nothing `Outcome` of an instruction.
- `token_service.dfy` (`TokenService`): the external token program. It
  holds a balance per token account (`Ledger`), `mint_to` and `transfer`.
- `gaming_token.dfy`, `memecoin.dfy`, `solitaire.dfy`: one module per
  program. Each program is a `class Program`:
  - its records are `map` fields keyed by their address seeds;
  - the ledger is shared;
  - one method per instruction.

Every method follows the same shape. It requires and ensures the program's
invariant `Valid()`. It states the exact result as a chain of error cases
in the order the instruction checks them. On success it states the whole
new state. On error nothing changes.

The order of the error cases is the order the account framework and the
handler check them:

1. A record the instruction reads but does not create is missing:
   `AccountNotInitialized`.
2. A record created with `init` already exists: `AccountAlreadyInUse`.
3. `has_one` and `constraint` checks of the accounts, in field order.
4. The handler's `require!` checks.
5. The handler's checked arithmetic and token transfers, in the order the
   handler runs them. `mint_tokens` mints before it adds to the supply, and
   `stake_tokens` transfers the stake before it adds the lock period, so
   there a failed transfer is reported before an overflow.

A handler check that repeats an account constraint can never fail. For
example, the `Unauthorized` check of `distribute_initial_supply` comes after
`has_one = authority`. The model therefore reports the constraint's error
for it.

## Model

| member | source | states |
|---|---|---|
| `Num.AsU64` | programs/gaming-token/src/lib.rs:181-182 | `x as u64` keeps a non-negative `i64` and sends a negative one above `i64::MAX`, to the value congruent to it modulo 2^64 (so `-1` becomes `u64::MAX`) |
| `TokenService.Ledger.MintTo` | programs/gaming-token/src/lib.rs:56-63 | `mint_to` credits exactly `amount` to the destination and changes no other balance |
| `TokenService.Ledger.Transfer` | programs/gaming-token/src/lib.rs:89-97 | `transfer` succeeds exactly when the source holds `amount`; then the source loses and the destination gains `amount` and nothing else changes; otherwise nothing changes |
| `GamingToken.AccruedReward` | programs/gaming-token/src/lib.rs:181-182 | the reward is 0 for a zero amount or zero elapsed time |
| `GamingToken.RewardAmount` | programs/gaming-token/src/lib.rs:181-182 | the handlers' `u64` reward succeeds exactly when both checked products fit in `u64`, and then equals the exact floor formula; a negative elapsed time with a positive amount always overflows |
| `GamingToken.RewardSinceLastClaim` | programs/gaming-token/src/lib.rs:181-182 | the claim reward is the exact accrual `AccruedReward` since the last claim; a clock behind the last claim with a positive stake always fails |
| `GamingToken.RewardSinceStake` | programs/gaming-token/src/lib.rs:133-134 | the unstake reward is the exact accrual since the stake's creation, not since the last claim; a clock behind the creation time with a positive stake always fails |
| `GamingToken.UnstakePayout` | programs/gaming-token/src/lib.rs:133-135 | the unstake payout is the principal plus the accrual since creation; a clock behind the creation time with a positive stake always fails |
| `GamingToken.ClaimedAt` | programs/gaming-token/src/lib.rs:203 | a claim sets `last_reward_claim` to `now` and changes no other field of the stake |
| `GamingToken.NegativeElapsedOverflows` | programs/gaming-token/src/lib.rs:134 | 5 or more times a negative `i64` cast to `u64` exceeds `u64::MAX` |
| `GamingToken.AccruedRewardMonotone` | programs/gaming-token/src/lib.rs:181-182 | the reward never decreases as the elapsed time grows |
| `GamingToken.AccruedRewardSuperadditive` | programs/gaming-token/src/lib.rs:181-182 | the rewards for two consecutive periods add up to at most the reward for the whole period |
| `GamingToken.AccruedRewardWithinRate` | programs/gaming-token/src/lib.rs:132-134 | within one year the reward is at most 5% of the staked amount |
| `GamingToken.UnstakeIgnoresClaims` | programs/gaming-token/src/lib.rs:132-135 | the unstake reward and payout depend only on principal and creation time, so earlier claims do not lower them |
| `GamingToken.ClaimThenUnstakePaysTwice` | programs/gaming-token/src/lib.rs:132-135 | after a claim at `t1`, unstaking at `t2` still pays the whole accrual since creation, which is at least the claimed reward plus the accrual after the claim |
| `GamingToken.OneYearOfStake` | programs/gaming-token/src/lib.rs:132-135 | 1 000 000 tokens staked for a year: a half-year claim pays 25 000, and the computed unstake payout is 1 050 000 with or without that claim (the stake vault holds only the principal, so the transfer succeeds only if the vault was funded from outside) |
| `GamingToken.Program.constructor` | programs/gaming-token/src/lib.rs:366-387 | the program starts with no configurations, stakes, vaults or events |
| `GamingToken.Program.InitializeMint` | programs/gaming-token/src/lib.rs:10-42 | an existing configuration, then name > 32 bytes, symbol > 10 bytes and decimals > 9 are rejected in that order; on success the caller is the authority and the supply is 0 |
| `GamingToken.Program.MintTokens` | programs/gaming-token/src/lib.rs:44-76 | only the authority mints a positive amount; the supply grows by exactly the amount, an overflowing supply aborts, and no supply ever decreases |
| `GamingToken.Program.StakeTokens` | programs/gaming-token/src/lib.rs:78-114 | at most one stake per owner and mint, and at most one per mint (the vaults are created once); positive amount and lock period; the stake moves from the caller's wallet to the stake vault; `created_at = last_reward_claim = now < lock_until` |
| `GamingToken.Program.ClaimRewards` | programs/gaming-token/src/lib.rs:168-213 | only the owner of an active stake claims; a zero reward changes nothing; otherwise exactly the reward moves from the reward vault and `last_reward_claim` becomes `now`, keeping `created_at <= last_reward_claim` |
| `GamingToken.Program.UnstakeTokens` | programs/gaming-token/src/lib.rs:116-166 | only the owner of an active stake unstakes, from `lock_until` on; it pays principal plus the reward since creation from the stake vault and deactivates the stake, so later claims and unstakes fail |
| `Memecoin.PoolSplit` | programs/memecoin/src/lib.rs:36-39 | each allocation is the floor of its percentage (40, 30, 20, 10) of the supply; the split fails exactly when `total_supply * 40` overflows |
| `Memecoin.SplitOfTens` | programs/memecoin/src/lib.rs:36-39 | the split of `10q + s` allocates `10q` plus the split of the remainder `s` |
| `Memecoin.PoolsWithinSupply` | programs/memecoin/src/lib.rs:36-39 | the four allocations sum to at most the supply and leave at most 3 tokens unallocated |
| `Memecoin.PoolsExactIffMultipleOfTen` | programs/memecoin/src/lib.rs:36-39 | the allocations sum to exactly the supply if and only if the supply is a multiple of 10 |
| `Memecoin.BillionSplit` | programs/memecoin/src/lib.rs:36-39 | a supply of 10^9 splits into 400, 300, 200 and 100 million |
| `Memecoin.DistributionCredits` | programs/memecoin/src/lib.rs:67-105 | minting the four allocations into four distinct accounts credits each exactly its allocation, touches no other account, and mints the allocations' sum |
| `Memecoin.DistributionKeepsConfig` | programs/memecoin/src/lib.rs:107 | setting `circulating_supply = total_supply` keeps a configuration well formed and makes the circulating supply positive |
| `Memecoin.Program.constructor` | programs/memecoin/src/lib.rs:378-412 | the program starts with no configurations, reward records, airdrops or events |
| `Memecoin.Program.InitializeMemecoin` | programs/memecoin/src/lib.rs:10-51 | an existing configuration, then name > 32 bytes, symbol > 10 bytes, decimals > 9 and a zero supply are rejected in that order, then an overflowing split; on success nothing circulates and the allocations are `PoolSplit` of the supply |
| `Memecoin.Program.DistributeInitialSupply` | programs/memecoin/src/lib.rs:53-116 | only the authority distributes, and only while nothing circulates; the four allocations are minted in order into the four accounts; the circulating supply becomes the positive total, so a second call fails |
| `Memecoin.Program.DistributeGameRewards` | programs/memecoin/src/lib.rs:118-171 | a second payout for the same player and game id fails; the authority pays a positive amount for a game id of at most 32 bytes when the pool holds it; the pool loses and the player gains exactly the amount; the payout is recorded at `now` |
| `Memecoin.Program.SetupAirdropAccount` | programs/memecoin/src/lib.rs:220-245 | one airdrop per recipient, with a positive amount, claimable strictly after `now`, recorded unclaimed |
| `Memecoin.Program.ClaimAirdrop` | programs/memecoin/src/lib.rs:173-218 | only the recipient claims, once, from `claimable_at` on (that instant included); the airdrop pool pays exactly the amount and the record is marked claimed at `now >= claimable_at` |
| `Solitaire.NewGameState` | programs/solitaire/src/lib.rs:330-341 | a fresh play state has no moves, no score, is neither won nor complete, and started at `now` |
| `Solitaire.StepGameState` | programs/solitaire/src/lib.rs:343-353 | a move changes only the move count (+1, `u32`) and the score (+10, `u64`); at 10 points a move it keeps that rate and fails exactly when the move count is at its limit |
| `Solitaire.IsWon` | programs/solitaire/src/lib.rs:355-358 | the win test is the play state's win flag |
| `Solitaire.CompletionPayout` | programs/solitaire/src/lib.rs:124-128 | a win pays twice the stake and fails exactly when that overflows; a loss pays half the stake, rounded down |
| `Solitaire.WithdrawalSplit` | programs/solitaire/src/lib.rs:177-178 | the penalty is 10% of the stake rounded down, and refund plus penalty is exactly the stake |
| `Solitaire.LossPaysAtMostRefund` | programs/solitaire/src/lib.rs:124-128 | the loss payout is at most the withdrawal refund, which is at most the stake, and strictly below the refund once the stake is at least 2 |
| `Solitaire.PlayCountsMoves` | programs/solitaire/src/lib.rs:343-353 | `n` moves from a fresh state all succeed exactly while `n` fits in `u32`, and leave `n` moves, `10n` points and no win |
| `Solitaire.StartKeepsInvariants` | programs/solitaire/src/lib.rs:19-44 | starting a game under a fresh key and game id and funding its escrow keeps every game well formed, one game per game id, and every active escrow funded |
| `Solitaire.UpdateKeepsInvariants` | programs/solitaire/src/lib.rs:72-74 | updating an active game without touching its stake keeps the invariant |
| `Solitaire.EndKeepsInvariants` | programs/solitaire/src/lib.rs:118-145 | ending a game and paying out of its escrow keeps the invariant, because no other game shares that escrow |
| `Solitaire.Program.constructor` | programs/solitaire/src/lib.rs:294-308 | the program starts with no games, escrows or events |
| `Solitaire.Program.InitializeGame` | programs/solitaire/src/lib.rs:10-54 | an existing game or escrow, then a zero stake, a game id over 32 bytes and an insufficient wallet are rejected in that order; on success the game is `Active` with no moves and no score, `created_at = updated_at = now`, and the stake has moved into the escrow |
| `Solitaire.Program.MakeMove` | programs/solitaire/src/lib.rs:56-103 | a missing game, then a game that is not `Active` (before the caller check), then a caller other than the player are rejected; the only other failure is the move counter at the `u32` limit; a move counts one move in the record and in the play state, updates `updated_at`, never wins, and keeps the game `Active` |
| `Solitaire.Program.CompleteGame` | programs/solitaire/src/lib.rs:105-157 | only the player completes an `Active` game and then always succeeds; the game becomes `Completed` with `final_score`, and half the stake (the loss payout, as no game is won) moves out of the escrow |
| `Solitaire.Program.WithdrawStake` | programs/solitaire/src/lib.rs:159-205 | only the player withdraws from an `Active` game, and only once 86 400 seconds have passed since its last update (that instant included); the game becomes `Abandoned` and the refund moves out of the escrow while the penalty stays there |

## Left out

- Address derivation, bumps and signer seeds are not modelled. Every vault,
  pool and escrow is a distinct `AccountId`, and a program-signed transfer
  out of it is assumed to be authorised. The source's signer seeds do not
  always match the signing account:
  - the stake vault is signed with `"stake_vault"` seeds but owned by the
    `"vault_authority"` address;
  - escrows are signed with `"escrow"` seeds but owned by the
    `"escrow_authority"` address;
  - `claim_rewards` signs with `"reward_vault"` seeds, but the reward
    vault is owned by the `"reward_vault_authority"` address;
  - `GameAccount.bump` is never written, so it stays 0 (the model keeps it
    0);
  - the memecoin rewards authority is declared as a `MemecoinConfig`
    record, and the airdrop signer reads a `bump` from a token account.

  The model follows the evident intent: the owning program signs for its
  vaults.
- Seeds longer than 32 bytes make address derivation fail before a handler
  runs. The model instead reports an error no later than `GameIdTooLong`:
  the first earlier check that fails, or `GameIdTooLong` when none does.
- Token accounts passed without a constraint are modelled as the account
  the instruction evidently means, because the model names token accounts
  by role rather than by address:
  - the escrow in `complete_game` and `withdraw_stake`;
  - the rewards pool in `distribute_game_rewards`;
  - the airdrop pool in `claim_airdrop`;
  - the user's wallet for the stake mint;
  - the reward vault in `claim_rewards` (modelled as `RewardVault(mint)`);
  - the stake vault in `unstake_tokens` (modelled as `StakeVault(mint)`).
- `initialize_mint` and `initialize_memecoin` also create their mint
  account with `init`. The model has no separate mint accounts, so a mint
  that already has a configuration is the only existing-mint case it
  rejects.
- Token account ownership and mint checks, decimals, and freeze authority
  are not modelled. The `mint` account of `distribute_initial_supply` and
  the `reward_mint_info` constraint of `initialize_game` are not modelled
  either.
- The token program's own `u64` limit on balances and supply is not
  modelled: ledger balances are unbounded `nat`.
- Rent, account space, discriminators and serialisation are not modelled.
  `init_if_needed` token accounts are treated as existing.
- The clock is the `now` parameter of every method. It is not assumed
  monotone, so a negative elapsed time reaches the `as u64` cast, which is
  modelled exactly.
- `claimed_at` is assigned a plain timestamp in the source while the field
  is an `Option<i64>`. The model stores `Some(now)`.
- `PileData`, `CardData` and `PileType` are not modelled. They are
  declared but never used, and the pile list is always empty.
- `Solitaire.StepGameState`: `GameState::make_move` updates the play state
  in place through `&mut self`. The play state is a field of a game record
  held in the games map, so the model computes the new play state as a
  value and the method stores the updated record. In-place aliasing of the
  embedded record is not captured.
- Event payloads are appended to an `events` log. Event serialisation and
  delivery are not modelled.
- Concurrency and ordering across transactions are not modelled. Each
  method is one instruction applied to one state.
