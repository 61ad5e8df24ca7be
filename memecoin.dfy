/**
 The memecoin program: a fixed supply split 40/30/20/10 into four
 allocations, minted once; game rewards paid out of the rewards pool at most
 once per player and game; and one time-gated airdrop per recipient.
 */
module Memecoin {
  import opened Num
  import opened Host
  import opened TokenService

  const MAX_NAME_LEN: nat := 32
  const MAX_SYMBOL_LEN: nat := 10
  const MAX_DECIMALS: nat := 9
  const MAX_GAME_ID_LEN: nat := 32

  datatype MemecoinError =
    | NameTooLong
    | SymbolTooLong
    | InvalidDecimals
    | InvalidSupply
    | InvalidAmount
    | GameIdTooLong
    | Unauthorized
    | AlreadyDistributed
    | InsufficientRewards
    | AlreadyClaimed
    | AirdropNotAvailable
    | InvalidClaimTime

  type Result = Outcome<MemecoinError>

  /** The configuration of one memecoin, at ("memecoin_config", mint). */
  datatype MemecoinConfig = MemecoinConfig(
    authority: Pubkey,
    mint: Pubkey,
    tokenName: Bytes,
    tokenSymbol: Bytes,
    decimals: U8,
    totalSupply: U64,
    circulatingSupply: U64,
    gameRewardsPool: U64,
    liquidityPool: U64,
    teamAllocation: U64,
    communityAllocation: U64,
    isInitialized: bool,
    createdAt: I64)

  /** The seeds ("reward", player, game_id) of a reward record. */
  datatype RewardKey = RewardKey(player: Pubkey, gameId: Bytes)

  /** The record of one game-reward payout. */
  datatype RewardAccount = RewardAccount(player: Pubkey, gameId: Bytes, amount: U64, timestamp: I64)

  /** One recipient's airdrop, at ("airdrop", recipient). */
  datatype AirdropAccount = AirdropAccount(
    recipient: Pubkey,
    mint: Pubkey,
    amount: U64,
    claimableAt: I64,
    claimed: bool,
    createdAt: I64,
    claimedAt: Option<I64>)

  datatype Event =
    | MemecoinInitialized(mint: Pubkey, name: Bytes, symbol: Bytes, totalSupply: U64, authority: Pubkey, timestamp: I64)
    | InitialSupplyDistributed(mint: Pubkey, totalAmount: U64, timestamp: I64)
    | GameRewardDistributed(player: Pubkey, amount: U64, gameId: Bytes, timestamp: I64)
    | AirdropAccountSetup(recipient: Pubkey, amount: U64, claimableAt: I64, timestamp: I64)
    | AirdropClaimed(recipient: Pubkey, amount: U64, timestamp: I64)

  // ---------------------------------------------------------------------------
  // The supply split

  /** The four allocations of a supply. */
  datatype Pools = Pools(gameRewards: U64, liquidity: U64, team: U64, community: U64)

  /** Is `part` exactly `pct` percent of `total`, rounded down? */
  predicate IsFloorShare(part: nat, total: nat, pct: nat)
  {
    part * 100 <= total * pct < part * 100 + 100
  }

  /** Everything the four allocations hand out together. */
  function Allocated(p: Pools): nat
  {
    p.gameRewards + p.liquidity + p.team + p.community
  }

  /**
   The allocations `initialize_memecoin` computes, each `total_supply * pct / 100`
   on `u64`. The largest product, `total_supply * 40`, is computed first and
   panics for a supply above a fortieth of the `u64` range.
   */
  function PoolSplit(totalSupply: U64): (r: Option<Pools>)
    ensures r.Some? <==> totalSupply * 40 <= U64_MAX
    ensures r.Some? ==> IsFloorShare(r.value.gameRewards, totalSupply, 40)
    ensures r.Some? ==> IsFloorShare(r.value.liquidity, totalSupply, 30)
    ensures r.Some? ==> IsFloorShare(r.value.team, totalSupply, 20)
    ensures r.Some? ==> IsFloorShare(r.value.community, totalSupply, 10)
  {
    match MulU64(totalSupply, 40)
    case None => None
    case Some(forty) =>
      Some(Pools(forty / 100, totalSupply * 30 / 100, totalSupply * 20 / 100, totalSupply * 10 / 100))
  }

  /** The split of `10 * q + s` is the split of `10 * q`, which is exact, plus the split of the remainder `s`. */
  lemma SplitOfTens(t: U64, q: nat, s: nat)
    requires t == 10 * q + s && s < 10 && PoolSplit(t).Some?
    ensures Allocated(PoolSplit(t).value) == 10 * q + s * 40 / 100 + s * 30 / 100 + s * 20 / 100 + s * 10 / 100
  {
    assert t * 40 / 100 == 4 * q + s * 40 / 100;
    assert t * 30 / 100 == 3 * q + s * 30 / 100;
    assert t * 20 / 100 == 2 * q + s * 20 / 100;
    assert t * 10 / 100 == q + s * 10 / 100;
  }

  /** The allocations never hand out more than the supply, and leave at most 3 tokens of it unallocated. */
  lemma PoolsWithinSupply(t: U64)
    requires PoolSplit(t).Some?
    ensures t - 3 <= Allocated(PoolSplit(t).value) <= t
  {
    SplitOfTens(t, t / 10, t % 10);
  }

  /** The allocations add up to exactly the supply if, and only if, the supply is a multiple of 10. */
  lemma PoolsExactIffMultipleOfTen(t: U64)
    requires PoolSplit(t).Some?
    ensures Allocated(PoolSplit(t).value) == t <==> t % 10 == 0
  {
    SplitOfTens(t, t / 10, t % 10);
  }

  /** The worked example: a supply of 10^9 splits into 400, 300, 200 and 100 million. */
  lemma BillionSplit()
    ensures PoolSplit(1_000_000_000) == Some(Pools(400_000_000, 300_000_000, 200_000_000, 100_000_000))
  {
  }

  /**
   The initial distribution, minting each allocation into its account in
   order, credits every one of four distinct accounts with exactly its
   allocation, touches no other account, and mints `Allocated(p)` in all.
   */
  lemma DistributionCredits(b: Balances, g: AccountId, l: AccountId, t: AccountId, c: AccountId, p: Pools)
    requires g != l && g != t && g != c && l != t && l != c && t != c
    ensures var r := Credit(Credit(Credit(Credit(b, g, p.gameRewards), l, p.liquidity), t, p.team), c, p.community);
      && Balance(r, g) == Balance(b, g) + p.gameRewards
      && Balance(r, l) == Balance(b, l) + p.liquidity
      && Balance(r, t) == Balance(b, t) + p.team
      && Balance(r, c) == Balance(b, c) + p.community
      && Balance(r, g) + Balance(r, l) + Balance(r, t) + Balance(r, c)
         == Balance(b, g) + Balance(b, l) + Balance(b, t) + Balance(b, c) + Allocated(p)
      && forall x :: x !in {g, l, t, c} ==> Balance(r, x) == Balance(b, x)
  {
  }

  // ---------------------------------------------------------------------------
  // Records and the program state

  predicate ConfigInvariant(mint: Pubkey, c: MemecoinConfig)
  {
    && c.mint == mint
    && c.isInitialized
    && |c.tokenName| <= MAX_NAME_LEN
    && |c.tokenSymbol| <= MAX_SYMBOL_LEN
    && c.decimals <= MAX_DECIMALS
    && c.totalSupply > 0
    && PoolSplit(c.totalSupply) == Some(Pools(c.gameRewardsPool, c.liquidityPool, c.teamAllocation, c.communityAllocation))
    && (c.circulatingSupply == 0 || c.circulatingSupply == c.totalSupply)
  }

  /** Putting the whole supply in circulation keeps a configuration well formed, and makes its circulating supply positive. */
  lemma DistributionKeepsConfig(mint: Pubkey, c: MemecoinConfig)
    requires ConfigInvariant(mint, c)
    ensures ConfigInvariant(mint, c.(circulatingSupply := c.totalSupply))
    ensures c.(circulatingSupply := c.totalSupply).circulatingSupply > 0
  {
  }

  predicate RewardInvariant(k: RewardKey, a: RewardAccount)
  {
    a.player == k.player && a.gameId == k.gameId && a.amount > 0 && |a.gameId| <= MAX_GAME_ID_LEN
  }

  /** An airdrop belongs to the recipient in its seeds, becomes claimable after it was set up, and records its claim time exactly when claimed, never before it was claimable. */
  predicate AirdropInvariant(recipient: Pubkey, a: AirdropAccount)
  {
    && a.recipient == recipient
    && a.amount > 0
    && a.createdAt < a.claimableAt
    && (a.claimed <==> a.claimedAt.Some?)
    && (a.claimedAt.Some? ==> a.claimedAt.value >= a.claimableAt)
  }

  class Program {
    /** The token program this program calls. */
    const ledger: Ledger
    /** Memecoin configurations, by mint. */
    var configs: map<Pubkey, MemecoinConfig>
    /** Game-reward records, by their seeds: one per player and game. */
    var rewards: map<RewardKey, RewardAccount>
    /** Airdrop records, by recipient. */
    var airdrops: map<Pubkey, AirdropAccount>
    /** Every event emitted, oldest first. */
    var events: seq<Event>

    ghost predicate Valid()
      reads this
    {
      && (forall m :: m in configs ==> ConfigInvariant(m, configs[m]))
      && (forall k :: k in rewards ==> RewardInvariant(k, rewards[k]))
      && (forall k :: k in airdrops ==> AirdropInvariant(k, airdrops[k]))
    }

    constructor (ledger: Ledger)
      ensures Valid() && this.ledger == ledger
      ensures configs == map[] && rewards == map[] && airdrops == map[] && events == []
    {
      this.ledger := ledger;
      configs, rewards, airdrops, events := map[], map[], map[], [];
    }

    /**
     `initialize_memecoin`: records a memecoin with the caller as authority,
     nothing yet in circulation, and the supply split by `PoolSplit`.
     */
    method InitializeMemecoin(caller: Pubkey, mint: Pubkey, tokenName: Bytes, tokenSymbol: Bytes, decimals: U8, totalSupply: U64, now: I64)
      returns (r: Result)
      requires Valid()
      modifies this
      ensures Valid()
      ensures r == (
        if mint in old(configs) then Err(Host(AccountAlreadyInUse))
        else if |tokenName| > MAX_NAME_LEN then Err(Program(NameTooLong))
        else if |tokenSymbol| > MAX_SYMBOL_LEN then Err(Program(SymbolTooLong))
        else if decimals > MAX_DECIMALS then Err(Program(InvalidDecimals))
        else if totalSupply == 0 then Err(Program(InvalidSupply))
        else if PoolSplit(totalSupply).None? then Err(Host(ArithmeticOverflow))
        else Ok)
      ensures r.Ok? ==>
        var p := PoolSplit(totalSupply).value;
        && configs == old(configs)[mint := MemecoinConfig(caller, mint, tokenName, tokenSymbol, decimals, totalSupply, 0,
                                                          p.gameRewards, p.liquidity, p.team, p.community, true, now)]
        && events == old(events) + [MemecoinInitialized(mint, tokenName, tokenSymbol, totalSupply, caller, now)]
      ensures r.Err? ==> unchanged(this)
      ensures rewards == old(rewards) && airdrops == old(airdrops)
    {
      if mint in configs { return Err(Host(AccountAlreadyInUse)); }
      if |tokenName| > MAX_NAME_LEN { return Err(Program(NameTooLong)); }
      if |tokenSymbol| > MAX_SYMBOL_LEN { return Err(Program(SymbolTooLong)); }
      if decimals > MAX_DECIMALS { return Err(Program(InvalidDecimals)); }
      if totalSupply == 0 { return Err(Program(InvalidSupply)); }
      var pools := PoolSplit(totalSupply);
      if pools.None? { return Err(Host(ArithmeticOverflow)); }
      var p := pools.value;
      configs := configs[mint := MemecoinConfig(caller, mint, tokenName, tokenSymbol, decimals, totalSupply, 0,
                                                p.gameRewards, p.liquidity, p.team, p.community, true, now)];
      events := events + [MemecoinInitialized(mint, tokenName, tokenSymbol, totalSupply, caller, now)];
      return Ok;
    }

    /**
     `distribute_initial_supply`: the authority mints the four allocations,
     in order, into the four accounts given, and the whole supply counts as
     circulating. Since the supply is positive, every later call fails with
     `AlreadyDistributed`.
     */
    method DistributeInitialSupply(caller: Pubkey, mint: Pubkey,
                                   gameRewardsAccount: AccountId, liquidityAccount: AccountId,
                                   teamAccount: AccountId, communityAccount: AccountId, now: I64)
      returns (r: Result)
      requires Valid()
      modifies this, ledger
      ensures Valid()
      ensures r == (
        if mint !in old(configs) then Err(Host(AccountNotInitialized))
        else if caller != old(configs)[mint].authority then Err(Host(ConstraintHasOne))
        else if old(configs)[mint].circulatingSupply != 0 then Err(Program(AlreadyDistributed))
        else Ok)
      ensures r.Ok? ==>
        var c := old(configs)[mint];
        && configs == old(configs)[mint := c.(circulatingSupply := c.totalSupply)]
        && ledger.balances == Credit(Credit(Credit(Credit(old(ledger.balances),
                                gameRewardsAccount, c.gameRewardsPool), liquidityAccount, c.liquidityPool),
                                teamAccount, c.teamAllocation), communityAccount, c.communityAllocation)
        && events == old(events) + [InitialSupplyDistributed(mint, c.totalSupply, now)]
        && configs[mint].circulatingSupply > 0
      ensures r.Err? ==> unchanged(this) && ledger.balances == old(ledger.balances)
      ensures rewards == old(rewards) && airdrops == old(airdrops)
    {
      if mint !in configs {
        r := Err(Host(AccountNotInitialized));
      } else if caller != configs[mint].authority {
        r := Err(Host(ConstraintHasOne));
      } else if configs[mint].circulatingSupply != 0 {
        r := Err(Program(AlreadyDistributed));
      } else {
        var config := configs[mint];
        ledger.MintTo(gameRewardsAccount, config.gameRewardsPool);
        ledger.MintTo(liquidityAccount, config.liquidityPool);
        ledger.MintTo(teamAccount, config.teamAllocation);
        ledger.MintTo(communityAccount, config.communityAllocation);
        DistributionKeepsConfig(mint, config);
        configs := configs[mint := config.(circulatingSupply := config.totalSupply)];
        events := events + [InitialSupplyDistributed(mint, config.totalSupply, now)];
        r := Ok;
      }
    }

    /**
     `distribute_game_rewards`: the authority pays `amount` from the rewards
     pool to a player's account and records the payout at ("reward", player,
     game_id). Because that record can be created only once, a second payout
     for the same player and game fails.
     */
    method DistributeGameRewards(caller: Pubkey, mint: Pubkey, player: Pubkey, amount: U64, gameId: Bytes,
                                 playerAccount: AccountId, now: I64)
      returns (r: Result)
      requires Valid()
      modifies this, ledger
      ensures Valid()
      ensures r == (
        if mint !in old(configs) then Err(Host(AccountNotInitialized))
        else if RewardKey(player, gameId) in old(rewards) then Err(Host(AccountAlreadyInUse))
        else if caller != old(configs)[mint].authority then Err(Host(ConstraintHasOne))
        else if amount == 0 then Err(Program(InvalidAmount))
        else if |gameId| > MAX_GAME_ID_LEN then Err(Program(GameIdTooLong))
        else if Balance(old(ledger.balances), RewardsPool(mint)) < amount then Err(Program(InsufficientRewards))
        else Ok)
      ensures r.Ok? ==>
        && rewards == old(rewards)[RewardKey(player, gameId) := RewardAccount(player, gameId, amount, now)]
        && ledger.balances == Move(old(ledger.balances), RewardsPool(mint), playerAccount, amount)
        && events == old(events) + [GameRewardDistributed(player, amount, gameId, now)]
      ensures r.Err? ==> unchanged(this) && ledger.balances == old(ledger.balances)
      ensures configs == old(configs) && airdrops == old(airdrops)
    {
      if mint !in configs { return Err(Host(AccountNotInitialized)); }
      var key := RewardKey(player, gameId);
      if key in rewards { return Err(Host(AccountAlreadyInUse)); }
      if caller != configs[mint].authority { return Err(Host(ConstraintHasOne)); }
      if amount == 0 { return Err(Program(InvalidAmount)); }
      if |gameId| > MAX_GAME_ID_LEN { return Err(Program(GameIdTooLong)); }
      if Balance(ledger.balances, RewardsPool(mint)) < amount { return Err(Program(InsufficientRewards)); }
      var paid := ledger.Transfer(RewardsPool(mint), playerAccount, amount);
      assert paid;
      rewards := rewards[key := RewardAccount(player, gameId, amount, now)];
      events := events + [GameRewardDistributed(player, amount, gameId, now)];
      return Ok;
    }

    /**
     `setup_airdrop_account`: records an unclaimed airdrop of `amount` for the
     caller, claimable from `claimable_at`, which must lie after `now`.
     */
    method SetupAirdropAccount(caller: Pubkey, mint: Pubkey, amount: U64, claimableAt: I64, now: I64) returns (r: Result)
      requires Valid()
      modifies this
      ensures Valid()
      ensures r == (
        if caller in old(airdrops) then Err(Host(AccountAlreadyInUse))
        else if amount == 0 then Err(Program(InvalidAmount))
        else if claimableAt <= now then Err(Program(InvalidClaimTime))
        else Ok)
      ensures r.Ok? ==>
        && airdrops == old(airdrops)[caller := AirdropAccount(caller, mint, amount, claimableAt, false, now, None)]
        && events == old(events) + [AirdropAccountSetup(caller, amount, claimableAt, now)]
      ensures r.Err? ==> unchanged(this)
      ensures configs == old(configs) && rewards == old(rewards)
    {
      if caller in airdrops { return Err(Host(AccountAlreadyInUse)); }
      if amount == 0 { return Err(Program(InvalidAmount)); }
      if claimableAt <= now { return Err(Program(InvalidClaimTime)); }
      airdrops := airdrops[caller := AirdropAccount(caller, mint, amount, claimableAt, false, now, None)];
      events := events + [AirdropAccountSetup(caller, amount, claimableAt, now)];
      return Ok;
    }

    /**
     `claim_airdrop`: from `claimable_at` on (that instant included), the
     recipient receives the airdrop from the airdrop pool, and the record is
     marked claimed at `now`, so every later claim fails with `AlreadyClaimed`.
     */
    method ClaimAirdrop(caller: Pubkey, recipient: Pubkey, mint: Pubkey, to: AccountId, now: I64) returns (r: Result)
      requires Valid()
      modifies this, ledger
      ensures Valid()
      ensures r == (
        if recipient !in old(airdrops) then Err(Host(AccountNotInitialized))
        else
          var a := old(airdrops)[recipient];
          if a.mint != mint then Err(Host(ConstraintHasOne))
          else if a.claimed then Err(Program(AlreadyClaimed))
          else if caller != a.recipient then Err(Host(ConstraintRaw))
          else if now < a.claimableAt then Err(Program(AirdropNotAvailable))
          else if Balance(old(ledger.balances), AirdropPool(mint)) < a.amount then Err(Host(HostError.InsufficientFunds))
          else Ok)
      ensures r.Ok? ==>
        var a := old(airdrops)[recipient];
        && airdrops == old(airdrops)[recipient := a.(claimed := true, claimedAt := Some(now))]
        && ledger.balances == Move(old(ledger.balances), AirdropPool(mint), to, a.amount)
        && events == old(events) + [AirdropClaimed(recipient, a.amount, now)]
        && a.claimableAt <= now
      ensures r.Err? ==> unchanged(this) && ledger.balances == old(ledger.balances)
      ensures configs == old(configs) && rewards == old(rewards)
    {
      if recipient !in airdrops { return Err(Host(AccountNotInitialized)); }
      var airdrop := airdrops[recipient];
      if airdrop.mint != mint { return Err(Host(ConstraintHasOne)); }
      if airdrop.claimed { return Err(Program(AlreadyClaimed)); }
      if caller != airdrop.recipient { return Err(Host(ConstraintRaw)); }
      if now < airdrop.claimableAt { return Err(Program(AirdropNotAvailable)); }
      var paid := ledger.Transfer(AirdropPool(mint), to, airdrop.amount);
      if !paid { return Err(Host(HostError.InsufficientFunds)); }
      airdrops := airdrops[recipient := airdrop.(claimed := true, claimedAt := Some(now))];
      events := events + [AirdropClaimed(airdrop.recipient, airdrop.amount, now)];
      return Ok;
    }
  }
}
