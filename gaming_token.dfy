/**
 The gaming token program: a mint whose configuration counts the supply it
 has minted, and time-locked stakes that earn a 5% yearly reward, claimable
 while staked and paid again, from the stake's creation, on unstaking.
 */
module GamingToken {
  import opened Num
  import opened Host
  import opened TokenService

  const MAX_NAME_LEN: nat := 32
  const MAX_SYMBOL_LEN: nat := 10
  const MAX_DECIMALS: nat := 9

  /** The yearly reward, in percent of the staked amount. */
  const APR_PERCENT: nat := 5
  /** A 365-day year; there is no leap-year correction. */
  const SECONDS_PER_YEAR: nat := 365 * 24 * 60 * 60
  /** The divisor `100 * 365 * 24 * 60 * 60` of the reward formula. */
  const REWARD_DIVISOR: nat := 100 * SECONDS_PER_YEAR

  datatype GamingTokenError =
    | NameTooLong
    | SymbolTooLong
    | InvalidDecimals
    | InvalidAmount
    | InvalidLockPeriod
    | Unauthorized
    | StakeNotActive
    | TokensStillLocked
    | InsufficientFunds

  type Result = Outcome<GamingTokenError>

  /** The configuration record of one mint, at ("mint_config", mint). */
  datatype MintConfig = MintConfig(
    authority: Pubkey,
    mint: Pubkey,
    tokenName: Bytes,
    tokenSymbol: Bytes,
    decimals: U8,
    totalSupply: U64,
    isInitialized: bool,
    createdAt: I64)

  /** The seeds ("stake", owner, mint) of a stake record. */
  datatype StakeKey = StakeKey(owner: Pubkey, mint: Pubkey)

  /** One stake. Its `mint` field is never written by the program, so it keeps the all-zero key. */
  datatype StakeAccount = StakeAccount(
    owner: Pubkey,
    mint: Pubkey,
    amount: U64,
    lockUntil: I64,
    createdAt: I64,
    lastRewardClaim: I64,
    isActive: bool)

  datatype Event =
    | MintInitialized(mint: Pubkey, name: Bytes, symbol: Bytes, decimals: U8, authority: Pubkey, timestamp: I64)
    | TokensMinted(mint: Pubkey, to: AccountId, amount: U64, newSupply: U64, timestamp: I64)
    | TokensStaked(owner: Pubkey, amount: U64, lockUntil: I64, timestamp: I64)
    | TokensUnstaked(owner: Pubkey, principal: U64, reward: U64, total: U64, timestamp: I64)
    | RewardsClaimed(owner: Pubkey, amount: U64, timestamp: I64)

  // ---------------------------------------------------------------------------
  // The reward formula

  /**
   The reward on `amount` tokens staked for `elapsed` seconds, in exact
   arithmetic: `amount * 5 * elapsed / (100 * 365 * 24 * 60 * 60)`, rounded down.
   */
  function AccruedReward(amount: nat, elapsed: nat): (r: nat)
    ensures amount == 0 || elapsed == 0 ==> r == 0
  {
    amount * APR_PERCENT * elapsed / REWARD_DIVISOR
  }

  /**
   The reward as the handlers compute it on 64-bit integers: the elapsed time
   is cast with `as u64`, and both multiplications are checked before the
   division. A negative elapsed time always overflows once anything is staked.
   */
  function RewardAmount(amount: U64, elapsed: I64): (r: Option<U64>)
    ensures r.Some? <==> amount * APR_PERCENT <= U64_MAX && amount * APR_PERCENT * AsU64(elapsed) <= U64_MAX
    ensures r.Some? ==> r.value == AccruedReward(amount, AsU64(elapsed))
    ensures amount > 0 && elapsed < 0 ==> r.None?
  {
    match MulU64(amount, APR_PERCENT)
    case None => None
    case Some(scaled) =>
      NegativeElapsedOverflows(scaled, AsU64(elapsed));
      match MulU64(scaled, AsU64(elapsed))
      case None => None
      case Some(product) => Some(product / REWARD_DIVISOR)
  }

  /** The reward `claim_rewards` pays: the accrual since the last claim. */
  function RewardSinceLastClaim(s: StakeAccount, now: I64): (r: Option<U64>)
    ensures s.lastRewardClaim <= now && r.Some? ==> r.value == AccruedReward(s.amount, now - s.lastRewardClaim)
    ensures s.amount > 0 && now < s.lastRewardClaim ==> r.None?
  {
    match SubI64(now, s.lastRewardClaim)
    case None => None
    case Some(elapsed) => RewardAmount(s.amount, elapsed)
  }

  /** The reward `unstake_tokens` pays: the accrual since the stake was created, whatever was claimed since. */
  function RewardSinceStake(s: StakeAccount, now: I64): (r: Option<U64>)
    ensures s.createdAt <= now && r.Some? ==> r.value == AccruedReward(s.amount, now - s.createdAt)
    ensures s.amount > 0 && now < s.createdAt ==> r.None?
  {
    match SubI64(now, s.createdAt)
    case None => None
    case Some(elapsed) => RewardAmount(s.amount, elapsed)
  }

  /** What `unstake_tokens` transfers to the owner: the principal plus `RewardSinceStake`, a checked sum. */
  function UnstakePayout(s: StakeAccount, now: I64): (r: Option<U64>)
    ensures s.createdAt <= now && r.Some? ==> r.value == s.amount + AccruedReward(s.amount, now - s.createdAt)
    ensures s.amount > 0 && now < s.createdAt ==> r.None?
  {
    match RewardSinceStake(s, now)
    case None => None
    case Some(reward) => AddU64(s.amount, reward)
  }

  /** The stake after a claim at `now` that paid something. */
  function ClaimedAt(s: StakeAccount, now: I64): (r: StakeAccount)
    ensures r.lastRewardClaim == now
    ensures r.(lastRewardClaim := s.lastRewardClaim) == s
  {
    s.(lastRewardClaim := now)
  }

  /** A scaled amount of at least 5 times a reinterpreted negative `i64` is past `u64`. */
  lemma NegativeElapsedOverflows(scaled: nat, x: nat)
    ensures scaled >= APR_PERCENT && x > I64_MAX ==> scaled * x > U64_MAX
  {
    if scaled >= APR_PERCENT && x > I64_MAX {
      MulAtLeast(scaled, x, APR_PERCENT, I64_MAX + 1);
    }
  }

  lemma MulAtLeast(a: nat, b: nat, c: nat, d: nat)
    requires a >= c && b >= d
    ensures a * b >= c * d
  {
    assert a * b >= c * b;
    assert c * b >= c * d;
  }

  /** A longer stake never earns less. */
  lemma AccruedRewardMonotone(amount: nat, e1: nat, e2: nat)
    requires e1 <= e2
    ensures AccruedReward(amount, e1) <= AccruedReward(amount, e2)
  {
    MulAtLeast(amount * APR_PERCENT, e2, amount * APR_PERCENT, e1);
    var low := amount * APR_PERCENT * e1;
    FloorLowerBound(low / REWARD_DIVISOR, amount * APR_PERCENT * e2, REWARD_DIVISOR);
  }

  /**
   Rewards paid for two consecutive periods never add up to more than the
   reward for the whole period: each floor division can only lose.
   */
  lemma AccruedRewardSuperadditive(amount: nat, x: nat, y: nat)
    ensures AccruedReward(amount, x) + AccruedReward(amount, y) <= AccruedReward(amount, x + y)
  {
    var p := amount * APR_PERCENT;
    var qx, qy := p * x / REWARD_DIVISOR, p * y / REWARD_DIVISOR;
    assert qx * REWARD_DIVISOR <= p * x;
    assert qy * REWARD_DIVISOR <= p * y;
    assert p * (x + y) == p * x + p * y;
    assert (qx + qy) * REWARD_DIVISOR <= p * (x + y);
    FloorLowerBound(qx + qy, p * (x + y), REWARD_DIVISOR);
  }

  lemma FloorLowerBound(q: nat, n: nat, d: nat)
    requires d > 0 && q * d <= n
    ensures q <= n / d
  {
    assert n < (n / d) * d + d;
    if q > n / d {
      MulAtLeast(q, d, n / d + 1, d);
    }
  }

  /** Within one year the reward is at most 5% of the stake: twenty times the reward never exceeds the amount. */
  lemma AccruedRewardWithinRate(amount: nat, elapsed: nat)
    requires elapsed <= SECONDS_PER_YEAR
    ensures 20 * AccruedReward(amount, elapsed) <= amount
  {
    var p := amount * APR_PERCENT;
    var q := p * elapsed / REWARD_DIVISOR;
    assert q * REWARD_DIVISOR <= p * elapsed;
    MulAtLeast(p, SECONDS_PER_YEAR, p, elapsed);
  }

  /** Unstaking reads only the principal and the creation time, so earlier claims do not change what it pays. */
  lemma UnstakeIgnoresClaims(s: StakeAccount, claimTime: I64, now: I64)
    ensures RewardSinceStake(ClaimedAt(s, claimTime), now) == RewardSinceStake(s, now)
    ensures UnstakePayout(ClaimedAt(s, claimTime), now) == UnstakePayout(s, now)
  {
  }

  /**
   A claim at `t1` followed by unstaking at `t2` pays the claimed reward
   twice: the unstake reward is the whole accrual from creation, which is at
   least the claimed reward plus the accrual after the claim. Claim and
   unstake together therefore pay the owner at least `claimed` more than
   they would if unstaking resumed from the last claim, and whenever the
   claim paid anything the total exceeds the whole accrual.
   */
  lemma ClaimThenUnstakePaysTwice(s: StakeAccount, t1: I64, t2: I64)
    requires s.amount > 0 && s.createdAt == s.lastRewardClaim
    requires s.createdAt <= t1 <= t2
    requires RewardSinceStake(s, t2).Some?
    ensures RewardSinceLastClaim(s, t1).Some?
    ensures RewardSinceStake(ClaimedAt(s, t1), t2) == RewardSinceStake(s, t2)
    ensures RewardSinceStake(s, t2).value == AccruedReward(s.amount, t2 - s.createdAt)
    ensures RewardSinceLastClaim(s, t1).value + AccruedReward(s.amount, t2 - t1) <= RewardSinceStake(s, t2).value
  {
    var c := s.createdAt;
    var p := s.amount * APR_PERCENT;
    MulAtLeast(p, t2 - c, p, t1 - c);
    assert RewardAmount(s.amount, t1 - c).Some?;
    AccruedRewardSuperadditive(s.amount, t1 - c, t2 - t1);
  }

  /**
   The worked example: 1 000 000 tokens staked for a year earn 50 000, and a
   claim half-way through pays 25 000 without lowering the computed unstake
   payout of 1 050 000. The stake vault holds only the principal, so that
   payout is transferred only if the vault was funded from outside.
   */
  lemma OneYearOfStake(s: StakeAccount)
    requires s.amount == 1_000_000 && s.createdAt == s.lastRewardClaim
    requires s.createdAt <= I64_MAX - SECONDS_PER_YEAR
    ensures RewardSinceLastClaim(s, s.createdAt + SECONDS_PER_YEAR / 2) == Some(25_000)
    ensures UnstakePayout(s, s.createdAt + SECONDS_PER_YEAR) == Some(1_050_000)
    ensures UnstakePayout(ClaimedAt(s, s.createdAt + SECONDS_PER_YEAR / 2), s.createdAt + SECONDS_PER_YEAR) == Some(1_050_000)
  {
  }

  // ---------------------------------------------------------------------------
  // Records and the program state

  predicate ConfigInvariant(mint: Pubkey, c: MintConfig)
  {
    && c.mint == mint
    && c.isInitialized
    && |c.tokenName| <= MAX_NAME_LEN
    && |c.tokenSymbol| <= MAX_SYMBOL_LEN
    && c.decimals <= MAX_DECIMALS
  }

  /** Every stake belongs to the owner in its seeds, locks a positive amount, and keeps `created_at <= last_reward_claim` and `created_at < lock_until`. */
  predicate StakeInvariant(k: StakeKey, s: StakeAccount)
  {
    && s.owner == k.owner
    && s.amount > 0
    && s.createdAt < s.lockUntil
    && s.createdAt <= s.lastRewardClaim
  }

  class Program {
    /** The token program this program calls. */
    const ledger: Ledger
    /** Mint configurations, by mint. */
    var configs: map<Pubkey, MintConfig>
    /** Stake records, by their seeds. */
    var stakes: map<StakeKey, StakeAccount>
    /**
     The mints whose ("stake_vault", mint) and ("reward_vault", mint) token
     accounts exist. `stake_tokens` creates both with `init`, so it succeeds
     at most once per mint.
     */
    var vaults: set<Pubkey>
    /** Every event emitted, oldest first. */
    var events: seq<Event>

    ghost predicate Valid()
      reads this
    {
      && (forall m :: m in configs ==> ConfigInvariant(m, configs[m]))
      && (forall k :: k in stakes ==> StakeInvariant(k, stakes[k]) && k.mint in vaults)
      && (forall k, k' :: k in stakes && k' in stakes && k.mint == k'.mint ==> k == k')
    }

    constructor (ledger: Ledger)
      ensures Valid() && this.ledger == ledger
      ensures configs == map[] && stakes == map[] && vaults == {} && events == []
    {
      this.ledger := ledger;
      configs, stakes, vaults, events := map[], map[], {}, [];
    }

    /** `initialize_mint`: records a new mint whose authority is the caller and whose supply is 0. */
    method InitializeMint(caller: Pubkey, mint: Pubkey, tokenName: Bytes, tokenSymbol: Bytes, decimals: U8, now: I64)
      returns (r: Result)
      requires Valid()
      modifies this
      ensures Valid()
      ensures r == (
        if mint in old(configs) then Err(Host(AccountAlreadyInUse))
        else if |tokenName| > MAX_NAME_LEN then Err(Program(NameTooLong))
        else if |tokenSymbol| > MAX_SYMBOL_LEN then Err(Program(SymbolTooLong))
        else if decimals > MAX_DECIMALS then Err(Program(InvalidDecimals))
        else Ok)
      ensures r.Ok? ==> configs == old(configs)[mint := MintConfig(caller, mint, tokenName, tokenSymbol, decimals, 0, true, now)]
      ensures r.Ok? ==> events == old(events) + [MintInitialized(mint, tokenName, tokenSymbol, decimals, caller, now)]
      ensures r.Err? ==> unchanged(this)
      ensures stakes == old(stakes) && vaults == old(vaults)
    {
      if mint in configs { return Err(Host(AccountAlreadyInUse)); }
      if |tokenName| > MAX_NAME_LEN { return Err(Program(NameTooLong)); }
      if |tokenSymbol| > MAX_SYMBOL_LEN { return Err(Program(SymbolTooLong)); }
      if decimals > MAX_DECIMALS { return Err(Program(InvalidDecimals)); }
      configs := configs[mint := MintConfig(caller, mint, tokenName, tokenSymbol, decimals, 0, true, now)];
      events := events + [MintInitialized(mint, tokenName, tokenSymbol, decimals, caller, now)];
      return Ok;
    }

    /**
     `mint_tokens`: the mint's authority mints `amount` new tokens into `to`
     and the recorded supply grows by exactly `amount`; an overflowing supply
     aborts the instruction. No instruction ever lowers a supply.
     */
    method MintTokens(caller: Pubkey, mint: Pubkey, to: AccountId, amount: U64, now: I64) returns (r: Result)
      requires Valid()
      modifies this, ledger
      ensures Valid()
      ensures r == (
        if mint !in old(configs) then Err(Host(AccountNotInitialized))
        else if caller != old(configs)[mint].authority then Err(Host(ConstraintHasOne))
        else if amount == 0 then Err(Program(InvalidAmount))
        else if old(configs)[mint].totalSupply + amount > U64_MAX then Err(Host(ArithmeticOverflow))
        else Ok)
      ensures r.Ok? ==> configs == old(configs)[mint := old(configs)[mint].(totalSupply := old(configs)[mint].totalSupply + amount)]
      ensures r.Ok? ==> ledger.balances == Credit(old(ledger.balances), to, amount)
      ensures r.Ok? ==> events == old(events) + [TokensMinted(mint, to, amount, configs[mint].totalSupply, now)]
      ensures r.Err? ==> unchanged(this) && ledger.balances == old(ledger.balances)
      ensures stakes == old(stakes) && vaults == old(vaults)
      ensures forall m :: m in old(configs) ==> m in configs && old(configs)[m].totalSupply <= configs[m].totalSupply
    {
      if mint !in configs { return Err(Host(AccountNotInitialized)); }
      var config := configs[mint];
      if caller != config.authority { return Err(Host(ConstraintHasOne)); }
      if amount == 0 { return Err(Program(InvalidAmount)); }
      var supply := AddU64(config.totalSupply, amount);
      if supply.None? { return Err(Host(ArithmeticOverflow)); }
      ledger.MintTo(to, amount);
      configs := configs[mint := config.(totalSupply := supply.value)];
      events := events + [TokensMinted(mint, to, amount, supply.value, now)];
      return Ok;
    }

    /**
     `stake_tokens`: moves `amount` from the caller's wallet into the mint's
     stake vault and records an active stake locked until `now + lock_period`,
     with both reward clocks at `now`.
     */
    method StakeTokens(caller: Pubkey, mint: Pubkey, amount: U64, lockPeriod: I64, now: I64) returns (r: Result)
      requires Valid()
      modifies this, ledger
      ensures Valid()
      ensures r == (
        if StakeKey(caller, mint) in old(stakes) || mint in old(vaults) then Err(Host(AccountAlreadyInUse))
        else if amount == 0 then Err(Program(InvalidAmount))
        else if lockPeriod <= 0 then Err(Program(InvalidLockPeriod))
        else if Balance(old(ledger.balances), Wallet(caller, mint)) < amount then Err(Host(HostError.InsufficientFunds))
        else if now + lockPeriod > I64_MAX then Err(Host(ArithmeticOverflow))
        else Ok)
      ensures r.Ok? ==> stakes == old(stakes)[StakeKey(caller, mint) := StakeAccount(caller, DEFAULT_PUBKEY, amount, now + lockPeriod, now, now, true)]
      ensures r.Ok? ==> vaults == old(vaults) + {mint}
      ensures r.Ok? ==> ledger.balances == Move(old(ledger.balances), Wallet(caller, mint), StakeVault(mint), amount)
      ensures r.Ok? ==> events == old(events) + [TokensStaked(caller, amount, now + lockPeriod, now)]
      ensures r.Ok? ==> var s := stakes[StakeKey(caller, mint)]; s.createdAt == s.lastRewardClaim == now < s.lockUntil && s.isActive
      ensures r.Err? ==> unchanged(this) && ledger.balances == old(ledger.balances)
      ensures configs == old(configs)
    {
      var key := StakeKey(caller, mint);
      if key in stakes || mint in vaults { return Err(Host(AccountAlreadyInUse)); }
      if amount == 0 { return Err(Program(InvalidAmount)); }
      if lockPeriod <= 0 { return Err(Program(InvalidLockPeriod)); }
      if Balance(ledger.balances, Wallet(caller, mint)) < amount { return Err(Host(HostError.InsufficientFunds)); }
      var lockUntil := AddI64(now, lockPeriod);
      if lockUntil.None? { return Err(Host(ArithmeticOverflow)); }
      var moved := ledger.Transfer(Wallet(caller, mint), StakeVault(mint), amount);
      assert moved;
      stakes := stakes[key := StakeAccount(caller, DEFAULT_PUBKEY, amount, lockUntil.value, now, now, true)];
      vaults := vaults + {mint};
      events := events + [TokensStaked(caller, amount, lockUntil.value, now)];
      return Ok;
    }

    /**
     `claim_rewards`: pays the owner of an active stake the reward accrued
     since the last claim, out of the mint's reward vault, and restarts the
     accrual at `now`. A zero reward is no error and changes nothing.
     */
    method ClaimRewards(caller: Pubkey, key: StakeKey, mint: Pubkey, to: AccountId, now: I64) returns (r: Result)
      requires Valid()
      modifies this, ledger
      ensures Valid()
      ensures r == (
        if key !in old(stakes) then Err(Host(AccountNotInitialized))
        else
          var s := old(stakes)[key];
          if caller != s.owner then Err(Host(ConstraintHasOne))
          else if !s.isActive then Err(Program(StakeNotActive))
          else if RewardSinceLastClaim(s, now).None? then Err(Host(ArithmeticOverflow))
          else if Balance(old(ledger.balances), RewardVault(mint)) < RewardSinceLastClaim(s, now).value then Err(Host(HostError.InsufficientFunds))
          else Ok)
      ensures r.Ok? && RewardSinceLastClaim(old(stakes)[key], now).value == 0 ==> unchanged(this) && ledger.balances == old(ledger.balances)
      ensures r.Ok? && RewardSinceLastClaim(old(stakes)[key], now).value > 0 ==>
        var reward := RewardSinceLastClaim(old(stakes)[key], now).value;
        && stakes == old(stakes)[key := ClaimedAt(old(stakes)[key], now)]
        && old(stakes)[key].lastRewardClaim <= now
        && ledger.balances == Move(old(ledger.balances), RewardVault(mint), to, reward)
        && events == old(events) + [RewardsClaimed(caller, reward, now)]
      ensures r.Err? ==> unchanged(this) && ledger.balances == old(ledger.balances)
      ensures configs == old(configs) && vaults == old(vaults)
    {
      if key !in stakes { return Err(Host(AccountNotInitialized)); }
      var stake := stakes[key];
      if caller != stake.owner { return Err(Host(ConstraintHasOne)); }
      if !stake.isActive { return Err(Program(StakeNotActive)); }
      var reward := RewardSinceLastClaim(stake, now);
      if reward.None? { return Err(Host(ArithmeticOverflow)); }
      if reward.value > 0 {
        var paid := ledger.Transfer(RewardVault(mint), to, reward.value);
        if !paid { return Err(Host(HostError.InsufficientFunds)); }
        stakes := stakes[key := ClaimedAt(stake, now)];
        events := events + [RewardsClaimed(stake.owner, reward.value, now)];
      }
      return Ok;
    }

    /**
     `unstake_tokens`: once the lock has expired (at `lock_until` itself or
     later), pays the owner the principal plus `RewardSinceStake` out of the
     mint's stake vault and closes the stake, so later claims and unstakes fail.
     */
    method UnstakeTokens(caller: Pubkey, key: StakeKey, mint: Pubkey, to: AccountId, now: I64) returns (r: Result)
      requires Valid()
      modifies this, ledger
      ensures Valid()
      ensures r == (
        if key !in old(stakes) then Err(Host(AccountNotInitialized))
        else
          var s := old(stakes)[key];
          if caller != s.owner then Err(Host(ConstraintHasOne))
          else if !s.isActive then Err(Program(StakeNotActive))
          else if now < s.lockUntil then Err(Program(TokensStillLocked))
          else if UnstakePayout(s, now).None? then Err(Host(ArithmeticOverflow))
          else if Balance(old(ledger.balances), StakeVault(mint)) < UnstakePayout(s, now).value then Err(Host(HostError.InsufficientFunds))
          else Ok)
      ensures r.Ok? ==>
        var s := old(stakes)[key];
        var total := UnstakePayout(s, now).value;
        && stakes == old(stakes)[key := s.(isActive := false)]
        && ledger.balances == Move(old(ledger.balances), StakeVault(mint), to, total)
        && events == old(events) + [TokensUnstaked(caller, s.amount, RewardSinceStake(s, now).value, total, now)]
      ensures r.Err? ==> unchanged(this) && ledger.balances == old(ledger.balances)
      ensures configs == old(configs) && vaults == old(vaults)
    {
      if key !in stakes { return Err(Host(AccountNotInitialized)); }
      var stake := stakes[key];
      if caller != stake.owner { return Err(Host(ConstraintHasOne)); }
      if !stake.isActive { return Err(Program(StakeNotActive)); }
      if now < stake.lockUntil { return Err(Program(TokensStillLocked)); }
      var reward := RewardSinceStake(stake, now);
      if reward.None? { return Err(Host(ArithmeticOverflow)); }
      var total := AddU64(stake.amount, reward.value);
      if total.None? { return Err(Host(ArithmeticOverflow)); }
      var paid := ledger.Transfer(StakeVault(mint), to, total.value);
      if !paid { return Err(Host(HostError.InsufficientFunds)); }
      stakes := stakes[key := stake.(isActive := false)];
      events := events + [TokensUnstaked(stake.owner, stake.amount, reward.value, total.value, now)];
      return Ok;
    }
  }
}
