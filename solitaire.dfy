/**
 The solitaire program: a player stakes tokens into a per-game escrow, makes
 moves, and either completes the game (half the stake back on a loss, twice
 the stake on a win) or, after a day without activity, abandons it for the
 stake minus a 10% penalty.
 */
module Solitaire {
  import opened Num
  import opened Host
  import opened TokenService

  const MAX_GAME_ID_LEN: nat := 32
  /** Seconds without a move after which the stake may be withdrawn: 24 hours. */
  const WITHDRAWAL_DELAY: int := 86400
  /** Points a move earns. */
  const POINTS_PER_MOVE: nat := 10

  datatype SolitaireError =
    | InvalidStakeAmount
    | GameIdTooLong
    | GameNotActive
    | Unauthorized
    | InvalidMove
    | WithdrawalTooEarly
    | InsufficientFunds
    | GameStateError

  type Result = Outcome<SolitaireError>

  datatype GameStatus = Active | Completed | Abandoned

  /** The play state embedded in a game record. Its pile list is always empty and is not modelled. */
  datatype GameState = GameState(
    player: Pubkey,
    moves: U32,
    score: U64,
    isWon: bool,
    isComplete: bool,
    startTime: I64,
    endTime: Option<I64>)

  /** `GameState::new`: a fresh state for `player`, started at `now`. */
  function NewGameState(player: Pubkey, now: I64): (r: GameState)
    ensures r.player == player && r.startTime == now
    ensures r.moves == 0 && r.score == 0
    ensures !r.isWon && !r.isComplete && r.endTime.None?
  {
    GameState(player, 0, 0, false, false, now, None)
  }

  /**
   `GameState::make_move`: counts one move (`u32`) and adds 10 points
   (`u64`), and checks nothing else. While the score is 10 points a move,
   it keeps that rate and fails exactly when the move count is at its limit.
   */
  function StepGameState(gs: GameState): (r: Option<GameState>)
    ensures r.Some? <==> gs.moves < U32_MAX && gs.score + POINTS_PER_MOVE <= U64_MAX
    ensures r.Some? ==> r.value.moves == gs.moves + 1 && r.value.(moves := gs.moves, score := gs.score) == gs
    ensures r.Some? ==> r.value.score == gs.score + POINTS_PER_MOVE
    ensures gs.score == POINTS_PER_MOVE * gs.moves ==>
      && (r.Some? <==> gs.moves < U32_MAX)
      && (r.Some? ==> r.value.score == POINTS_PER_MOVE * r.value.moves)
  {
    match AddU32(gs.moves, 1)
    case None => None
    case Some(moves) =>
      match AddU64(gs.score, POINTS_PER_MOVE)
      case None => None
      case Some(score) => Some(gs.(moves := moves, score := score))
  }

  /** `GameState::is_won`: reads the flag, which nothing ever sets. */
  function IsWon(gs: GameState): (r: bool)
    ensures r <==> gs.isWon
  {
    gs.isWon
  }

  /** The seeds ("game", authority, game_id) of a game record. */
  datatype GameKey = GameKey(authority: Pubkey, gameId: Bytes)

  datatype GameAccount = GameAccount(
    authority: Pubkey,
    gameId: Bytes,
    stakeAmount: U64,
    rewardMint: Pubkey,
    status: GameStatus,
    moves: U32,
    score: U64,
    isWon: bool,
    createdAt: I64,
    updatedAt: I64,
    gameState: GameState,
    bump: U8)

  datatype Event =
    | GameStarted(gameId: Bytes, player: Pubkey, stakeAmount: U64, timestamp: I64)
    | MoveMade(gameId: Bytes, player: Pubkey, fromPile: Bytes, toPile: Bytes, cardIndex: U8, moves: U32, timestamp: I64)
    | GameCompleted(gameId: Bytes, player: Pubkey, won: bool, score: U64, moves: U32, timestamp: I64)
    | StakeWithdrawn(gameId: Bytes, player: Pubkey, amount: U64, penalty: U64, timestamp: I64)

  /**
   What `complete_game` pays out of the escrow: twice the stake for a win
   (a checked `u64` product), half the stake, rounded down, otherwise.
   */
  function CompletionPayout(stake: U64, won: bool): (r: Option<U64>)
    ensures won ==> (r.Some? <==> 2 * stake <= U64_MAX)
    ensures won && r.Some? ==> r.value == 2 * stake
    ensures !won ==> r.Some? && 2 * r.value <= stake < 2 * r.value + 2
  {
    if won then MulU64(stake, 2) else Some(stake / 2)
  }

  /** The refund and the penalty `withdraw_stake` splits a stake into. */
  datatype Withdrawal = Withdrawal(refund: U64, penalty: U64)

  /** The penalty is 10% of the stake, rounded down; the refund is the rest, so nothing is lost in the split. */
  function WithdrawalSplit(stake: U64): (r: Withdrawal)
    ensures r.refund + r.penalty == stake
    ensures 10 * r.penalty <= stake < 10 * r.penalty + 10
  {
    var penalty := stake / 10;
    Withdrawal(stake - penalty, penalty)
  }

  /**
   A game that is lost or abandoned never pays out more than its stake, and
   the withdrawal refund is at least the loss payout, and strictly more
   once the stake is at least 2: abandoning loses less than playing to a
   loss.
   */
  lemma LossPaysAtMostRefund(stake: U64)
    ensures CompletionPayout(stake, false).value <= WithdrawalSplit(stake).refund <= stake
    ensures stake >= 2 ==> CompletionPayout(stake, false).value < WithdrawalSplit(stake).refund
  {
  }

  /** The play state after `n` successive moves, or `None` once one of them fails. */
  function Play(gs: GameState, n: nat): Option<GameState>
    decreases n
  {
    if n == 0 then Some(gs)
    else match Play(gs, n - 1)
      case None => None
      case Some(g) => StepGameState(g)
  }

  /**
   `n` moves from a fresh state leave exactly `n` moves and `10 * n` points,
   and they all succeed exactly while `n` fits in a `u32`.
   */
  lemma {:induction false} PlayCountsMoves(player: Pubkey, now: I64, n: nat)
    ensures Play(NewGameState(player, now), n).Some? <==> n <= U32_MAX
    ensures Play(NewGameState(player, now), n).Some? ==>
      var g := Play(NewGameState(player, now), n).value;
      g.moves == n && g.score == POINTS_PER_MOVE * n && g.player == player && !IsWon(g)
  {
    if n > 0 {
      PlayCountsMoves(player, now, n - 1);
      if n - 1 > U32_MAX {
        assert Play(NewGameState(player, now), n - 1).None?;
      }
    }
  }

  /**
   The embedded play state mirrors the record: same player and start, the
   same move count, 10 points a move, and never won or complete.
   */
  predicate GameStateInvariant(g: GameAccount)
  {
    && g.gameState.player == g.authority
    && g.gameState.startTime == g.createdAt
    && g.gameState.moves == g.moves
    && g.gameState.score == POINTS_PER_MOVE * g.gameState.moves
    && !g.gameState.isWon
    && !g.gameState.isComplete
    && g.gameState.endTime.None?
  }

  predicate GameInvariant(k: GameKey, g: GameAccount)
  {
    && g.authority == k.authority
    && g.gameId == k.gameId
    && |g.gameId| <= MAX_GAME_ID_LEN
    && g.stakeAmount > 0
    && !g.isWon
    && g.bump == 0
    && GameStateInvariant(g)
  }

  /** No two games share a game id. */
  predicate OneGamePerId(games: map<GameKey, GameAccount>)
  {
    forall k1, k2 :: k1 in games && k2 in games && k1.gameId == k2.gameId ==> k1 == k2
  }

  /** Every game is well formed and owns an existing escrow. */
  predicate GamesWellFormed(games: map<GameKey, GameAccount>, escrows: set<Bytes>)
  {
    forall k :: k in games ==> GameInvariant(k, games[k]) && k.gameId in escrows
  }

  /** The escrow of every active game holds at least its stake. */
  predicate EscrowsFunded(games: map<GameKey, GameAccount>, b: Balances)
  {
    forall k :: k in games && games[k].status == Active ==> Balance(b, Escrow(k.gameId)) >= games[k].stakeAmount
  }

  /** The invariant of the program's state, over its games, its escrows and the token balances. */
  predicate Invariants(games: map<GameKey, GameAccount>, escrows: set<Bytes>, b: Balances)
  {
    GamesWellFormed(games, escrows) && OneGamePerId(games) && EscrowsFunded(games, b)
  }

  /**
   Starting a game under a fresh key and a fresh game id, funded by a
   transfer of its stake from its player's wallet into its escrow, keeps the
   invariant: the transfer takes nothing out of any escrow.
   */
  lemma StartKeepsInvariants(games: map<GameKey, GameAccount>, escrows: set<Bytes>, b: Balances, key: GameKey, g: GameAccount)
    requires Invariants(games, escrows, b)
    requires key !in games && key.gameId !in escrows && GameInvariant(key, g) && g.status == Active
    requires Balance(b, Wallet(key.authority, g.rewardMint)) >= g.stakeAmount
    ensures Invariants(games[key := g], escrows + {key.gameId},
                       Move(b, Wallet(key.authority, g.rewardMint), Escrow(key.gameId), g.stakeAmount))
  {
    var b' := Move(b, Wallet(key.authority, g.rewardMint), Escrow(key.gameId), g.stakeAmount);
    var games' := games[key := g];
    forall k1, k2 | k1 in games' && k2 in games' && k1.gameId == k2.gameId
      ensures k1 == k2
    {
      if k1 != key && k2 != key {
        assert OneGamePerId(games);
      }
    }
    forall k | k in games' && games'[k].status == Active
      ensures Balance(b', Escrow(k.gameId)) >= games'[k].stakeAmount
    {
      if k != key {
        assert k.gameId in escrows;
      }
    }
  }

  /** Replacing an active game by a well-formed active record with the same stake keeps the invariant. */
  lemma UpdateKeepsInvariants(games: map<GameKey, GameAccount>, escrows: set<Bytes>, b: Balances, key: GameKey, g: GameAccount)
    requires Invariants(games, escrows, b)
    requires key in games && GameInvariant(key, g) && g.status == Active && g.stakeAmount == games[key].stakeAmount
    requires games[key].status == Active
    ensures Invariants(games[key := g], escrows, b)
  {
  }

  /**
   Ending a game and paying out of its escrow no more than the escrow holds
   keeps the invariant: no other game shares that escrow, and the ended game
   no longer needs its stake there.
   */
  lemma EndKeepsInvariants(games: map<GameKey, GameAccount>, escrows: set<Bytes>, b: Balances, key: GameKey, g: GameAccount,
                           to: AccountId, amount: nat)
    requires Invariants(games, escrows, b)
    requires key in games && GameInvariant(key, g) && g.status != Active && Balance(b, Escrow(key.gameId)) >= amount
    ensures Invariants(games[key := g], escrows, Move(b, Escrow(key.gameId), to, amount))
  {
    var b' := Move(b, Escrow(key.gameId), to, amount);
    forall k | k in games[key := g] && games[key := g][k].status == Active
      ensures Balance(b', Escrow(k.gameId)) >= games[key := g][k].stakeAmount
    {
      assert k != key && k.gameId != key.gameId;
    }
  }

  class Program {
    /** The token program this program calls. */
    const ledger: Ledger
    /** Game records, by their seeds. */
    var games: map<GameKey, GameAccount>
    /** The game ids whose ("escrow", game_id) token account exists. */
    var escrows: set<Bytes>
    /** Every event emitted, oldest first. */
    var events: seq<Event>

    /**
     Every game is well formed and owns its escrow, no two games share a
     game id (hence an escrow), and the escrow of an active game holds at
     least the stake.
     */
    ghost predicate Valid()
      reads this, ledger
    {
      Invariants(games, escrows, ledger.balances)
    }

    constructor (ledger: Ledger)
      ensures Valid() && this.ledger == ledger
      ensures games == map[] && escrows == {} && events == []
    {
      this.ledger := ledger;
      games, escrows, events := map[], {}, [];
    }

    /**
     `initialize_game`: creates the game record and the game's escrow, and
     moves the stake from the caller's account for the reward mint into the
     escrow.
     */
    method InitializeGame(caller: Pubkey, gameId: Bytes, stakeAmount: U64, rewardMint: Pubkey, now: I64)
      returns (r: Result)
      requires Valid()
      modifies this, ledger
      ensures Valid()
      ensures r == (
        if GameKey(caller, gameId) in old(games) then Err(Host(AccountAlreadyInUse))
        else if gameId in old(escrows) then Err(Host(AccountAlreadyInUse))
        else if stakeAmount == 0 then Err(Program(InvalidStakeAmount))
        else if |gameId| > MAX_GAME_ID_LEN then Err(Program(GameIdTooLong))
        else if Balance(old(ledger.balances), Wallet(caller, rewardMint)) < stakeAmount then Err(Host(HostError.InsufficientFunds))
        else Ok)
      ensures r.Ok? ==>
        && games == old(games)[GameKey(caller, gameId) := GameAccount(caller, gameId, stakeAmount, rewardMint, Active,
                                                                       0, 0, false, now, now, NewGameState(caller, now), 0)]
        && escrows == old(escrows) + {gameId}
        && ledger.balances == Move(old(ledger.balances), Wallet(caller, rewardMint), Escrow(gameId), stakeAmount)
        && events == old(events) + [GameStarted(gameId, caller, stakeAmount, now)]
      ensures r.Err? ==> unchanged(this) && ledger.balances == old(ledger.balances)
    {
      var key := GameKey(caller, gameId);
      if key in games { return Err(Host(AccountAlreadyInUse)); }
      if gameId in escrows { return Err(Host(AccountAlreadyInUse)); }
      if stakeAmount == 0 { return Err(Program(InvalidStakeAmount)); }
      if |gameId| > MAX_GAME_ID_LEN { return Err(Program(GameIdTooLong)); }
      var game := GameAccount(caller, gameId, stakeAmount, rewardMint, Active,
                              0, 0, false, now, now, NewGameState(caller, now), 0);
      var paid := ledger.Transfer(Wallet(caller, rewardMint), Escrow(gameId), stakeAmount);
      if !paid { return Err(Host(HostError.InsufficientFunds)); }
      StartKeepsInvariants(games, escrows, old(ledger.balances), key, game);
      games := games[key := game];
      escrows := escrows + {gameId};
      events := events + [GameStarted(gameId, caller, stakeAmount, now)];
      return Ok;
    }

    /**
     `make_move`: the player of an active game counts a move in the play
     state and in the record. No move ever wins, since the play state's win
     flag is never set, so the game stays active; the only failure of an
     authorised move is the move counter reaching the `u32` limit.
     */
    method MakeMove(caller: Pubkey, key: GameKey, fromPile: Bytes, toPile: Bytes, cardIndex: U8, now: I64)
      returns (r: Result)
      requires Valid()
      modifies this
      ensures Valid()
      ensures r == (
        if key !in old(games) then Err(Host(AccountNotInitialized))
        else if old(games)[key].status != Active then Err(Program(GameNotActive))
        else if caller != old(games)[key].authority then Err(Program(Unauthorized))
        else if old(games)[key].moves == U32_MAX then Err(Host(ArithmeticOverflow))
        else Ok)
      ensures r.Ok? ==>
        var g := old(games)[key];
        && games == old(games)[key := g.(gameState := StepGameState(g.gameState).value, moves := g.moves + 1, updatedAt := now)]
        && games[key].status == Active
        && events == old(events) + [MoveMade(g.gameId, g.authority, fromPile, toPile, cardIndex, g.moves + 1, now)]
      ensures r.Err? ==> unchanged(this)
      ensures escrows == old(escrows)
    {
      if key !in games { return Err(Host(AccountNotInitialized)); }
      var game := games[key];
      if game.status != Active { return Err(Program(GameNotActive)); }
      if caller != game.authority { return Err(Program(Unauthorized)); }
      var stepped := StepGameState(game.gameState);
      if stepped.None? { return Err(Host(ArithmeticOverflow)); }
      var moves := AddU32(game.moves, 1);
      if moves.None? { return Err(Host(ArithmeticOverflow)); }
      var state := stepped.value;
      var won := IsWon(state);
      game := game.(gameState := state, moves := moves.value, updatedAt := now,
                    isWon := won || game.isWon, status := if won then Completed else game.status);
      UpdateKeepsInvariants(games, escrows, ledger.balances, key, game);
      games := games[key := game];
      var completed := if won then [GameCompleted(game.gameId, game.authority, true, game.score, game.moves, now)] else [];
      events := events + completed + [MoveMade(game.gameId, game.authority, fromPile, toPile, cardIndex, game.moves, now)];
      return Ok;
    }

    /**
     `complete_game`: the player ends an active game with `final_score` and
     is paid `CompletionPayout` from the escrow. Since no game is ever won,
     that is always half the stake, which the escrow holds, so an authorised
     completion of an active game always succeeds.
     */
    method CompleteGame(caller: Pubkey, key: GameKey, finalScore: U64, to: AccountId, now: I64) returns (r: Result)
      requires Valid()
      modifies this, ledger
      ensures Valid()
      ensures r == (
        if key !in old(games) then Err(Host(AccountNotInitialized))
        else if old(games)[key].status != Active then Err(Program(GameNotActive))
        else if caller != old(games)[key].authority then Err(Program(Unauthorized))
        else Ok)
      ensures r.Ok? ==>
        var g := old(games)[key];
        && games == old(games)[key := g.(status := Completed, score := finalScore, updatedAt := now)]
        && ledger.balances == Move(old(ledger.balances), Escrow(g.gameId), to, CompletionPayout(g.stakeAmount, false).value)
        && events == old(events) + [GameCompleted(g.gameId, g.authority, false, finalScore, g.moves, now)]
      ensures r.Err? ==> unchanged(this) && ledger.balances == old(ledger.balances)
      ensures escrows == old(escrows)
    {
      if key !in games { return Err(Host(AccountNotInitialized)); }
      var game := games[key];
      if game.status != Active { return Err(Program(GameNotActive)); }
      if caller != game.authority { return Err(Program(Unauthorized)); }
      var won := IsWon(game.gameState);
      var payout := CompletionPayout(game.stakeAmount, won);
      if payout.None? { return Err(Host(ArithmeticOverflow)); }
      var paid := ledger.Transfer(Escrow(game.gameId), to, payout.value);
      if !paid { return Err(Host(HostError.InsufficientFunds)); }
      var ended := game.(status := Completed, score := finalScore, isWon := won, updatedAt := now);
      EndKeepsInvariants(games, escrows, old(ledger.balances), key, ended, to, payout.value);
      games := games[key := ended];
      events := events + [GameCompleted(game.gameId, game.authority, won, finalScore, game.moves, now)];
      return Ok;
    }

    /**
     `withdraw_stake`: once a full day has passed since the game's last
     update, its player abandons it and gets the stake back less a 10%
     penalty, which stays in the escrow.
     */
    method WithdrawStake(caller: Pubkey, key: GameKey, to: AccountId, now: I64) returns (r: Result)
      requires Valid()
      modifies this, ledger
      ensures Valid()
      ensures r == (
        if key !in old(games) then Err(Host(AccountNotInitialized))
        else if old(games)[key].status != Active then Err(Program(GameNotActive))
        else if caller != old(games)[key].authority then Err(Program(Unauthorized))
        else if SubI64(now, old(games)[key].updatedAt).None? then Err(Host(ArithmeticOverflow))
        else if now - old(games)[key].updatedAt < WITHDRAWAL_DELAY then Err(Program(WithdrawalTooEarly))
        else Ok)
      ensures r.Ok? ==>
        var g := old(games)[key];
        var split := WithdrawalSplit(g.stakeAmount);
        && games == old(games)[key := g.(status := Abandoned, updatedAt := now)]
        && ledger.balances == Move(old(ledger.balances), Escrow(g.gameId), to, split.refund)
        && events == old(events) + [StakeWithdrawn(g.gameId, g.authority, split.refund, split.penalty, now)]
      ensures r.Err? ==> unchanged(this) && ledger.balances == old(ledger.balances)
      ensures escrows == old(escrows)
    {
      if key !in games { return Err(Host(AccountNotInitialized)); }
      var game := games[key];
      if game.status != Active { return Err(Program(GameNotActive)); }
      if caller != game.authority { return Err(Program(Unauthorized)); }
      var elapsed := SubI64(now, game.updatedAt);
      if elapsed.None? { return Err(Host(ArithmeticOverflow)); }
      if elapsed.value < WITHDRAWAL_DELAY { return Err(Program(WithdrawalTooEarly)); }
      var split := WithdrawalSplit(game.stakeAmount);
      var paid := ledger.Transfer(Escrow(game.gameId), to, split.refund);
      if !paid { return Err(Host(HostError.InsufficientFunds)); }
      var abandoned := game.(status := Abandoned, updatedAt := now);
      EndKeepsInvariants(games, escrows, old(ledger.balances), key, abandoned, to, split.refund);
      games := games[key := abandoned];
      events := events + [StakeWithdrawn(game.gameId, game.authority, split.refund, split.penalty, now)];
      return Ok;
    }
  }
}
