/** Worked rounds: a fresh player and table, stakes taken, the wheel set to a
    chosen position, and the resulting balances. */
module Scenarios {
  import opened Wrappers
  import opened Wheels
  import opened Players
  import opened Bets
  import opened Tables
  import LegacyTables
  import LegacyController

  /** Takes the stake from the player and puts the bet on the table, as the
      controllers do. */
  method Stake(player: Player, table: Table, amount: int, selection: Selection) returns (bet: Bet)
    requires 0 <= amount <= player.balance
    modifies player, table
    ensures player.balance == old(player.balance) - amount
    ensures table.bets == old(table.bets) + [bet]
    ensures bet.amount == amount && bet.player == player && bet.selection == selection
  {
    var r := player.SubtractFromBalance(amount);
    bet := new Bet(amount, player, selection);
    table.PlaceBet(bet);
  }

  /** 1000 to start; 40 on red and 15 on number 17; the ball lands on 3
      (red): the red bet pays 80, so the player ends on 1025. */
  method ColorWinsNumberLoses() returns (balance: int, pendingAfter: nat)
    ensures balance == 1000 - 40 - 15 + 80 && pendingAfter == 0
  {
    var player := new Player(1000);
    var table := new Table();
    var placed := PlaceRedAndSeventeen(player, table);
    assert ColorOf(3) == Red;
    table.wheel.ballPosition := Some(3);
    table.PayoutBets();
    balance := player.GetBalance();
    pendingAfter := |table.bets|;
  }

  /** Stakes 40 on red and 15 on number 17, in that order. */
  method PlaceRedAndSeventeen(player: Player, table: Table) returns (placed: seq<Bet>)
    requires player.balance == 1000 && table.bets == []
    modifies player, table
    ensures table.bets == placed && Bettors(placed) == {player}
    ensures player.balance == 1000 - 40 - 15
    ensures CreditTo(placed, player, Red, 3) == 80
  {
    var colorBet := Stake(player, table, 40, OnColor(Red));
    var numberBet := Stake(player, table, 15, OnNumber(17));
    placed := table.bets;
    assert placed == [colorBet, numberBet];
    assert player in Bettors(placed) by { assert colorBet in placed; }
    assert forall b :: b in placed ==> b.player == player;
    assert placed[..1] == [colorBet];
    assert [colorBet][..0] == [];
  }

  /** Six bets totalling 150 from one player; the ball lands on 17 (black):
      the black bet pays 60 and the bet on 17 pays 700. */
  method SixBetsOnSeventeen() returns (balance: int)
    ensures balance == 1000 - 150 + 60 + 700
  {
    var player := new Player(1000);
    var table := new Table();
    var placed := PlaceSixBets(player, table);
    assert ColorOf(17) == Black;
    table.wheel.ballPosition := Some(17);
    table.PayoutBets();
    balance := player.GetBalance();
  }

  /** Stakes the six bets of the scenario above, in order. */
  method PlaceSixBets(player: Player, table: Table) returns (placed: seq<Bet>)
    requires player.balance == 1000 && table.bets == []
    modifies player, table
    ensures table.bets == placed && Bettors(placed) == {player}
    ensures player.balance == 1000 - 150
    ensures CreditTo(placed, player, Black, 17) == 60 + 700
  {
    var b0 := Stake(player, table, 50, OnColor(Red));
    var b1 := Stake(player, table, 20, OnNumber(17));
    var b2 := Stake(player, table, 30, OnColor(Black));
    var b3 := Stake(player, table, 10, OnNumber(0));
    var b4 := Stake(player, table, 15, OnColor(Green));
    var b5 := Stake(player, table, 25, OnNumber(23));
    placed := table.bets;
    assert placed == [b0, b1, b2, b3, b4, b5];
    assert player in Bettors(placed) by { assert b0 in placed; }
    assert forall b :: b in placed ==> b.player == player;
    SixBetsCredit(b0, b1, b2, b3, b4, b5, player);
  }

  /** Of the six bets, only the one on black and the one on 17 pay when the
      ball lands on 17. */
  lemma SixBetsCredit(b0: Bet, b1: Bet, b2: Bet, b3: Bet, b4: Bet, b5: Bet, player: Player)
    requires b0.player == b1.player == b2.player == b3.player == b4.player == b5.player == player
    requires b0.amount == 50 && b0.selection == OnColor(Red)
    requires b1.amount == 20 && b1.selection == OnNumber(17)
    requires b2.amount == 30 && b2.selection == OnColor(Black)
    requires b3.amount == 10 && b3.selection == OnNumber(0)
    requires b4.amount == 15 && b4.selection == OnColor(Green)
    requires b5.amount == 25 && b5.selection == OnNumber(23)
    ensures CreditTo([b0, b1, b2, b3, b4, b5], player, Black, 17) == 60 + 700
  {
    var placed := [b0, b1, b2, b3, b4, b5];
    CreditToConcat([b0, b1, b2], [b3, b4, b5], player, Black, 17);
    assert [b0, b1, b2] + [b3, b4, b5] == placed;
    assert [b0, b1, b2][..2] == [b0, b1];
    assert [b0, b1][..1] == [b0];
    assert CreditTo([b0, b1, b2], player, Black, 17) == 760;
    assert [b3, b4, b5][..2] == [b3, b4];
    assert [b3, b4][..1] == [b3];
    assert CreditTo([b3, b4, b5], player, Black, 17) == 0;
  }

  /** 100 to start; stakes of 60 and 40 leave 0, and a further stake of 10
      is refused without changing the balance. */
  method StakesUntilBroke() returns (balance: int, third: Outcome<BalanceError>)
    ensures balance == 0 && third.Fail?
  {
    var player := new Player(100);
    var r := player.SubtractFromBalance(60);
    r := player.SubtractFromBalance(40);
    third := player.SubtractFromBalance(10);
    balance := player.GetBalance();
  }

  /** Paying the same red bet of 20 twice: a red outcome credits 40, then a
      black outcome credits nothing. */
  method RepeatedPayout() returns (afterWin: int, afterLoss: int)
    ensures afterWin == 1040 && afterLoss == 1040
  {
    var player := new Player(1000);
    var bet := new Bet(20, player, OnColor(Red));
    bet.Payout(Red, 1);
    afterWin := player.GetBalance();
    bet.Payout(Black, 2);
    afterLoss := player.GetBalance();
  }

  /** The whole balance of 50 on number 17; the ball lands on 23: the player
      stays at 0 and the table is cleared. */
  method LoseEverything() returns (balance: int, pendingAfter: nat)
    ensures balance == 0 && pendingAfter == 0
  {
    var player := new Player(50);
    var table := new Table();
    var r := player.SubtractFromBalance(50);
    var bet := new Bet(50, player, OnNumber(17));
    table.PlaceBet(bet);
    table.wheel.ballPosition := Some(23);
    table.PayoutBets();
    balance := player.GetBalance();
    pendingAfter := |table.bets|;
  }

  /** Root tree: 1000 to start, 20 on green through the controller's
      placement; the ball lands on 0: the bet pays 700. */
  method LegacyGreenWins() returns (placed: bool, balance: int)
    ensures placed && balance == 1000 - 20 + 700
  {
    var player := new Player(1000);
    var table := new LegacyTables.Table();
    placed := LegacyController.PlaceColorBet(player, table, 20, Green);
    assert player in LegacyTables.Bettors(table.bets) by { assert table.bets[0] in table.bets; }
    assert table.bets[..0] == [];
    table.wheel.ballPosition := Some(0);
    table.PayoutBets();
    balance := player.GetBalance();
  }
}
