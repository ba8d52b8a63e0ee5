/** The wager of the root tree: colour only, paid against the winning colour. */
module LegacyBets {
  import opened Wheels
  import opened Players
  import Bets

  /** What the root `payout` credits for a bet of `amount` on `betColor`
      when `winningColor` comes up. */
  function ColorWinnings(betColor: Color, amount: int, winningColor: Color): (w: int)
    ensures amount >= 0 ==> w >= 0
    ensures betColor != winningColor ==> w == 0
  {
    if betColor == winningColor then amount * (if winningColor == Green then 35 else 2) else 0
  }

  /** The root colour bet pays exactly what the `src` colour bet pays, at
      every winning position. */
  lemma AgreesWithColorBet(betColor: Color, amount: int, winningColor: Color, winningPosition: int)
    ensures ColorWinnings(betColor, amount, winningColor)
            == Bets.Winnings(Bets.OnColor(betColor), amount, winningColor, winningPosition)
  {
  }

  class Bet {
    const amount: int
    const color: Color
    const player: Player

    constructor(amount: int, color: Color, player: Player)
      ensures this.amount == amount && this.color == color && this.player == player
    {
      this.amount := amount;
      this.color := color;
      this.player := player;
    }

    /** Credits the player when the bet's colour came up; the bet itself and
        every other player are untouched. */
    method Payout(winningColor: Color)
      modifies player
      ensures player.balance == old(player.balance) + ColorWinnings(color, amount, winningColor)
    {
      if color == winningColor {
        var odds := if winningColor == Green then 35 else 2;
        player.AddToBalance(amount * odds);
      }
    }
  }
}
