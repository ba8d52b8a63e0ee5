/** A wager of the `src` tree: on a colour or on a single number, held
    against a player and settled against one wheel outcome. */
module Bets {
  import opened Wrappers
  import opened Wheels
  import opened Players

  datatype BetType = ColorBet | NumberBet

  /** The value each member of the `BetType` enum carries. */
  function TypeName(t: BetType): string {
    match t
    case ColorBet => "color"
    case NumberBet => "number"
  }

  /** What a bet is placed on: the `(bet_type, bet_value)` pair. */
  datatype Selection = OnColor(color: Color) | OnNumber(number: int)

  function TypeOf(s: Selection): (t: BetType)
    ensures t == ColorBet <==> s.OnColor?
  {
    if s.OnColor? then ColorBet else NumberBet
  }

  /** The `color` attribute kept for older callers: the colour of a colour
      bet, None for a number bet. */
  function ColorAttribute(s: Selection): (c: Option<Color>)
    ensures c.Some? <==> TypeOf(s) == ColorBet
    ensures c.Some? ==> s == OnColor(c.value)
  {
    if s.OnColor? then Some(s.color) else None
  }

  /** A colour bet is judged by the winning colour alone, a number bet by the
      winning position alone. */
  predicate Wins(s: Selection, winningColor: Color, winningPosition: int) {
    match s
    case OnColor(c) => c == winningColor
    case OnNumber(n) => n == winningPosition
  }

  /** The multiplier a winning bet is paid at. */
  function Odds(s: Selection): (odds: nat)
    ensures odds == 2 || odds == 35
    ensures odds == 2 <==> s.OnColor? && s.color != Green
  {
    match s
    case OnColor(c) => if c == Green then 35 else 2
    case OnNumber(_) => 35
  }

  /** What a settlement credits the bet's player. */
  function Winnings(s: Selection, amount: int, winningColor: Color, winningPosition: int): (w: int)
    ensures amount >= 0 ==> w >= 0
    ensures w != 0 ==> Wins(s, winningColor, winningPosition)
    ensures amount > 0 ==> (w > 0 <==> Wins(s, winningColor, winningPosition))
  {
    if Wins(s, winningColor, winningPosition) then amount * Odds(s) else 0
  }

  /** Colour bets: 35 times the stake on green, twice the stake on red or
      black, nothing when the colour differs; the position plays no part. */
  lemma ColorBetPayout(c: Color, amount: int, winningColor: Color, winningPosition: int, otherPosition: int)
    ensures Winnings(OnColor(c), amount, winningColor, winningPosition)
            == if c != winningColor then 0 else if c == Green then 35 * amount else 2 * amount
    ensures Winnings(OnColor(c), amount, winningColor, winningPosition)
            == Winnings(OnColor(c), amount, winningColor, otherPosition)
  {
  }

  /** Number bets: 35 times the stake exactly when the number is the winning
      position, whatever the colour. */
  lemma NumberBetPayout(n: int, amount: int, winningColor: Color, otherColor: Color, winningPosition: int)
    ensures Winnings(OnNumber(n), amount, winningColor, winningPosition)
            == if n == winningPosition then 35 * amount else 0
    ensures Winnings(OnNumber(n), amount, winningColor, winningPosition)
            == Winnings(OnNumber(n), amount, otherColor, winningPosition)
  {
  }

  /** Winnings are the stake times the odds, so they add up over stakes. */
  lemma WinningsScale(s: Selection, a: int, b: int, winningColor: Color, winningPosition: int)
    ensures Winnings(s, a + b, winningColor, winningPosition)
            == Winnings(s, a, winningColor, winningPosition) + Winnings(s, b, winningColor, winningPosition)
  {
  }

  /** On an outcome the wheel can produce, a bet on green and a bet on the
      number 0 pay the same. */
  lemma GreenIsZero(amount: int, position: int)
    requires IsPosition(position)
    ensures Winnings(OnColor(Green), amount, ColorOf(position), position)
            == Winnings(OnNumber(0), amount, ColorOf(position), position)
  {
    OnlyZeroIsGreen(position);
  }

  /** On an outcome the wheel can produce, a red or black bet wins exactly on
      the listed positions of its colour. */
  lemma ColorBetWinsOnItsPositions(c: Color, amount: int, position: int)
    requires IsPosition(position) && c != Green && amount > 0
    ensures Winnings(OnColor(c), amount, ColorOf(position), position) > 0
            <==> position in (if c == Red then RedPositions else BlackPositions)
  {
    RedExactly(position);
    BlackExactly(position);
  }

  class Bet {
    const amount: int
    const player: Player
    const selection: Selection

    constructor(amount: int, player: Player, selection: Selection)
      ensures this.amount == amount && this.player == player && this.selection == selection
    {
      this.amount := amount;
      this.player := player;
      this.selection := selection;
    }

    /** Credits the player on a win and does nothing on a loss (the stake was
        taken when the bet was placed). Each call pays again. */
    method Payout(winningColor: Color, winningPosition: int)
      modifies player
      ensures player.balance == old(player.balance) + Winnings(selection, amount, winningColor, winningPosition)
    {
      if Wins(selection, winningColor, winningPosition) {
        var winnings := amount * Odds(selection);
        player.AddToBalance(winnings);
      }
    }
  }
}
