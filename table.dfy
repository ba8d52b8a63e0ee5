/** The `src` table: pending bets, the wheel, and settlement of every pending
    bet against one spin. */
module Tables {
  import opened Wrappers
  import opened Wheels
  import opened Players
  import opened Bets

  /** The players the pending bets pay out to. */
  function Bettors(bets: seq<Bet>): set<Player> {
    set b | b in bets :: b.player
  }

  /** What settling `bets` against one outcome credits player `p`: the
      winnings of the bets that are p's, in list order. */
  function CreditTo(bets: seq<Bet>, p: Player, color: Color, position: int): (credit: int)
    ensures (forall i :: 0 <= i < |bets| && bets[i].player == p ==> bets[i].amount >= 0) ==> credit >= 0
    ensures (forall i :: 0 <= i < |bets| ==> bets[i].player != p) ==> credit == 0
    ensures (forall i :: 0 <= i < |bets| ==> !Wins(bets[i].selection, color, position)) ==> credit == 0
    decreases |bets|
  {
    if bets == [] then 0
    else
      var last := bets[|bets| - 1];
      CreditTo(bets[..|bets| - 1], p, color, position)
        + (if last.player == p then Winnings(last.selection, last.amount, color, position) else 0)
  }

  /** The winnings of all the bets, whoever placed them. */
  function TotalWinnings(bets: seq<Bet>, color: Color, position: int): (total: int)
    ensures (forall i :: 0 <= i < |bets| ==> bets[i].amount >= 0) ==> total >= 0
    decreases |bets|
  {
    if bets == [] then 0
    else
      var last := bets[|bets| - 1];
      TotalWinnings(bets[..|bets| - 1], color, position) + Winnings(last.selection, last.amount, color, position)
  }

  /** Settling two runs of bets credits the sum of settling each. */
  lemma {:induction false} CreditToConcat(a: seq<Bet>, b: seq<Bet>, p: Player, color: Color, position: int)
    ensures CreditTo(a + b, p, color, position) == CreditTo(a, p, color, position) + CreditTo(b, p, color, position)
    decreases |b|
  {
    if b == [] {
      assert a + b == a;
    } else {
      var b' := b[..|b| - 1];
      assert (a + b)[..|a + b| - 1] == a + b';
      assert (a + b)[|a + b| - 1] == b[|b| - 1];
      CreditToConcat(a, b', p, color, position);
    }
  }

  /** The order in which bets are settled does not change what a player ends
      up with. */
  lemma SettlementOrder(a: seq<Bet>, b: seq<Bet>, p: Player, color: Color, position: int)
    ensures CreditTo(a + b, p, color, position) == CreditTo(b + a, p, color, position)
  {
    CreditToConcat(a, b, p, color, position);
    CreditToConcat(b, a, p, color, position);
  }

  /** When one player placed every bet, they are credited the sum of every
      bet's own winnings. */
  lemma {:induction false} SinglePlayerCredit(bets: seq<Bet>, p: Player, color: Color, position: int)
    requires forall i :: 0 <= i < |bets| ==> bets[i].player == p
    ensures CreditTo(bets, p, color, position) == TotalWinnings(bets, color, position)
    decreases |bets|
  {
    if bets != [] {
      SinglePlayerCredit(bets[..|bets| - 1], p, color, position);
    }
  }

  class Table {
    var bets: seq<Bet>
    const wheel: Wheel

    constructor()
      ensures bets == [] && fresh(wheel) && wheel.ballPosition == None
    {
      bets := [];
      wheel := new Wheel();
    }

    /** Appends the bet; earlier bets keep their places. */
    method PlaceBet(bet: Bet)
      modifies this
      ensures bets == old(bets) + [bet]
    {
      bets := bets + [bet];
    }

    /** Reads the outcome once, pays every pending bet against it in list
        order, then clears the pending bets whether or not any won. */
    method PayoutBets()
      requires wheel.HasSpun()
      modifies this, Bettors(bets)
      ensures bets == []
      ensures forall p :: p in old(Bettors(bets)) ==>
        p.balance == old(p.balance)
          + CreditTo(old(bets), p, ColorOf(wheel.ballPosition.value), wheel.ballPosition.value)
    {
      var position, color := wheel.GetBallPosition();
      var pending := bets;
      for i := 0 to |pending|
        invariant forall p :: p in Bettors(pending) ==>
          p.balance == old(p.balance) + CreditTo(pending[..i], p, color, position)
      {
        var bet := pending[i];
        assert pending[..i + 1][..i] == pending[..i];
        bet.Payout(color, position);
      }
      assert pending[..|pending|] == pending;
      bets := [];
    }

    /** Spins, then settles against the new position. */
    method SpinWheelAndPayout()
      modifies this, wheel, Bettors(bets)
      ensures wheel.HasSpun() && bets == []
      ensures forall p :: p in old(Bettors(bets)) ==>
        p.balance == old(p.balance)
          + CreditTo(old(bets), p, ColorOf(wheel.ballPosition.value), wheel.ballPosition.value)
    {
      wheel.Spin();
      PayoutBets();
    }
  }
}
