/** The root table: pending colour bets settled against one spin. */
module LegacyTables {
  import opened Wrappers
  import opened Wheels
  import opened Players
  import opened LegacyBets

  function Bettors(bets: seq<Bet>): set<Player> {
    set b | b in bets :: b.player
  }

  /** What settling `bets` when `color` comes up credits player `p`. */
  function ColorCreditTo(bets: seq<Bet>, p: Player, color: Color): (credit: int)
    ensures (forall i :: 0 <= i < |bets| && bets[i].player == p ==> bets[i].amount >= 0) ==> credit >= 0
    ensures (forall i :: 0 <= i < |bets| ==> bets[i].color != color) ==> credit == 0
    decreases |bets|
  {
    if bets == [] then 0
    else
      var last := bets[|bets| - 1];
      ColorCreditTo(bets[..|bets| - 1], p, color)
        + (if last.player == p then ColorWinnings(last.color, last.amount, color) else 0)
  }

  /** Settling two runs of bets credits the sum of settling each, so the
      order of settlement does not matter. */
  lemma {:induction false} ColorCreditToConcat(a: seq<Bet>, b: seq<Bet>, p: Player, color: Color)
    ensures ColorCreditTo(a + b, p, color) == ColorCreditTo(a, p, color) + ColorCreditTo(b, p, color)
    decreases |b|
  {
    if b == [] {
      assert a + b == a;
    } else {
      var b' := b[..|b| - 1];
      assert (a + b)[..|a + b| - 1] == a + b';
      assert (a + b)[|a + b| - 1] == b[|b| - 1];
      ColorCreditToConcat(a, b', p, color);
    }
  }

  class Table {
    var bets: seq<Bet>
    const wheel: Wheel

    constructor()
      ensures bets == [] && fresh(wheel) && wheel.ballPosition == None
    {
      bets := [];
      wheel := new Wheel();
    }

    method PlaceBet(bet: Bet)
      modifies this
      ensures bets == old(bets) + [bet]
    {
      bets := bets + [bet];
    }

    /** Pays every pending bet against the colour the wheel shows, then
        clears the pending bets. The colour is passed here where the root
        code calls `payout()` with no argument. */
    method PayoutBets()
      requires wheel.HasSpun()
      modifies this, Bettors(bets)
      ensures bets == []
      ensures forall p :: p in old(Bettors(bets)) ==>
        p.balance == old(p.balance) + ColorCreditTo(old(bets), p, ColorOf(wheel.ballPosition.value))
    {
      var _, color := wheel.GetBallPosition();
      var pending := bets;
      for i := 0 to |pending|
        invariant forall p :: p in Bettors(pending) ==>
          p.balance == old(p.balance) + ColorCreditTo(pending[..i], p, color)
      {
        var bet := pending[i];
        assert pending[..i + 1][..i] == pending[..i];
        bet.Payout(color);
      }
      assert pending[..|pending|] == pending;
      bets := [];
    }

    method SpinWheelAndPayout()
      modifies this, wheel, Bettors(bets)
      ensures wheel.HasSpun() && bets == []
      ensures forall p :: p in old(Bettors(bets)) ==>
        p.balance == old(p.balance) + ColorCreditTo(old(bets), p, ColorOf(wheel.ballPosition.value))
    {
      wheel.Spin();
      PayoutBets();
    }
  }
}
