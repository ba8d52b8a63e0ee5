/** A player's bankroll: an integer balance with a guarded withdrawal and an
    unguarded deposit. */
module Players {
  import opened Wrappers

  /** The `ValueError("Insufficient balance")` that a withdrawal raises. */
  datatype BalanceError = InsufficientBalance

  /** The balance left after withdrawing `amount`, or None where the
      withdrawal is refused. */
  function Withdrawal(balance: int, amount: int): (r: Option<int>)
    ensures r.Some? <==> amount <= balance
    ensures r.Some? ==> r.value >= 0 && r.value + amount == balance
  {
    if amount > balance then None else Some(balance - amount)
  }

  /** Two withdrawals in a row succeed exactly when one withdrawal of the sum
      would, and leave the same balance; a refused first withdrawal changes
      nothing, so the second then starts from the original balance. */
  lemma WithdrawTwice(balance: int, a: int, b: int)
    requires a >= 0 && b >= 0
    ensures Withdrawal(balance, a).Some? && Withdrawal(Withdrawal(balance, a).value, b).Some?
            <==> Withdrawal(balance, a + b).Some?
    ensures Withdrawal(balance, a).Some? && Withdrawal(Withdrawal(balance, a).value, b).Some?
            ==> Withdrawal(Withdrawal(balance, a).value, b) == Withdrawal(balance, a + b)
  {
  }

  class Player {
    var balance: int

    /** The initial balance is stored as given; zero is allowed. */
    constructor(initial: int)
      ensures balance == initial
    {
      balance := initial;
    }

    /** Fails, changing nothing, when the amount exceeds the balance;
        otherwise the balance drops by exactly the amount. */
    method SubtractFromBalance(amount: int) returns (r: Outcome<BalanceError>)
      modifies this
      ensures r.Pass? <==> Withdrawal(old(balance), amount).Some?
      ensures r.Pass? ==> Withdrawal(old(balance), amount) == Some(balance)
      ensures r.Fail? ==> balance == old(balance)
    {
      if amount > balance {
        return Fail(InsufficientBalance);
      }
      balance := balance - amount;
      r := Pass;
    }

    method AddToBalance(amount: int)
      modifies this
      ensures balance == old(balance) + amount
    {
      balance := balance + amount;
    }

    method GetBalance() returns (b: int)
      ensures b == balance
    {
      b := balance;
    }
  }
}
