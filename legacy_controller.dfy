/** The input validators and bet placement of the root game controller. */
module LegacyController {
  import opened Wrappers
  import opened Text
  import opened Wheels
  import opened Players
  import LegacyBets
  import LegacyTables
  import Controller

  /** `int(value)` kept when positive. Python's `int` itself ignores
      surrounding whitespace; there is no upper bound and no separate check
      for '.' or ','. */
  function ValidatePositiveInteger(value: string): (r: Option<int>)
    ensures r.Some? ==> r.value >= 1 && r == ParseInt(Strip(value))
    ensures ParseInt(Strip(value)).Some? && ParseInt(Strip(value)).value >= 1 ==> r.Some?
  {
    var parsed := ParseInt(Strip(value));
    if parsed.Some? && parsed.value > 0 then parsed else None
  }

  /** The `src` validator accepts exactly what this one accepts, up to the
      1,000,000 cap. */
  lemma CappedInSrc(value: string)
    ensures Controller.ValidatePositiveInteger(value)
            == if ValidatePositiveInteger(value).Some? && ValidatePositiveInteger(value).value <= Controller.MaxAmount
               then ValidatePositiveInteger(value) else None
  {
  }

  /** `str(n)` is accepted back as n for every positive n, however large. */
  lemma PositiveIntegerRoundTrip(n: int)
    ensures ValidatePositiveInteger(IntString(n)) == if n >= 1 then Some(n) else None
  {
    IntStringRoundTrip(n);
    StripUnpadded(IntString(n));
  }

  /** Only the three colour names, in any letter case; no stripping and no
      aliases. */
  function ValidateColorChoice(choice: string): (r: Option<Color>)
    ensures forall c :: r == Some(c) <==> Lower(choice) == Name(c)
  {
    var lowered := Lower(choice);
    if lowered == "red" then Some(Red)
    else if lowered == "black" then Some(Black)
    else if lowered == "green" then Some(Green)
    else None
  }

  /** Only "y"/"yes" and "n"/"no", in any letter case. */
  function ValidateYesNo(choice: string): (r: Option<bool>)
    ensures r == Some(true) <==> Lower(choice) == "y" || Lower(choice) == "yes"
    ensures r == Some(false) <==> Lower(choice) == "n" || Lower(choice) == "no"
  {
    var lowered := Lower(choice);
    if lowered in ["y", "yes"] then Some(true)
    else if lowered in ["n", "no"] then Some(false)
    else None
  }

  /** A text that lowers to a normalized text is left alone by `strip`. */
  lemma StripIdleWhenLowerNormalized(s: string)
    requires Normalized(Lower(s))
    ensures Strip(s) == s && Lower(Strip(s)) == Lower(s)
  {
    LowerKeepsWhitespace(s);
    StripUnpadded(s);
  }

  /** Every colour answer accepted here is accepted with the same meaning by
      the `src` validator. */
  lemma ColorChoiceKeptInSrc(choice: string)
    requires ValidateColorChoice(choice).Some?
    ensures Controller.ValidateColorChoice(choice) == ValidateColorChoice(choice)
  {
    var c := ValidateColorChoice(choice).value;
    assert Lower(choice) == Controller.ColorAliases(c)[0];
    Controller.ColorAliasNormalized(c, Lower(choice));
    StripIdleWhenLowerNormalized(choice);
  }

  /** Every yes/no answer accepted here is accepted with the same meaning by
      the `src` validator. */
  lemma YesNoKeptInSrc(choice: string)
    requires ValidateYesNo(choice).Some?
    ensures Controller.ValidateYesNo(choice) == ValidateYesNo(choice)
  {
    var lowered := Lower(choice);
    assert lowered in Controller.YesAliases || lowered in Controller.NoAliases;
    Controller.YesNoAliasNormalized(lowered);
    StripIdleWhenLowerNormalized(choice);
  }

  /** The bet amount the betting loop settles for: a valid positive amount
      that the current balance covers. */
  function AcceptBetAmount(input: string, balance: int): (r: Option<int>)
    ensures r.Some? <==> ValidatePositiveInteger(input).Some? && ValidatePositiveInteger(input).value <= balance
    ensures r.Some? ==> r == ValidatePositiveInteger(input) && 1 <= r.value <= balance
  {
    var amount := ValidatePositiveInteger(input);
    if amount.None? then None
    else if amount.value > balance then None
    else amount
  }

  /** Takes the stake from the player, builds the bet and puts it on the
      table, in that order; when the player cannot cover the stake nothing
      changes and no bet is placed. */
  method PlaceColorBet(player: Player, table: LegacyTables.Table, amount: int, color: Color) returns (placed: bool)
    modifies player, table
    ensures placed <==> amount <= old(player.balance)
    ensures placed ==> player.balance == old(player.balance) - amount
    ensures placed ==> |table.bets| == |old(table.bets)| + 1 && table.bets[..|old(table.bets)|] == old(table.bets)
    ensures placed ==> var bet := table.bets[|table.bets| - 1];
                       bet.amount == amount && bet.color == color && bet.player == player
    ensures !placed ==> player.balance == old(player.balance) && table.bets == old(table.bets)
  {
    var outcome := player.SubtractFromBalance(amount);
    if outcome.Fail? {
      return false;
    }
    var bet := new LegacyBets.Bet(amount, color, player);
    table.PlaceBet(bet);
    placed := true;
  }
}
