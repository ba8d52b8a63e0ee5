# Roulette: wheel, bets, settlement and input validation

A Dafny model of the core of a small roulette game. It covers:

- a European wheel: 37 positions. Position 0 is green. The other 36 are red or black, following a fixed table that is not a parity rule;
- a player whose integer balance can be withdrawn from, with a guard, and deposited to, without one;
- bets on a colour or on a single number, each holding a reference to the player it pays;
- a table that collects pending bets and settles all of them against one spin;
- the string validators that turn typed input into amounts, numbers, colours, yes/no answers and bet types.

The repository holds two near-copies of the game: the root tree and the `src` tree. Both are modelled:

| file | module |
|---|---|
| `wheel.dfy` | `Wheels`: the position table and the `Wheel` class (shared by both trees) |
| `player.dfy` | `Players`: the `Player` class (shared by both trees) |
| `bet.dfy` | `Bets`: the `src` bet, with colour and number selections |
| `legacy_bet.dfy` | `LegacyBets`: the root bet, colour only |
| `table.dfy` | `Tables`: the `src` table |
| `legacy_table.dfy` | `LegacyTables`: the root table |
| `controller.dfy` | `Controller`: the `src` validators |
| `legacy_controller.dfy` | `LegacyController`: the root validators and bet placement |
| `text.dfy` | `Text`: the parts of Python's `str.strip`, `str.lower`, `int` and `str` that the validators rely on |
| `wrappers.dfy` | `Wrappers`: `Option` and `Outcome` |
| `scenarios.dfy` | `Scenarios`: worked rounds with their exact final balances |
| `validator_cases.dfy` | `ValidatorCases`: particular validator answers |

`Wheel`, `Player` and both `Table`s are updated in place, so they are classes. Both `Bet`s are classes with `const` fields, because each holds a reference to the player its payout updates. The balance equations of settlement are stated with pure functions: `Winnings`, `CreditTo` and `ColorCreditTo`. The settlement loops are proved against those functions.

Raised errors become values. The "insufficient balance" `ValueError` becomes `Outcome.Fail`. A rejected input becomes `None`.

Notes where the code differs from itself:

- The `src` tests build bets with a bet type and a value: `Bet(amount, player, BetType.NUMBER, 17)`. The shown `src/bet.py` only has the colour-only constructor and a one-argument `payout(color)`. Yet `src/table.py:17` calls `payout(winning_color, winning_position)`. The model follows the tests and the table:
  - the colour branch is taken from `src/bet.py:13-16`;
  - the number branch pays 35 times the stake when the number equals the winning position.
- The root `table.py:16` calls `bet.payout()` with no argument. The root `bet.py:12` needs the winning colour, so root settlement raises `TypeError` whenever a bet is pending. `LegacyTables.Table.PayoutBets` passes the colour the wheel shows, which is evidently what was meant.
- `wheel.py:57` and `wheel.py:60` store the position in a field spelled `_ball_postion`. The tests set `_ball_position` on the `src` wheel, which is not part of this model. The model has one field, `ballPosition`. The scenarios set it directly, as the tests do.
- A colour bet is judged by the winning colour it is given. A number bet is judged by the winning position. Neither checks that the colour and position agree: `tests/test_bet_class.py:232` pays a green bet against position 1. Settlement through a table always passes a matching pair.

## Model

| member | source | states |
|---|---|---|
| Wheels.TableDomain | wheel.py:12-50 | The table has a colour for every integer in [0,36] and for nothing else. |
| Wheels.OnlyZeroIsGreen | wheel.py:13-49 | A position is green exactly when it is 0. |
| Wheels.Irregularities | wheel.py:23-42 | 10 and 11 are both black, 18 and 19 both red, 28 and 29 both black. |
| Wheels.RedExactly | wheel.py:14-49 | A position is red exactly when it is one of the 18 listed red positions. |
| Wheels.BlackExactly | wheel.py:14-49 | A position is black exactly when it is one of the 18 listed black positions. |
| Wheels.ColorCounts | wheel.py:12-50 | There are exactly 18 red positions, 18 black positions, and the green set is {0}. |
| Wheels.Wheel.constructor | wheel.py:56-57 | A new wheel has no position, so it cannot report one yet. |
| Wheels.Wheel.Spin | wheel.py:59-60 | After a spin the wheel holds some position in [0,36], replacing any earlier one. |
| Wheels.Wheel.GetBallPosition | wheel.py:62-63 | Only after a spin: returns the stored position and that position's colour from the table. |
| Players.Withdrawal | player.py:6-9 | A withdrawal is allowed exactly when the amount does not exceed the balance, and then leaves a non-negative balance that adds back up to the old one. |
| Players.WithdrawTwice | player.py:6-9 | For non-negative amounts, withdrawing a and then b succeeds exactly when withdrawing a+b would, and leaves the same balance. |
| Players.Player.constructor | player.py:3-4 | The initial balance is stored unchecked; 0 is allowed. |
| Players.Player.SubtractFromBalance | player.py:6-9 | Fails and changes nothing when the amount exceeds the balance; otherwise the balance drops by exactly the amount and stays non-negative. |
| Players.Player.AddToBalance | player.py:11-12 | The balance grows by the amount; it never fails. |
| Players.Player.GetBalance | player.py:14-15 | Returns the balance and changes nothing. |
| Bets.Odds | src/bet.py:14 | Odds are 2 for red and black and 35 for green and for every number. |
| Bets.Winnings | src/bet.py:13-16 | Winnings are never negative for a non-negative stake. They are non-zero only on a win, and positive exactly on a win when the stake is positive. |
| Bets.ColorBetPayout | src/bet.py:13-16 | A colour bet pays 35 times the stake on green, 2 times on red or black, nothing when the colours differ; the position plays no part. |
| Bets.NumberBetPayout | tests/test_bet_class.py:129-174 | A number bet pays 35 times the stake exactly when its number is the winning position, whatever the colour. |
| Bets.WinningsScale | tests/test_bet_class.py:215-239 | Winnings are additive in the stake: the stake times the odds. |
| Bets.GreenIsZero | src/bet.py:13-16 | On any outcome the wheel can produce, a bet on green pays the same as a bet on number 0. |
| Bets.ColorBetWinsOnItsPositions | src/bet.py:13-16 | On any outcome the wheel can produce, a red or black bet wins exactly on the listed positions of its colour. |
| Bets.Bet.constructor | tests/test_bet_class.py:40-58 | Stores the amount, the player and the selection, in the `Bet(amount, player, bet_type, bet_value)` shape the tests build (see the note on `src/bet.py` above). |
| Bets.Bet.Payout | src/bet.py:12-17 | The player's balance grows by exactly `Winnings`. A losing bet changes nothing, and a second winning call pays again. |
| LegacyBets.ColorWinnings | bet.py:13-15 | Never negative for a non-negative stake; zero whenever the colours differ. |
| LegacyBets.AgreesWithColorBet | bet.py:12-15 | The root colour bet pays exactly what the `src` colour bet pays, at every position. |
| LegacyBets.Bet.constructor | bet.py:7-10 | Stores the amount, the colour and the player. |
| LegacyBets.Bet.Payout | bet.py:12-15 | The player's balance grows by exactly `ColorWinnings`. |
| Tables.CreditTo | src/table.py:15-17 | What one settlement credits a player. It is non-negative when that player's stakes are, zero for a player with no bets, and zero when no bet wins. |
| Tables.TotalWinnings | src/table.py:16-17 | The sum of every bet's winnings is non-negative when every stake is. |
| Tables.CreditToConcat | src/table.py:16-17 | Settling two runs of bets credits the sum of settling each. |
| Tables.SettlementOrder | src/table.py:16-17 | The order of the pending bets does not change what any player is credited. |
| Tables.SinglePlayerCredit | src/table.py:16-17 | When one player placed every bet, they are credited the sum of each bet's own winnings. |
| Tables.Table.constructor | src/table.py:6-8 | A new table has no pending bets and a fresh, unspun wheel. |
| Tables.Table.PlaceBet | src/table.py:20-21 | Appends the bet; earlier bets keep their order. |
| Tables.Table.PayoutBets | src/table.py:14-18 | Reads one outcome, pays every pending bet against it (each bettor gains exactly `CreditTo`), then clears the pending bets. |
| Tables.Table.SpinWheelAndPayout | src/table.py:10-12 | Spins, then settles against the new position. |
| LegacyTables.ColorCreditTo | table.py:14-17 | What one root settlement credits a player. It is non-negative for non-negative stakes and zero when no bet has the winning colour. |
| LegacyTables.ColorCreditToConcat | table.py:15-16 | Settling two runs of bets credits the sum of settling each. |
| LegacyTables.Table.constructor | table.py:6-8 | A new table has no pending bets and a fresh, unspun wheel. |
| LegacyTables.Table.PlaceBet | table.py:19-20 | Appends the bet; earlier bets keep their order. |
| LegacyTables.Table.PayoutBets | table.py:14-17 | Pays every pending bet against the colour the wheel shows (each bettor gains exactly `ColorCreditTo`), then clears the pending bets. |
| LegacyTables.Table.SpinWheelAndPayout | table.py:10-12 | Spins, then settles against the new colour. |
| Text.StripPadded | src/game_controller.py:60 | `strip` removes surrounding whitespace of any length and nothing else. |
| Text.StripLowerCommute | src/game_controller.py:146 | Stripping and lowering case commute. |
| Text.IntStringRoundTrip | src/game_controller.py:72 | `int(str(n)) == n` for every integer, and `str(n)` has no surrounding whitespace. |
| Text.LeadingZeroValue | src/game_controller.py:117 | A leading zero does not change the value of a digit string. |
| Controller.ValidatePositiveInteger | src/game_controller.py:54-89 | Accepts exactly the texts whose stripped form parses to an integer in [1, 1000000]. The result is that integer. |
| Controller.ValidateNumberChoice | src/game_controller.py:100-131 | Accepts exactly the texts whose stripped form parses to an integer in [0,36]. The result is that integer. |
| Controller.ValidateColorChoice | src/game_controller.py:142-163 | After strip and lower, selects colour c exactly when the text is one of c's aliases: red/r, black/b, green/g/0. |
| Controller.ValidateYesNo | src/game_controller.py:207-224 | After strip and lower: true exactly for y/yes/yeah/yep/1/true, false exactly for n/no/nope/0/false. |
| Controller.BetTypeChoice | src/game_controller.py:180-196 | After strip and lower: colour for color/c, number for number/num/n. |
| Controller.CheckMinimumBetCapability | src/game_controller.py:422-428 | Passes exactly when some amount the amount validator accepts is covered by the balance. |
| Controller.PositiveIntegerRoundTrip | src/game_controller.py:72-84 | `str(n)` is accepted back as n exactly when 1 <= n <= 1000000. |
| Controller.PaddedPositiveInteger | src/game_controller.py:60 | Whitespace of any length around any text with no whitespace at its ends (such as "05" or "+7") does not change the amount validator's answer. |
| Controller.NumberChoiceRoundTrip | src/game_controller.py:117-126 | `str(n)` is accepted back as n exactly when n is in [0,36]. |
| Controller.PaddedNumberChoice | src/game_controller.py:104 | Whitespace of any length around any text with no whitespace at its ends does not change the number validator's answer. |
| Controller.LeadingZeroNumberChoice | src/game_controller.py:117 | A leading zero does not change the number chosen. |
| Controller.BlankRejected | src/game_controller.py:54-63 | Empty or whitespace-only text is rejected by all five validators. The same empty-and-blank guard appears at src/game_controller.py lines 54-63, 100-107, 142-149, 180-187 and 207-214. |
| Controller.CaseInsensitive | src/game_controller.py:146 | Texts that differ only in letter case get the same colour, yes/no and bet-type answers. |
| Controller.ColorAliasSelects | src/game_controller.py:152-157 | Every alias selects its own colour, so no alias is shared between colours. |
| Controller.ColorNameSelects | src/game_controller.py:146-157 | A colour's enum value, with any surrounding whitespace, selects that colour. |
| Controller.YesNoAliasSelects | src/game_controller.py:217-220 | Every yes alias means yes and every no alias means no, so the two sets are disjoint. |
| Controller.BetTypeNameSelects | src/game_controller.py:189-192 | A bet type's enum value selects that bet type. |
| LegacyController.ValidatePositiveInteger | game_controller.py:35-47 | Accepts exactly the texts that parse, ignoring surrounding whitespace, to an integer of at least 1, with no upper bound. |
| LegacyController.CappedInSrc | game_controller.py:41-47 | The `src` amount validator is this one with a 1,000,000 cap. |
| LegacyController.PositiveIntegerRoundTrip | game_controller.py:41-47 | `str(n)` is accepted back as n for every positive n. |
| LegacyController.ValidateColorChoice | game_controller.py:49-62 | Selects colour c exactly when the lowered text is c's name; no stripping and no aliases. |
| LegacyController.ValidateYesNo | game_controller.py:64-75 | True exactly for y/yes and false exactly for n/no, in any letter case. |
| LegacyController.ColorChoiceKeptInSrc | game_controller.py:55-62 | Every colour answer the root validator accepts is accepted with the same meaning by the `src` validator. |
| LegacyController.YesNoKeptInSrc | game_controller.py:70-75 | Every yes/no answer the root validator accepts is accepted with the same meaning by the `src` validator. |
| LegacyController.AcceptBetAmount | game_controller.py:130-142 | An amount is accepted exactly when it is valid and the balance covers it. It is then in [1, balance]. |
| LegacyController.PlaceColorBet | game_controller.py:159-171 | When the balance covers the stake: takes it, builds the bet and appends it to the table. Otherwise nothing changes and no bet is placed. |
| Scenarios.ColorWinsNumberLoses | tests/test_mixed_betting_integration.py:115-140 | 1000, then 40 on red and 15 on 17, ball on 3: final balance 1025 and no pending bets. |
| Scenarios.SixBetsOnSeventeen | tests/test_mixed_betting_integration.py:256-291 | Six bets totalling 150, ball on 17: final balance 1000 - 150 + 60 + 700. |
| Scenarios.StakesUntilBroke | tests/test_mixed_betting_integration.py:293-314 | 100, then stakes of 60 and 40 leave 0, and a stake of 10 is refused. |
| Scenarios.RepeatedPayout | tests/test_bet_class.py:200-213 | A red bet of 20 paid on red and then on black: 1040 after both calls. |
| Scenarios.LoseEverything | tests/test_mixed_betting_integration.py:325-342 | The whole balance on 17, ball on 23: balance 0 and no pending bets. |
| Scenarios.LegacyGreenWins | game_controller.py:160-163 | Root tree: 20 on green placed through the controller, ball on 0: final balance 1680. |
| ValidatorCases.AcceptsCap | test_validation.py:107-108 | "1000000" is accepted as 1000000. |
| ValidatorCases.RejectsAboveCap | test_validation.py:111-112 | "1000001" is rejected. |
| ValidatorCases.LegacyAcceptsAboveCap | game_controller.py:41-47 | The root validator accepts "2000000". |
| ValidatorCases.AcceptsPaddedAmount | test_validation.py:115-116 | "  100  " is accepted as 100. |
| ValidatorCases.RejectsNegative | test_validation.py:32 | "-5" is rejected. |
| ValidatorCases.RejectsLetters | test_validation.py:33 | "abc" is rejected. |
| ValidatorCases.NumberWithLeadingZero | tests/test_number_validation.py:174 | "05" chooses 5. |
| ValidatorCases.MixedCaseColor | test_validation.py:122 | "rEd" selects red. |
| ValidatorCases.ZeroAliases | test_validation.py:63-90 | "0" selects green as a colour and means no as an answer. |
| ValidatorCases.UpperCaseYes | test_validation.py:81 | "YES" means yes. |

## Left out

- Wheels.Wheel.Spin: `randint(0, 36)` becomes an arbitrary choice of position; the uniform distribution is not modelled.
- Interactive controller code is not modelled, because it is input/output around the core. This covers every `print`/`input` loop: `display_*`, `setup_player`, `handle_*`, `execute_round`, `should_continue_playing` and `run_game`. It also covers the exception catch-alls and the prompt of `get_bet_type`. Only its alias mapping is modelled, as `Controller.BetTypeChoice`.
- Integer parsing is an optional sign followed by ASCII digits. Python `int` also accepts `_` digit separators and non-ASCII digits; these are not modelled.
- Whitespace is the ASCII whitespace of `str.isspace`. Case folding covers ASCII letters only. Unicode whitespace and non-ASCII letters are not modelled.
- The `src` bet's keyword constructor (`Bet(amount, player, color=...)`) and one-argument `payout` are not modelled. They repeat the colour branch.
- The root `table.py:16` `payout()` call without an argument is not reproduced. The model passes the wheel's colour instead.
- Integers are unbounded, as Python's are.
- `src/wheel.py`, `src/player.py`, `main.py` and `Rouletee.py` are not part of this model. The root wheel and player stand in for the first two.
