/** The input validators of the `src` game controller: each maps the text a
    user typed to a value, or to None when the text is rejected. */
module Controller {
  import opened Wrappers
  import opened Text
  import opened Wheels
  import opened Bets

  /** The largest amount a deposit or bet may be. */
  const MaxAmount := 1000000

  /** A whole number of 1 to 1,000,000 after stripping; no decimal point and
      no thousands separator. */
  function ValidatePositiveInteger(value: string): (r: Option<int>)
    ensures r.Some? <==> ParseInt(Strip(value)).Some? && 1 <= ParseInt(Strip(value)).value <= MaxAmount
    ensures r.Some? ==> r == ParseInt(Strip(value))
  {
    if value == [] then StripEmpty(); None
    else
      var cleaned := Strip(value);
      if cleaned == [] then None
      else if '.' in cleaned || ',' in cleaned then None
      else
        var parsed := ParseInt(cleaned);
        if parsed.None? then None
        else if parsed.value <= 0 then None
        else if parsed.value > 1000000 then None
        else parsed
  }

  /** A roulette number 0 to 36 after stripping. */
  function ValidateNumberChoice(choice: string): (r: Option<int>)
    ensures r.Some? <==> ParseInt(Strip(choice)).Some? && IsPosition(ParseInt(Strip(choice)).value)
    ensures r.Some? ==> r == ParseInt(Strip(choice))
  {
    if choice == [] then StripEmpty(); None
    else
      var cleaned := Strip(choice);
      if cleaned == [] then None
      else if '.' in cleaned || ',' in cleaned then None
      else
        var parsed := ParseInt(cleaned);
        if parsed.None? then None
        else if parsed.value < 0 || parsed.value > 36 then None
        else parsed
  }

  const RedAliases: seq<string> := ["red", "r"]
  const BlackAliases: seq<string> := ["black", "b"]
  const GreenAliases: seq<string> := ["green", "g", "0"]

  /** The aliases that select colour c. */
  function ColorAliases(c: Color): seq<string> {
    match c
    case Red => RedAliases
    case Black => BlackAliases
    case Green => GreenAliases
  }

  /** No colour alias is empty and none is shared between colours. */
  lemma ColorAliasesDistinct()
    ensures forall a :: a in RedAliases ==> a != [] && a !in BlackAliases && a !in GreenAliases
    ensures forall a :: a in BlackAliases ==> a != [] && a !in GreenAliases
    ensures [] !in GreenAliases
  {
  }

  /** The colour a stripped, lowered text selects. */
  function ColorOfAlias(cleaned: string): (r: Option<Color>)
    ensures forall c :: r == Some(c) <==> cleaned in ColorAliases(c)
  {
    ColorAliasesDistinct();
    if cleaned in RedAliases then Some(Red)
    else if cleaned in BlackAliases then Some(Black)
    else if cleaned in GreenAliases then Some(Green)
    else None
  }

  /** A colour name or its one-letter alias ("0" for green), in any case,
      after stripping. */
  function ValidateColorChoice(choice: string): (r: Option<Color>)
    ensures forall c :: r == Some(c) <==> Lower(Strip(choice)) in ColorAliases(c)
  {
    if choice == [] then StripEmpty(); None
    else
      var cleaned := Lower(Strip(choice));
      if cleaned == [] then None
      else ColorOfAlias(cleaned)
  }

  const YesAliases: seq<string> := ["y", "yes", "yeah", "yep", "1", "true"]
  const NoAliases: seq<string> := ["n", "no", "nope", "0", "false"]

  /** No yes/no alias is empty and none is both. */
  lemma YesNoAliasesDistinct()
    ensures forall a :: a in YesAliases ==> a != [] && a !in NoAliases
    ensures [] !in NoAliases
  {
  }

  /** The answer a stripped, lowered text selects. */
  function YesNoOf(cleaned: string): (r: Option<bool>)
    ensures r == Some(true) <==> cleaned in YesAliases
    ensures r == Some(false) <==> cleaned in NoAliases
  {
    YesNoAliasesDistinct();
    if cleaned in YesAliases then Some(true)
    else if cleaned in NoAliases then Some(false)
    else None
  }

  /** A yes or no alias, in any case, after stripping. */
  function ValidateYesNo(choice: string): (r: Option<bool>)
    ensures r == Some(true) <==> Lower(Strip(choice)) in YesAliases
    ensures r == Some(false) <==> Lower(Strip(choice)) in NoAliases
  {
    if choice == [] then StripEmpty(); None
    else
      var cleaned := Lower(Strip(choice));
      if cleaned == [] then None
      else YesNoOf(cleaned)
  }

  const ColorTypeAliases: seq<string> := ["color", "c"]
  const NumberTypeAliases: seq<string> := ["number", "num", "n"]

  lemma BetTypeAliasesDistinct()
    ensures forall a :: a in ColorTypeAliases ==> a != [] && a !in NumberTypeAliases
    ensures [] !in NumberTypeAliases
  {
  }

  /** The bet type a stripped, lowered text selects. */
  function BetTypeOf(cleaned: string): (r: Option<BetType>)
    ensures r == Some(ColorBet) <==> cleaned in ColorTypeAliases
    ensures r == Some(NumberBet) <==> cleaned in NumberTypeAliases
  {
    BetTypeAliasesDistinct();
    if cleaned in ColorTypeAliases then Some(ColorBet)
    else if cleaned in NumberTypeAliases then Some(NumberBet)
    else None
  }

  /** The bet-type alias mapping applied to what the user typed. */
  function BetTypeChoice(input: string): (r: Option<BetType>)
    ensures r == Some(ColorBet) <==> Lower(Strip(input)) in ColorTypeAliases
    ensures r == Some(NumberBet) <==> Lower(Strip(input)) in NumberTypeAliases
  {
    if input == [] then StripEmpty(); None
    else
      var cleaned := Lower(Strip(input));
      if cleaned == [] then None
      else BetTypeOf(cleaned)
  }

  /** Whether a balance covers the one-unit minimum bet: it passes exactly
      when some amount the validator accepts is covered by the balance. */
  function CheckMinimumBetCapability(balance: int): (r: bool)
    ensures r <==> exists input :: Affordable(input, balance)
  {
    if balance >= 1 then
      PositiveIntegerRoundTrip(1);
      assert Affordable(IntString(1), balance);
      true
    else false
  }

  /** An amount the validator accepts and the balance covers. */
  predicate Affordable(input: string, balance: int) {
    ValidatePositiveInteger(input).Some? && ValidatePositiveInteger(input).value <= balance
  }

  /** `str(n)` is accepted back as n exactly when n is in range. */
  lemma PositiveIntegerRoundTrip(n: int)
    ensures ValidatePositiveInteger(IntString(n)) == if 1 <= n <= MaxAmount then Some(n) else None
  {
    IntStringRoundTrip(n);
    StripUnpadded(IntString(n));
  }

  /** Whitespace around an amount is ignored, whatever the amount's text. */
  lemma PaddedPositiveInteger(before: string, s: string, after: string)
    requires AllWhitespace(before) && AllWhitespace(after) && Unpadded(s)
    ensures ValidatePositiveInteger(before + s + after) == ValidatePositiveInteger(s)
  {
    StripPadded(before, s, after);
    StripUnpadded(s);
  }

  lemma NumberChoiceRoundTrip(n: int)
    ensures ValidateNumberChoice(IntString(n)) == if IsPosition(n) then Some(n) else None
  {
    IntStringRoundTrip(n);
    StripUnpadded(IntString(n));
  }

  /** Whitespace around a number is ignored, whatever the number's text. */
  lemma PaddedNumberChoice(before: string, s: string, after: string)
    requires AllWhitespace(before) && AllWhitespace(after) && Unpadded(s)
    ensures ValidateNumberChoice(before + s + after) == ValidateNumberChoice(s)
  {
    StripPadded(before, s, after);
    StripUnpadded(s);
  }

  /** A leading zero does not change the choice: "05" selects 5. */
  lemma LeadingZeroNumberChoice(digits: string)
    requires digits != [] && AllDigits(digits)
    ensures ValidateNumberChoice("0" + digits) == ValidateNumberChoice(digits)
  {
    LeadingZeroValue(digits);
    var z := "0" + digits;
    assert z[|z| - 1] == digits[|digits| - 1];
    StripUnpadded(z);
    StripUnpadded(digits);
  }

  /** Empty or whitespace-only text is rejected by every validator. */
  lemma BlankRejected(s: string)
    requires AllWhitespace(s)
    ensures ValidatePositiveInteger(s) == None && ValidateNumberChoice(s) == None
    ensures ValidateColorChoice(s) == None && ValidateYesNo(s) == None && BetTypeChoice(s) == None
  {
    StripAllWhitespace(s);
  }

  /** Two texts that differ only in letter case get the same answer. */
  lemma CaseInsensitive(s1: string, s2: string)
    requires Lower(s1) == Lower(s2)
    ensures ValidateColorChoice(s1) == ValidateColorChoice(s2)
    ensures ValidateYesNo(s1) == ValidateYesNo(s2)
    ensures BetTypeChoice(s1) == BetTypeChoice(s2)
  {
    StripLowerCommute(s1);
    StripLowerCommute(s2);
  }

  lemma ColorAliasNormalized(c: Color, alias: string)
    requires alias in ColorAliases(c)
    ensures Normalized(alias)
  {
  }

  /** Every alias selects its own colour: no alias is shared. */
  lemma ColorAliasSelects(c: Color, alias: string)
    requires alias in ColorAliases(c)
    ensures ValidateColorChoice(alias) == Some(c)
  {
    ColorAliasNormalized(c, alias);
    NormalizedFixed(alias);
  }

  /** The enum value of a colour, padded with whitespace, selects it. */
  lemma ColorNameSelects(before: string, c: Color, after: string)
    requires AllWhitespace(before) && AllWhitespace(after)
    ensures ValidateColorChoice(before + Name(c) + after) == Some(c)
  {
    StripPadded(before, Name(c), after);
    ColorAliasSelects(c, Name(c));
  }

  lemma YesNoAliasNormalized(alias: string)
    requires alias in YesAliases || alias in NoAliases
    ensures Normalized(alias)
  {
  }

  /** Every yes alias means yes and every no alias means no. */
  lemma YesNoAliasSelects(alias: string)
    ensures alias in YesAliases ==> ValidateYesNo(alias) == Some(true)
    ensures alias in NoAliases ==> ValidateYesNo(alias) == Some(false)
  {
    if alias in YesAliases || alias in NoAliases {
      YesNoAliasNormalized(alias);
      NormalizedFixed(alias);
    }
  }

  /** The enum value of a bet type selects it. */
  lemma BetTypeNameSelects(t: BetType)
    ensures BetTypeChoice(TypeName(t)) == Some(t)
  {
    assert Normalized(TypeName(t));
    NormalizedFixed(TypeName(t));
  }
}
