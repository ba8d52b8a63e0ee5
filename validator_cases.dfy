/** Particular answers of the validators, derived from the general lemmas. */
module ValidatorCases {
  import opened Wrappers
  import opened Text
  import opened Wheels
  import Controller
  import LegacyController

  /** `str(n)` for the integers used below. */
  lemma RenderedCap()
    ensures IntString(1000000) == "1000000"
  {
  }

  lemma RenderedAboveCap()
    ensures IntString(1000001) == "1000001"
  {
  }

  lemma RenderedTwoMillion()
    ensures IntString(2000000) == "2000000"
  {
  }

  lemma RenderedSmall()
    ensures IntString(100) == "100" && IntString(-5) == "-5" && IntString(5) == "5"
  {
  }

  /** "abc" has no surrounding whitespace and is not a number. */
  lemma LettersText()
    ensures Strip("abc") == "abc" && ParseInt("abc") == None
  {
    assert !IsDigit("abc"[0]);
    StripUnpadded("abc");
  }

  /** The cap itself is accepted. */
  lemma AcceptsCap()
    ensures Controller.ValidatePositiveInteger("1000000") == Some(1000000)
  {
    RenderedCap();
    Controller.PositiveIntegerRoundTrip(1000000);
  }

  lemma RejectsAboveCap()
    ensures Controller.ValidatePositiveInteger("1000001") == None
  {
    RenderedAboveCap();
    Controller.PositiveIntegerRoundTrip(1000001);
  }

  /** The root validator has no cap. */
  lemma LegacyAcceptsAboveCap()
    ensures LegacyController.ValidatePositiveInteger("2000000") == Some(2000000)
  {
    RenderedTwoMillion();
    LegacyController.PositiveIntegerRoundTrip(2000000);
  }

  lemma AcceptsPaddedAmount()
    ensures Controller.ValidatePositiveInteger("  100  ") == Some(100)
  {
    RenderedSmall();
    IntStringRoundTrip(100);
    assert "  " + "100" + "  " == "  100  ";
    Controller.PaddedPositiveInteger("  ", "100", "  ");
    Controller.PositiveIntegerRoundTrip(100);
  }

  lemma RejectsNegative()
    ensures Controller.ValidatePositiveInteger("-5") == None
  {
    RenderedSmall();
    Controller.PositiveIntegerRoundTrip(-5);
  }

  lemma RejectsLetters()
    ensures Controller.ValidatePositiveInteger("abc") == None
  {
    LettersText();
  }

  lemma NumberWithLeadingZero()
    ensures Controller.ValidateNumberChoice("05") == Some(5)
  {
    RenderedSmall();
    assert "0" + "5" == "05";
    Controller.LeadingZeroNumberChoice("5");
    Controller.NumberChoiceRoundTrip(5);
  }

  lemma MixedCaseColor()
    ensures Controller.ValidateColorChoice("rEd") == Some(Red)
  {
    Controller.CaseInsensitive("rEd", "red");
    Controller.ColorAliasSelects(Red, "red");
  }

  /** "0" is a colour alias (green) and a no alias. */
  lemma ZeroAliases()
    ensures Controller.ValidateColorChoice("0") == Some(Green)
    ensures Controller.ValidateYesNo("0") == Some(false)
  {
    Controller.ColorAliasSelects(Green, "0");
    Controller.YesNoAliasSelects("0");
  }

  lemma UpperCaseYes()
    ensures Controller.ValidateYesNo("YES") == Some(true)
  {
    Controller.CaseInsensitive("YES", "yes");
    Controller.YesNoAliasSelects("yes");
  }
}
