/*
 * The tokeniser and the parser used together: text is tokenised and the
 * first expression is read at position 0. On "42" this joins the tokeniser's
 * and the parser's tests, which the source runs separately.
 */
module FrontEnd {
  import opened Tokeniser
  import opened Parser

  /** An integer's numeral is one word: digits and possibly a leading minus sign. */
  lemma NumeralIsWord(n: int)
    ensures ShowInt(n) != [] && NoSpace(ShowInt(n)) && NoParen(ShowInt(n))
  {
    var m := if n < 0 then -n else n;
    ShowNatDigits(m);
    var d := ShowNat(m);
    assert forall i :: 0 <= i < |d| ==> !IsSpace(d[i]) && !IsParen(d[i]) by {
      forall i | 0 <= i < |d| ensures !IsSpace(d[i]) && !IsParen(d[i]) {
        assert IsDigit(d[i]);
      }
    }
    if n < 0 {
      var t := ShowInt(n);
      assert t == "-" + d;
      assert forall i :: 1 <= i < |t| ==> t[i] == d[i - 1];
    }
  }

  /** Tokenising an integer's numeral and parsing at 0 gives that integer, continuing at 1. */
  lemma ParseTokenisedNumeral(n: int)
    ensures ParseExpression(Tokenise(ShowInt(n)), 0) == Ok(Parsed(Number(n as real), 1))
  {
    NumeralIsWord(n);
    TokeniseWord(ShowInt(n));
    IntegerNumeralRoundTrip(n);
  }

  /** The source's tests end to end: "42" is tokenised to ["42"] and parsed to the number 42 at position 1. */
  lemma ParseTokenisedFortyTwo()
    ensures ParseExpression(Tokenise("42"), 0) == Ok(Parsed(Number(42.0), 1))
  {
    assert ShowInt(42) == "42";
    ParseTokenisedNumeral(42);
  }

  /** A non-numeric word is tokenised to itself and parsed to the symbol of that text. */
  lemma ParseTokenisedWord(w: string)
    requires w != [] && NoSpace(w) && NoParen(w) && !IsNumber(w)
    ensures ParseExpression(Tokenise(w), 0) == Ok(Parsed(Symbol(w), 1))
  {
    TokeniseWord(w);
  }

  /** Reading the first expression of some text fails, with end of input, exactly when the text is blank. */
  lemma FirstExpressionFailsIffBlank(text: string)
    ensures ParseExpression(Tokenise(text), 0).Err? <==> AllSpace(text)
    ensures ParseExpression(Tokenise(text), 0).Err? ==> ParseExpression(Tokenise(text), 0).error == EndOfInput
  {
    TokeniseEmptyIff(text);
  }
}
