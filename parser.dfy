/*
 * The parser of the Scheme front end: one expression is read from a token
 * sequence at an explicit position, and the node is returned together with
 * the position where parsing continues.
 *
 * The source's three node builders (number, symbol, list) are the three
 * constructors of Node, and its ParseError exception is the Err case of
 * Result. Python's float() is abstracted to the decimal-literal language of
 * IsNumber and the exact value NumVal.
 */
module Parser {

  /** An AST node. A number carries its exact value; the source stores it under the key "name" too. */
  datatype Node = Number(value: real) | Symbol(name: string) | List(elements: seq<Node>)

  /** Why a parse failed: the position ran past the tokens, or parse_number met a non-numeric token. */
  datatype ParseError = EndOfInput | ExpectedNumber(token: string)

  datatype Result<T> = Ok(value: T) | Err(error: ParseError)

  /** The node read and the position where parsing continues. */
  datatype Parsed = Parsed(node: Node, position: nat)

  // ---------------------------------------------------------------------------
  // Numeric tokens
  // ---------------------------------------------------------------------------

  predicate IsDigit(c: char) {
    '0' <= c <= '9'
  }

  predicate IsSign(c: char) {
    c == '+' || c == '-'
  }

  predicate AllDigits(s: string) {
    forall i :: 0 <= i < |s| ==> IsDigit(s[i])
  }

  /** The index of the first character of s that is in cs, or |s| when there is none. */
  function IndexOfAny(s: string, cs: set<char>): (i: nat)
    ensures i <= |s|
    ensures i < |s| ==> s[i] in cs
    ensures forall j :: 0 <= j < i ==> s[j] !in cs
  {
    if s == [] then 0
    else if s[0] in cs then 0
    else 1 + IndexOfAny(s[1..], cs)
  }

  /** 1 when s starts with a sign, else 0. */
  function SignLength(s: string): nat {
    if s != [] && IsSign(s[0]) then 1 else 0
  }

  /** Digits with at most one decimal point, and at least one digit: "12", "1.5", "1.", ".5". */
  predicate IsMantissa(m: string) {
    var p := IndexOfAny(m, {'.'});
    && AllDigits(m[..p])
    && (p == |m| || AllDigits(m[p + 1..]))
    && (p > 0 || |m| > p + 1)
  }

  /** The part after 'e' or 'E': an optional sign and at least one digit. */
  predicate IsExponentDigits(x: string) {
    var k := SignLength(x);
    |x| > k && AllDigits(x[k..])
  }

  /**
   * is_number: whether float() accepts the token, restricted to decimal
   * literals: an optional sign, a mantissa and an optional exponent.
   */
  predicate IsNumber(token: string) {
    var u := token[SignLength(token)..];
    var e := IndexOfAny(u, {'e', 'E'});
    IsMantissa(u[..e]) && (e == |u| || IsExponentDigits(u[e + 1..]))
  }

  function Pow10(n: nat): (r: nat)
    ensures r >= 1
  {
    if n == 0 then 1 else 10 * Pow10(n - 1)
  }

  function DigitValue(c: char): nat
    requires IsDigit(c)
  {
    c as int - '0' as int
  }

  /** The value of a string of decimal digits, most significant first. */
  function DigitsValue(s: string): nat
    requires AllDigits(s)
  {
    if s == [] then 0 else 10 * DigitsValue(s[..|s| - 1]) + DigitValue(s[|s| - 1])
  }

  function MantissaValue(m: string): real
    requires IsMantissa(m)
  {
    var p := IndexOfAny(m, {'.'});
    var fraction := if p == |m| then [] else m[p + 1..];
    DigitsValue(m[..p]) as real + DigitsValue(fraction) as real / Pow10(|fraction|) as real
  }

  function ExponentValue(x: string): int
    requires IsExponentDigits(x)
  {
    var k := SignLength(x);
    if k == 1 && x[0] == '-' then -(DigitsValue(x[k..]) as int) else DigitsValue(x[k..])
  }

  /** 10 raised to a possibly negative power. */
  function Scale(e: int): real {
    if e >= 0 then Pow10(e) as real else 1.0 / Pow10(-e) as real
  }

  /** float(token), as an exact real. */
  function NumVal(token: string): real
    requires IsNumber(token)
  {
    var k := SignLength(token);
    var u := token[k..];
    var e := IndexOfAny(u, {'e', 'E'});
    var magnitude := MantissaValue(u[..e]) * (if e == |u| then 1.0 else Scale(ExponentValue(u[e + 1..])));
    if k == 1 && token[0] == '-' then -magnitude else magnitude
  }

  // ---------------------------------------------------------------------------
  // The parse functions
  // ---------------------------------------------------------------------------

  /** parse_number: a number node for a numeric token, else an error naming why. */
  function ParseNumber(tokens: seq<string>, position: nat): (r: Result<Parsed>)
    ensures r.Ok? <==> position < |tokens| && IsNumber(tokens[position])
    ensures r.Ok? ==> r.value.node.Number? && r.value.position == position + 1
    ensures r.Ok? ==> r.value.node.value == NumVal(tokens[position])
    ensures r.Err? && position >= |tokens| ==> r.error == EndOfInput
    ensures r.Err? && position < |tokens| ==> r.error == ExpectedNumber(tokens[position])
  {
    if position >= |tokens| then Err(EndOfInput)
    else
      var token := tokens[position];
      if !IsNumber(token) then Err(ExpectedNumber(token))
      else Ok(Parsed(Number(NumVal(token)), position + 1))
  }

  /** parse_symbol: any token in range is a symbol of the same text. */
  function ParseSymbol(tokens: seq<string>, position: nat): (r: Result<Parsed>)
    ensures r.Ok? <==> position < |tokens|
    ensures r.Ok? ==> r.value.node == Symbol(tokens[position]) && r.value.position == position + 1
    ensures r.Err? ==> r.error == EndOfInput
  {
    if position >= |tokens| then Err(EndOfInput)
    else
      var token := tokens[position];
      Ok(Parsed(Symbol(token), position + 1))
  }

  /** parse_expression: dispatch on the token at position, numbers first. */
  function ParseExpression(tokens: seq<string>, position: nat): (r: Result<Parsed>)
    ensures r.Ok? <==> position < |tokens|
    ensures r.Err? ==> r.error == EndOfInput
    ensures r.Ok? ==> r.value.position == position + 1 && !r.value.node.List?
    ensures r.Ok? ==> (r.value.node.Number? <==> IsNumber(tokens[position]))
    ensures r.Ok? && r.value.node.Number? ==> r.value.node.value == NumVal(tokens[position])
    ensures r.Ok? && r.value.node.Symbol? ==> r.value.node.name == tokens[position]
  {
    if position >= |tokens| then Err(EndOfInput)
    else
      var token := tokens[position];
      if IsNumber(token) then ParseNumber(tokens, position) else ParseSymbol(tokens, position)
  }

  // ---------------------------------------------------------------------------
  // Properties
  // ---------------------------------------------------------------------------

  /** The node read depends on the token at the position and on nothing else in the sequence. */
  lemma ParseExpressionIsLocal(tokens: seq<string>, position: nat, others: seq<string>, at: nat)
    requires position < |tokens| && at < |others| && tokens[position] == others[at]
    ensures ParseExpression(tokens, position).Ok? && ParseExpression(others, at).Ok?
    ensures ParseExpression(tokens, position).value.node == ParseExpression(others, at).value.node
  {
  }

  /** The decimal numeral of a natural number, without leading zeros. */
  function ShowNat(n: nat): (s: string)
    decreases n
  {
    if n < 10 then [('0' as int + n) as char]
    else ShowNat(n / 10) + [('0' as int + n % 10) as char]
  }

  /** The numeral of an integer, with a leading '-' when it is negative. */
  function ShowInt(n: int): string {
    if n < 0 then "-" + ShowNat(-n) else ShowNat(n)
  }

  lemma {:induction false} ShowNatDigits(n: nat)
    ensures ShowNat(n) != [] && AllDigits(ShowNat(n))
    ensures DigitsValue(ShowNat(n)) == n
    decreases n
  {
    if n >= 10 {
      ShowNatDigits(n / 10);
      var s := ShowNat(n);
      assert s[..|s| - 1] == ShowNat(n / 10);
    }
  }

  lemma IndexOfAbsent(s: string, cs: set<char>)
    requires forall i :: 0 <= i < |s| ==> s[i] !in cs
    ensures IndexOfAny(s, cs) == |s|
  {
  }

  lemma DigitStringIsMantissa(s: string)
    requires s != [] && AllDigits(s)
    ensures IsMantissa(s) && MantissaValue(s) == DigitsValue(s) as real
  {
    IndexOfAbsent(s, {'.'});
    assert s[..|s|] == s;
    assert DigitsValue([]) == 0;
  }

  /** A digit string is a numeric token and denotes its digits' value. */
  lemma DigitStringIsNumber(s: string)
    requires s != [] && AllDigits(s)
    ensures IsNumber(s) && NumVal(s) == DigitsValue(s) as real
  {
    assert SignLength(s) == 0 by { assert IsDigit(s[0]); }
    assert s[0..] == s;
    IndexOfAbsent(s, {'e', 'E'});
    assert s[..|s|] == s;
    DigitStringIsMantissa(s);
  }

  /** A minus sign followed by a digit string is a numeric token denoting the negated value. */
  lemma NegatedDigitStringIsNumber(s: string)
    requires s != [] && AllDigits(s)
    ensures IsNumber("-" + s) && NumVal("-" + s) == -(DigitsValue(s) as real)
  {
    var t := "-" + s;
    assert SignLength(t) == 1 && t[1..] == s;
    IndexOfAbsent(s, {'e', 'E'});
    assert s[..|s|] == s;
    DigitStringIsMantissa(s);
  }

  /** The numeral of every integer is a numeric token whose value is that integer. */
  lemma IntegerNumeralRoundTrip(n: int)
    ensures IsNumber(ShowInt(n)) && NumVal(ShowInt(n)) == n as real
  {
    if n >= 0 {
      ShowNatDigits(n);
      DigitStringIsNumber(ShowNat(n));
    } else {
      ShowNatDigits(-n);
      NegatedDigitStringIsNumber(ShowNat(-n));
    }
  }

  /** The source's test: ["42"] at 0 is the number 42, continuing at 1. */
  lemma ParseSingleNumberTest()
    ensures ParseExpression(["42"], 0) == Ok(Parsed(Number(42.0), 1))
  {
  }

  /** A signed integer: "-42" is the number -42. */
  lemma NegativeNumberExample()
    ensures IsNumber("-42") && NumVal("-42") == -42.0
  {
  }

  /** A decimal point: "3.14" is the number 3.14. */
  lemma DecimalNumberExample()
    ensures IsNumber("3.14") && NumVal("3.14") == 3.14
  {
    var t := "3.14";
    assert SignLength(t) == 0 && t[0..] == t;
    IndexOfAbsent(t, {'e', 'E'});
    assert t[..4] == t;
    assert IndexOfAny(t, {'.'}) == 1 by {
      assert t[1] in {'.'};
      assert t[0] !in {'.'};
    }
    assert t[..1] == "3" && t[2..] == "14";
    assert DigitsValue("3") == 3 by { assert "3"[..0] == []; }
    assert DigitsValue("14") == 14 by {
      assert "14"[..1] == "1";
      assert "1"[..0] == [];
    }
  }

  /** An exponent: "1.5e2" is the number 150. */
  lemma ExponentNumberExample()
    ensures IsNumber("1.5e2") && NumVal("1.5e2") == 150.0
  {
    var t := "1.5e2";
    assert SignLength(t) == 0 && t[0..] == t;
    assert IndexOfAny(t, {'e', 'E'}) == 3 by {
      assert t[3] in {'e', 'E'};
      assert forall j :: 0 <= j < 3 ==> t[j] !in {'e', 'E'};
    }
    var m := t[..3];
    assert m == "1.5";
    assert IndexOfAny(m, {'.'}) == 1 by {
      assert m[1] in {'.'};
      assert m[0] !in {'.'};
    }
    assert m[..1] == "1" && m[2..] == "5";
    assert DigitsValue("1") == 1 by { assert "1"[..0] == []; }
    assert DigitsValue("5") == 5 by { assert "5"[..0] == []; }
    assert MantissaValue(m) == 1.5;
    var x := t[4..];
    assert x == "2";
    assert SignLength(x) == 0 && x[0..] == x;
    assert DigitsValue(x) == 2 by { assert x[..0] == []; }
    assert ExponentValue(x) == 2;
    assert Scale(2) == 100.0;
  }

  /** A lone sign, a lone point and the parentheses are not numbers, so they parse as symbols. */
  lemma SymbolExamples()
    ensures ParseExpression(["-"], 0) == Ok(Parsed(Symbol("-"), 1))
    ensures ParseExpression(["."], 0) == Ok(Parsed(Symbol("."), 1))
    ensures ParseExpression(["("], 0) == Ok(Parsed(Symbol("("), 1))
    ensures ParseExpression([")"], 0) == Ok(Parsed(Symbol(")"), 1))
  {
  }
}
