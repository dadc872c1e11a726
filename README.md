# Scheme front end: tokeniser and single-expression parser

This project models the front end of a small Scheme interpreter written in Python and proves properties of the model.

- The **tokeniser** (`tokenise`) pads every `(` and `)` with spaces. It then strips the text and splits it on whitespace.
- The **parser** reads one expression from a token list at an explicit position. It returns the AST node and the position where parsing goes on.
  - A numeric token (one that Python's `float()` accepts) becomes a number node.
  - Any other token becomes a symbol node.
  - A position past the end raises `ParseError`.

Both source files are pure, so the model is datatypes, functions and lemmas. It has no classes and no loops.

- `tokeniser.dfy`, module `Tokeniser`:
  - `Tokenise` is the source's expression, written as `Replace` twice (`Pad`), `Strip` and `Split`, plus the early return for empty input.
  - Its partner is `Scan`, an independent left-to-right scanner.
  - The contract of `Tokenise` states that the two are equal. The properties of the token list are proved on the scanner and then stated for `Tokenise`.
  - `IsSpace` is Python's `str.isspace()` set: the ASCII whitespace and separator characters plus the Unicode space characters. `str.strip()` and `str.split()` use this set.
- `parser.dfy`, module `Parser`:
  - The three dictionary builders `number_node`, `symbol_node` and `list_node` become the constructors of `Node`.
  - The `ParseError` exception becomes the `Err` case of `Result`. It has two reasons: `EndOfInput` and `ExpectedNumber(token)`.
  - `is_number` is `IsNumber`. It accepts a decimal literal: an optional sign, digits with at most one point and at least one digit, and an optional exponent.
  - `float(token)` is `NumVal`, the exact value of that literal as a `real`.
  - `ParseNumber`, `ParseSymbol` and `ParseExpression` follow the source branch by branch.
- `frontend.dfy`, module `FrontEnd`: text is tokenised and the first expression is read at position 0. On `"42"` this joins the tokeniser test and the parser test, which the source runs separately; the parser test passes the literal list `["42"]`.

What the code has and lacks:

- There is no list parsing, no boolean or string literal, no error for `)`, no program-level parse and no check for tokens left over after an expression.
- `parse_expression` turns `(` and `)` into symbols (`SymbolExamples`).
- `is_number` is a call to `float()`. That call also accepts a leading `+`, a trailing point such as `1.`, and exponents.
- `number_node` stores the value under the key `"name"`, the same key a symbol uses for its text. `Node.Number` calls the field `value`. The two node kinds differ only by their `type` tag in the source and by their constructor here.

## Model

| member | source | states |
|---|---|---|
| Tokeniser.Tokenise | src/scheme_interpreter/tokeniser.py:1-4 | Its contract: the pipeline (early return on empty input, two replaces, strip, split) yields exactly what `Scan`, a left-to-right scan, yields. In that scan, whitespace ends a word, each parenthesis ends a word and is a token of its own, and every other character extends the word. |
| Tokeniser.Pad | src/scheme_interpreter/tokeniser.py:4 | The two chained `replace` calls. Their contract is carried by `PadIsPadEach` and `PadKeepsText`. |
| Tokeniser.PadIsPadEach | src/scheme_interpreter/tokeniser.py:4 | The two chained `replace` calls pad character by character: `(` becomes ` ( `, `)` becomes ` ) `, and every other character is unchanged. |
| Tokeniser.PadKeepsText | src/scheme_interpreter/tokeniser.py:4 | Padding adds only whitespace: with whitespace removed, the padded text equals the input. |
| Tokeniser.Strip | src/scheme_interpreter/tokeniser.py:4 | `str.strip()`. Its contract is carried by `StripSpec` and `SplitStrip`. |
| Tokeniser.StripSpec | src/scheme_interpreter/tokeniser.py:4 | `strip` returns a slice of the input that is empty or starts and ends with non-whitespace. Everything before and after that slice is whitespace. |
| Tokeniser.StripStartSpec | src/scheme_interpreter/tokeniser.py:4 | The leading half of `strip` removes a prefix that is all whitespace. What remains is a suffix of the input that is empty or does not start with whitespace. |
| Tokeniser.StripEndSpec | src/scheme_interpreter/tokeniser.py:4 | The trailing half of `strip` removes a suffix that is all whitespace. What remains is a prefix of the input that is empty or does not end with whitespace. |
| Tokeniser.Split | src/scheme_interpreter/tokeniser.py:4 | `str.split()` with no separator. Its contract is carried by `SplitWordsNoSpace` and `SplitWordsAtSpace`, which together fix the result on every input, and by `SplitSpec` and `SplitStrip`. |
| Tokeniser.SplitWordsNoSpace | src/scheme_interpreter/tokeniser.py:4 | A run of characters without whitespace is never cut: it joins the pending word, and the whole becomes one word if non-empty. |
| Tokeniser.SplitSpec | src/scheme_interpreter/tokeniser.py:4 | Every word of `split()` is non-empty and holds no whitespace. Joined in order, the words give the input with its whitespace removed. |
| Tokeniser.SplitWordsAtSpace | src/scheme_interpreter/tokeniser.py:4 | `split()` cuts at any whitespace character: splitting `a + [c] + b` gives the words of `a` followed by the words of `b`. |
| Tokeniser.SplitStrip | src/scheme_interpreter/tokeniser.py:4 | Stripping before splitting never changes the result. |
| Tokeniser.SplitPaddedParen | src/scheme_interpreter/tokeniser.py:4 | A padded parenthesis ends the pending word, becomes a one-character word, and does not affect the words after it. |
| Tokeniser.SplitPad | src/scheme_interpreter/tokeniser.py:4 | Splitting the padded text gives the scanner's tokens, for any pending word. |
| Tokeniser.TokensWellFormed | src/scheme_interpreter/tokeniser.py:4 | Every token is non-empty and contains no whitespace. Each token is either a lone `(` or `)` or contains no parenthesis. |
| Tokeniser.TokensKeepText | src/scheme_interpreter/tokeniser.py:4 | Joining the tokens in order gives the input with its whitespace removed. Nothing is dropped, added or reordered. |
| Tokeniser.TokensKeepParens | src/scheme_interpreter/tokeniser.py:4 | The lone-parenthesis tokens are the input's parenthesis characters in the same order. Their number is the count of `(` and `)` characters in the input, as a multiset counts them. |
| Tokeniser.TokeniseAtDelimiter | src/scheme_interpreter/tokeniser.py:4 | Whatever surrounds it, a whitespace character splits the input into independently tokenised halves. A parenthesis does the same and also appears between the halves as its own token. |
| Tokeniser.TokeniseIgnoresOuterSpace | src/scheme_interpreter/tokeniser.py:4 | Adding leading or trailing whitespace never changes the tokens. |
| Tokeniser.TokeniseEmptyIff | src/scheme_interpreter/tokeniser.py:2-4 | The token list is empty exactly when the input is empty or all whitespace. |
| Tokeniser.TokeniseWord | src/scheme_interpreter/tokeniser.py:4 | A non-empty input with no whitespace and no parenthesis is a single token equal to itself. |
| Tokeniser.TokeniseTestCases | tests/test_tokeniser.py:1-22 | `"123"` gives `["123"]`, `"42"` gives `["42"]`, and `"42 "` gives `["42"]`. |
| Tokeniser.TokeniseEmptyList | src/scheme_interpreter/tokeniser.py:4 | `"()"` gives `["(", ")"]`: a parenthesis needs no space around it. |
| Parser.Node | src/scheme_interpreter/parser.py:1-10 | The three node builders as one datatype: a number with its value, a symbol with its text, and a list of nodes. |
| Parser.ParseError | src/scheme_interpreter/parser.py:13-16 | The exception becomes the `Err` case of `Result`, with reason `EndOfInput` or `ExpectedNumber(token)`. `ParseNumber`, `ParseSymbol` and `ParseExpression` state when each is raised. |
| Parser.IsNumber | src/scheme_interpreter/parser.py:19-24 | `float()` succeeds on a decimal literal: an optional `+` or `-`; then ASCII digits with at most one `.` and at least one digit; then optionally `e` or `E`, an optional sign and one or more digits. The contract is carried by `DigitStringIsNumber`, `NegatedDigitStringIsNumber`, `IntegerNumeralRoundTrip` and the examples below. |
| Parser.NumVal | src/scheme_interpreter/parser.py:40 | `float(token)`, also called at line 21, as the exact value of a numeric token. That value is the integer digits plus the fraction digits over a power of ten, times ten to the exponent, and negated for `-`. The contract is carried by `DigitStringIsNumber`, `NegatedDigitStringIsNumber` and `IntegerNumeralRoundTrip`. |
| Parser.IndexOfAny | src/scheme_interpreter/parser.py:21 | The first position holding one of the given characters, or the length when there is none. `IsNumber` uses it to find the decimal point and the exponent marker. |
| Parser.ParseNumber | src/scheme_interpreter/parser.py:27-42 | Succeeds exactly when the position is in range and the token is numeric. It then yields a number node with the token's value and the next position. Past the end it fails with end of input. On an in-range non-numeric token it fails with "expected number" naming that token. It never yields a symbol. |
| Parser.ParseSymbol | src/scheme_interpreter/parser.py:45-56 | Succeeds exactly when the position is in range, whatever the token (`(` and `)` included). It yields the symbol with the token's text and the next position. Otherwise it fails with end of input. |
| Parser.ParseExpression | src/scheme_interpreter/parser.py:59-75 | Succeeds exactly when the position is in range, and otherwise fails with end of input. On success it consumes one token and never yields a list node. The node is a number exactly when the token is numeric, and then carries the token's value. Otherwise it is the symbol with the token's verbatim text. |
| Parser.ParseExpressionIsLocal | src/scheme_interpreter/parser.py:59-75 | Two token lists holding the same token at the positions read give the same node. The result depends only on `tokens[position]`. |
| Parser.DigitStringIsNumber | src/scheme_interpreter/parser.py:19-24 | A non-empty string of digits is numeric, and its value is the decimal value of the digits. |
| Parser.NegatedDigitStringIsNumber | src/scheme_interpreter/parser.py:19-24 | `-` followed by digits is numeric, and its value is the negated value of the digits. |
| Parser.IntegerNumeralRoundTrip | src/scheme_interpreter/parser.py:40 | For every integer n, the decimal numeral of n is a numeric token whose value is n. |
| Parser.NegativeNumberExample | src/scheme_interpreter/parser.py:19-24 | `"-42"` is numeric with value -42. |
| Parser.DecimalNumberExample | src/scheme_interpreter/parser.py:19-24 | `"3.14"` is numeric with value 3.14. |
| Parser.ExponentNumberExample | src/scheme_interpreter/parser.py:19-24 | `"1.5e2"` is numeric with value 150. |
| Parser.SymbolExamples | src/scheme_interpreter/parser.py:72-75 | `-`, `.`, `(` and `)` are not numeric, so each parses as the symbol of that text, at the next position. |
| Parser.ParseSingleNumberTest | tests/test_parser.py:4-13 | `["42"]` at position 0 gives the number 42 and position 1. |
| FrontEnd.ParseTokenisedNumeral | src/scheme_interpreter/parser.py:72-73 | Tokenising the numeral of any integer n and parsing at 0 gives the number n and position 1. |
| FrontEnd.ParseTokenisedFortyTwo | tests/test_parser.py:4-13 | Parsing the tokens of `"42"` at 0 gives the number 42 and position 1. |
| FrontEnd.ParseTokenisedWord | src/scheme_interpreter/parser.py:53-56 | A non-numeric word without whitespace or parentheses tokenises to itself and parses to the symbol with that text. |
| FrontEnd.FirstExpressionFailsIffBlank | src/scheme_interpreter/parser.py:67-68 | Reading the first expression of a text fails exactly when the text is blank, and the failure is end of input. |

## Left out

- IsNumber: states less than `float()` accepts. Python also accepts `inf`, `infinity` and `nan` in any case and with a sign, underscores between digits, surrounding whitespace, and non-ASCII decimal digits (Unicode category Nd, such as `٤٢` or `４２`) in the mantissa and the exponent. The model parses such tokens as symbols.
- NumVal: gives the exact decimal value. It does not model IEEE double rounding, overflow to infinity (for example `1e400`) or negative zero.
- Negative positions are excluded by the type `nat`. In Python, a position from `-len(tokens)` to `-1` indexes from the end of the list. A position below `-len(tokens)` makes `tokens[position]` raise `IndexError`, not `ParseError`.
- Error messages are not modelled. The parser's two spellings, "Unexpected end of input" and "Unexpected end of the input", are the same `EndOfInput` reason.
- The token list is a Dafny sequence, so "parsing never modifies the token list" holds by construction and is not stated as a lemma.
- `list_node` is the constructor `Node.List`. No function produces it, because the source never calls `list_node`.
- `classes_example.py` prints text and has no logic to model, so it is not part of this model.
- Python strings may hold lone surrogate code points. Dafny characters are Unicode scalar values, so the model does not cover such strings.
