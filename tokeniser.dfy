/*
 * The tokeniser of the Scheme front end: pad every parenthesis with spaces,
 * strip the outer whitespace and split on whitespace runs.
 *
 * The source is one expression chaining three string operations, so the
 * model is three functions (Pad, Strip, Split) composed by Tokenise. Its
 * partner is Scan, an independent left-to-right scanner that treats
 * parentheses as one-character tokens; the contract of Tokenise says the two
 * are equal, and the properties of the token sequence are proved on Scan and
 * carried over to Tokenise.
 */
module Tokeniser {

  /** Python's str.isspace(): the characters str.strip() and str.split() treat as whitespace. */
  predicate IsSpace(c: char) {
    || c == ' '
    || ('\t' <= c <= '\r')           // tab, line feed, vertical tab, form feed, carriage return
    || ('\U{1C}' <= c <= '\U{1F}')   // file, group, record and unit separators
    || c == '\U{85}' || c == '\U{A0}' || c == '\U{1680}'
    || ('\U{2000}' <= c <= '\U{200A}')
    || c == '\U{2028}' || c == '\U{2029}' || c == '\U{202F}' || c == '\U{205F}' || c == '\U{3000}'
  }

  predicate IsParen(c: char) {
    c == '(' || c == ')'
  }

  predicate NoSpace(s: string) {
    forall i :: 0 <= i < |s| ==> !IsSpace(s[i])
  }

  predicate AllSpace(s: string) {
    forall i :: 0 <= i < |s| ==> IsSpace(s[i])
  }

  predicate NoParen(s: string) {
    forall i :: 0 <= i < |s| ==> !IsParen(s[i])
  }

  /** What a token may look like: non-empty, free of whitespace, and either a lone parenthesis or free of parentheses. */
  predicate WellFormedToken(t: string) {
    t != [] && NoSpace(t) && (t == "(" || t == ")" || NoParen(t))
  }

  // ---------------------------------------------------------------------------
  // The three string operations of the source, and their composition
  // ---------------------------------------------------------------------------

  /** str.replace with a one-character pattern: every occurrence of c becomes sub. */
  function Replace(s: string, c: char, sub: string): string {
    if s == [] then []
    else (if s[0] == c then sub else [s[0]]) + Replace(s[1..], c, sub)
  }

  /** The two replace calls: "(" becomes " ( ", then ")" becomes " ) ". */
  function Pad(s: string): string {
    Replace(Replace(s, '(', " ( "), ')', " ) ")
  }

  function PadChar(c: char): string {
    if c == '(' then " ( " else if c == ')' then " ) " else [c]
  }

  /** Each character padded on its own. */
  function PadEach(s: string): string {
    if s == [] then [] else PadChar(s[0]) + PadEach(s[1..])
  }

  /** str.lstrip(): drop the leading whitespace. */
  function StripStart(s: string): (r: string)
  {
    if s != [] && IsSpace(s[0]) then StripStart(s[1..]) else s
  }

  /** str.rstrip(): drop the trailing whitespace. */
  function StripEnd(s: string): (r: string)
  {
    if s != [] && IsSpace(s[|s| - 1]) then StripEnd(s[..|s| - 1]) else s
  }

  /** str.strip(). */
  function Strip(s: string): string {
    StripEnd(StripStart(s))
  }

  /** A pending word becomes a token only when it is not empty. */
  function Flush(word: string): seq<string> {
    if word == [] then [] else [word]
  }

  /**
   * str.split() with no separator: the maximal runs of non-whitespace
   * characters, in order. word holds the run read so far.
   */
  function SplitWords(s: string, word: string): seq<string>
    decreases |s|
  {
    if s == [] then Flush(word)
    else if IsSpace(s[0]) then Flush(word) + SplitWords(s[1..], [])
    else SplitWords(s[1..], word + [s[0]])
  }

  /** str.split() with no separator. */
  function Split(s: string): seq<string> {
    SplitWords(s, [])
  }

  /**
   * tokenise: the empty input returns early; any other input is padded,
   * stripped and split. The result is exactly the scanner's.
   */
  function Tokenise(input: string): (tokens: seq<string>)
    ensures tokens == Scan(input)
  {
    SplitStrip(Pad(input));
    SplitPad(input, []);
    if input == [] then [] else Split(Strip(Pad(input)))
  }

  // ---------------------------------------------------------------------------
  // The reference scanner
  // ---------------------------------------------------------------------------

  /** Whitespace ends the pending word; a parenthesis ends it and is a token of its own; anything else extends it. */
  function ScanFrom(s: string, word: string): seq<string>
    decreases |s|
  {
    if s == [] then Flush(word)
    else if IsSpace(s[0]) then Flush(word) + ScanFrom(s[1..], [])
    else if IsParen(s[0]) then Flush(word) + [[s[0]]] + ScanFrom(s[1..], [])
    else ScanFrom(s[1..], word + [s[0]])
  }

  function Scan(s: string): seq<string> {
    ScanFrom(s, [])
  }

  /** The tokens a delimiter contributes by itself. */
  function Delimiter(c: char): seq<string> {
    if IsParen(c) then [[c]] else []
  }

  /** The input's characters without its whitespace. */
  function RemoveSpace(s: string): string {
    if s == [] then []
    else (if IsSpace(s[0]) then [] else [s[0]]) + RemoveSpace(s[1..])
  }

  /** The tokens joined end to end. */
  function Concat(tokens: seq<string>): string {
    if tokens == [] then [] else tokens[0] + Concat(tokens[1..])
  }

  /** The input's parentheses, in order, each as a one-character string. */
  function ParenChars(s: string): seq<string> {
    if s == [] then []
    else (if IsParen(s[0]) then [[s[0]]] else []) + ParenChars(s[1..])
  }

  /** The tokens that are a lone parenthesis, in order. */
  function ParenTokens(tokens: seq<string>): seq<string> {
    if tokens == [] then []
    else (if tokens[0] == "(" || tokens[0] == ")" then [tokens[0]] else []) + ParenTokens(tokens[1..])
  }

  // ---------------------------------------------------------------------------
  // The composition of the string operations equals the scanner
  // ---------------------------------------------------------------------------

  lemma {:induction false} ReplaceAppend(a: string, b: string, c: char, sub: string)
    ensures Replace(a + b, c, sub) == Replace(a, c, sub) + Replace(b, c, sub)
  {
    if a == [] {
      assert a + b == b;
    } else {
      assert (a + b)[0] == a[0];
      assert (a + b)[1..] == a[1..] + b;
      ReplaceAppend(a[1..], b, c, sub);
    }
  }

  /** The second replace leaves the first one's output for "(" alone, so padding works character by character. */
  lemma {:induction false} PadIsPadEach(s: string)
    ensures Pad(s) == PadEach(s)
  {
    if s != [] {
      var first := if s[0] == '(' then " ( " else [s[0]];
      assert Replace(s, '(', " ( ") == first + Replace(s[1..], '(', " ( ");
      ReplaceAppend(first, Replace(s[1..], '(', " ( "), ')', " ) ");
      if s[0] == '(' {
        assert Replace(" ( ", ')', " ) ") == " ( " by {
          assert " ( "[1..] == "( ";
          assert "( "[1..] == " ";
          assert " "[1..] == [];
        }
      } else {
        assert [s[0]][1..] == [];
      }
      PadIsPadEach(s[1..]);
    }
  }

  lemma {:induction false} RemoveSpaceAppend(a: string, b: string)
    ensures RemoveSpace(a + b) == RemoveSpace(a) + RemoveSpace(b)
  {
    if a == [] {
      assert a + b == b;
    } else {
      assert (a + b)[0] == a[0];
      assert (a + b)[1..] == a[1..] + b;
      RemoveSpaceAppend(a[1..], b);
    }
  }

  /**
   * str.strip() removes a whitespace prefix and a whitespace suffix and
   * leaves no whitespace at either end.
   */
  lemma StripSpec(s: string)
    ensures Strip(s) == [] || (!IsSpace(Strip(s)[0]) && !IsSpace(Strip(s)[|Strip(s)| - 1]))
    ensures exists k :: 0 <= k <= |s| - |Strip(s)| && Strip(s) == s[k..k + |Strip(s)|] && AllSpace(s[..k]) && AllSpace(s[k + |Strip(s)|..])
  {
    var t := StripStart(s);
    StripStartSpec(s);
    StripEndSpec(t);
    var r := StripEnd(t);
    var k := |s| - |t|;
    assert r == s[k..k + |r|];
    assert s[k + |r|..] == t[|r|..];
  }

  /** Stripping before splitting changes nothing: split already ignores outer whitespace. */
  lemma SplitStrip(s: string)
    ensures Split(Strip(s)) == Split(s)
  {
    SplitStripEnd(StripStart(s));
    SplitStripStart(s);
  }

  /** str.split() gives non-empty words without whitespace that, joined, are the input without its whitespace. */
  lemma SplitSpec(s: string)
    ensures forall i :: 0 <= i < |Split(s)| ==> Split(s)[i] != [] && NoSpace(Split(s)[i])
    ensures Concat(Split(s)) == RemoveSpace(s)
  {
    SplitWordsAreWords(s, []);
    SplitWordsConcat(s, []);
  }

  /** Padding adds only whitespace: without whitespace, the padded text is the input. */
  lemma PadKeepsText(s: string)
    ensures RemoveSpace(Pad(s)) == RemoveSpace(s)
  {
    PadIsPadEach(s);
    PadEachKeepsText(s);
  }

  lemma {:induction false} PadEachKeepsText(s: string)
    ensures RemoveSpace(PadEach(s)) == RemoveSpace(s)
  {
    if s != [] {
      var c := s[0];
      RemoveSpaceAppend(PadChar(c), PadEach(s[1..]));
      PadEachKeepsText(s[1..]);
      if IsParen(c) {
        var p := PadChar(c);
        assert p == [' '] + [c] + [' '];
        RemoveSpaceAppend([' '] + [c], [' ']);
        RemoveSpaceAppend([' '], [c]);
        assert RemoveSpace([' ']) == [] && RemoveSpace([c]) == [c];
      }
    }
  }

  lemma {:induction false} SplitWordsAreWords(s: string, word: string)
    requires NoSpace(word)
    ensures forall i :: 0 <= i < |SplitWords(s, word)| ==> SplitWords(s, word)[i] != [] && NoSpace(SplitWords(s, word)[i])
    decreases |s|
  {
    if s != [] {
      if IsSpace(s[0]) {
        SplitWordsAreWords(s[1..], []);
      } else {
        SplitWordsAreWords(s[1..], word + [s[0]]);
      }
    }
  }

  lemma {:induction false} SplitWordsConcat(s: string, word: string)
    ensures Concat(SplitWords(s, word)) == word + RemoveSpace(s)
    decreases |s|
  {
    if s == [] {
      ConcatFlush(word, []);
    } else if IsSpace(s[0]) {
      SplitWordsConcat(s[1..], []);
      ConcatFlush(word, SplitWords(s[1..], []));
    } else {
      SplitWordsConcat(s[1..], word + [s[0]]);
    }
  }

  /** A run without whitespace stays one word: it joins the pending word and is never cut. */
  lemma {:induction false} SplitWordsNoSpace(s: string, word: string)
    requires NoSpace(s)
    ensures SplitWords(s, word) == Flush(word + s)
    decreases |s|
  {
    if s == [] {
      assert word + s == word;
    } else {
      assert word + s == (word + [s[0]]) + s[1..];
      SplitWordsNoSpace(s[1..], word + [s[0]]);
    }
  }

  /** Whitespace splits the input into two independently split halves. */
  lemma {:induction false} SplitWordsAtSpace(a: string, c: char, b: string, word: string)
    requires IsSpace(c)
    ensures SplitWords(a + [c] + b, word) == SplitWords(a, word) + Split(b)
  {
    if a == [] {
      assert a + [c] + b == [c] + b;
      assert ([c] + b)[1..] == b;
    } else {
      assert (a + [c] + b)[0] == a[0];
      assert (a + [c] + b)[1..] == a[1..] + [c] + b;
      if IsSpace(a[0]) {
        SplitWordsAtSpace(a[1..], c, b, []);
      } else {
        SplitWordsAtSpace(a[1..], c, b, word + [a[0]]);
      }
    }
  }

  lemma {:induction false} SplitStripStart(s: string)
    ensures Split(StripStart(s)) == Split(s)
  {
    if s != [] && IsSpace(s[0]) {
      SplitStripStart(s[1..]);
    }
  }

  lemma {:induction false} SplitStripEnd(s: string)
    ensures Split(StripEnd(s)) == Split(s)
  {
    if s != [] && IsSpace(s[|s| - 1]) {
      var init := s[..|s| - 1];
      assert s == init + [s[|s| - 1]] + [];
      SplitWordsAtSpace(init, s[|s| - 1], [], []);
      SplitStripEnd(init);
    }
  }

  /** lstrip removes a whitespace prefix and leaves a string that does not start with whitespace. */
  lemma {:induction false} StripStartSpec(s: string)
    ensures |StripStart(s)| <= |s| && StripStart(s) == s[|s| - |StripStart(s)|..]
    ensures AllSpace(s[..|s| - |StripStart(s)|])
    ensures StripStart(s) == [] || !IsSpace(StripStart(s)[0])
  {
    if s != [] && IsSpace(s[0]) {
      StripStartSpec(s[1..]);
      var k := |s| - |StripStart(s)|;
      assert forall i :: 1 <= i < k ==> s[..k][i] == s[1..][..k - 1][i - 1];
    }
  }

  /** rstrip removes a whitespace suffix and leaves a string that does not end with whitespace. */
  lemma {:induction false} StripEndSpec(s: string)
    ensures |StripEnd(s)| <= |s| && StripEnd(s) == s[..|StripEnd(s)|]
    ensures AllSpace(s[|StripEnd(s)|..])
    ensures StripEnd(s) == [] || !IsSpace(StripEnd(s)[|StripEnd(s)| - 1])
  {
    if s != [] && IsSpace(s[|s| - 1]) {
      StripEndSpec(s[..|s| - 1]);
      var k := |StripEnd(s)|;
      assert forall j :: 0 <= j < |s| - 1 - k ==> s[k..][j] == s[..|s| - 1][k..][j];
    }
  }

  /** A padded parenthesis ends the pending word and is a word of its own. */
  lemma SplitPaddedParen(c: char, rest: string, word: string)
    requires IsParen(c)
    ensures SplitWords(PadChar(c) + rest, word) == Flush(word) + [[c]] + Split(rest)
  {
    assert PadChar(c) + rest == [] + [' '] + ([c] + [' '] + rest);
    SplitWordsAtSpace([], ' ', [c] + [' '] + rest, word);
    SplitWordsAtSpace([c], ' ', rest, []);
    assert SplitWords([c], []) == [[c]] by {
      assert [c][1..] == [];
      assert [] + [c] == [c];
    }
  }

  lemma {:induction false} SplitPad(s: string, word: string)
    ensures SplitWords(Pad(s), word) == ScanFrom(s, word)
    decreases |s|
  {
    if s == [] {
      assert Pad(s) == [];
    } else {
      PadIsPadEach(s);
      PadIsPadEach(s[1..]);
      var rest := Pad(s[1..]);
      var c := s[0];
      SplitPad(s[1..], []);
      if IsSpace(c) {
        assert Pad(s) == [] + [c] + rest;
        SplitWordsAtSpace([], c, rest, word);
      } else if IsParen(c) {
        SplitPaddedParen(c, rest, word);
      } else {
        assert Pad(s) == [c] + rest;
        assert ([c] + rest)[1..] == rest;
        SplitPad(s[1..], word + [c]);
      }
    }
  }

  // ---------------------------------------------------------------------------
  // Properties of the scanner
  // ---------------------------------------------------------------------------

  lemma {:induction false} ScanWellFormed(s: string, word: string)
    requires NoSpace(word) && NoParen(word)
    ensures forall i :: 0 <= i < |ScanFrom(s, word)| ==> WellFormedToken(ScanFrom(s, word)[i])
    decreases |s|
  {
    if s != [] {
      if IsSpace(s[0]) || IsParen(s[0]) {
        ScanWellFormed(s[1..], []);
      } else {
        ScanWellFormed(s[1..], word + [s[0]]);
      }
    }
  }

  lemma {:induction false} ConcatAppend(a: seq<string>, b: seq<string>)
    ensures Concat(a + b) == Concat(a) + Concat(b)
  {
    if a == [] {
      assert a + b == b;
    } else {
      assert (a + b)[0] == a[0];
      assert (a + b)[1..] == a[1..] + b;
      ConcatAppend(a[1..], b);
    }
  }

  lemma ConcatFlush(word: string, rest: seq<string>)
    ensures Concat(Flush(word) + rest) == word + Concat(rest)
  {
    if word == [] {
      assert Flush(word) + rest == rest;
    } else {
      assert (Flush(word) + rest)[1..] == rest;
    }
  }

  /** One step of ScanConcat at a whitespace character. */
  lemma ScanConcatSpace(s: string, word: string)
    requires s != [] && IsSpace(s[0])
    requires Concat(ScanFrom(s[1..], [])) == RemoveSpace(s[1..])
    ensures Concat(ScanFrom(s, word)) == word + RemoveSpace(s)
  {
    assert ScanFrom(s, word) == Flush(word) + ScanFrom(s[1..], []);
    assert RemoveSpace(s) == RemoveSpace(s[1..]);
    ConcatFlush(word, ScanFrom(s[1..], []));
  }

  /** One step of ScanConcat at a parenthesis. */
  lemma ScanConcatParen(s: string, word: string)
    requires s != [] && !IsSpace(s[0]) && IsParen(s[0])
    requires Concat(ScanFrom(s[1..], [])) == RemoveSpace(s[1..])
    ensures Concat(ScanFrom(s, word)) == word + RemoveSpace(s)
  {
    var c, rest := s[0], ScanFrom(s[1..], []);
    assert ScanFrom(s, word) == Flush(word) + ([[c]] + rest);
    assert RemoveSpace(s) == [c] + RemoveSpace(s[1..]);
    assert ([[c]] + rest)[1..] == rest;
    ConcatFlush(word, [[c]] + rest);
  }

  // The next three lemmas restate one unfolding step or associativity; they
  // are separate only to keep ScanConcatOther's proof small for the solver.

  /** An ordinary character extends the pending word. */
  lemma ScanFromOther(s: string, word: string)
    requires s != [] && !IsSpace(s[0]) && !IsParen(s[0])
    ensures ScanFrom(s, word) == ScanFrom(s[1..], word + [s[0]])
  {
  }

  lemma RemoveSpaceOther(s: string)
    requires s != [] && !IsSpace(s[0])
    ensures RemoveSpace(s) == [s[0]] + RemoveSpace(s[1..])
  {
  }

  lemma AppendAssoc(a: string, b: string, c: string)
    ensures a + b + c == a + (b + c)
  {
  }

  /** One step of ScanConcat at any other character. */
  lemma ScanConcatOther(s: string, word: string)
    requires s != [] && !IsSpace(s[0]) && !IsParen(s[0])
    requires Concat(ScanFrom(s[1..], word + [s[0]])) == word + [s[0]] + RemoveSpace(s[1..])
    ensures Concat(ScanFrom(s, word)) == word + RemoveSpace(s)
  {
    ScanFromOther(s, word);
    RemoveSpaceOther(s);
    AppendAssoc(word, [s[0]], RemoveSpace(s[1..]));
  }

  lemma {:induction false} ScanConcat(s: string, word: string)
    ensures Concat(ScanFrom(s, word)) == word + RemoveSpace(s)
    decreases |s|
  {
    if s == [] {
      ConcatFlush(word, []);
    } else if IsSpace(s[0]) {
      ScanConcat(s[1..], []);
      ScanConcatSpace(s, word);
    } else if IsParen(s[0]) {
      ScanConcat(s[1..], []);
      ScanConcatParen(s, word);
    } else {
      ScanConcat(s[1..], word + [s[0]]);
      ScanConcatOther(s, word);
    }
  }

  lemma {:induction false} ParenTokensAppend(a: seq<string>, b: seq<string>)
    ensures ParenTokens(a + b) == ParenTokens(a) + ParenTokens(b)
  {
    if a == [] {
      assert a + b == b;
    } else {
      var head := if a[0] == "(" || a[0] == ")" then [a[0]] else [];
      assert (a + b)[0] == a[0];
      assert (a + b)[1..] == a[1..] + b;
      assert ParenTokens(a + b) == head + ParenTokens(a[1..] + b);
      assert ParenTokens(a) == head + ParenTokens(a[1..]);
      ParenTokensAppend(a[1..], b);
    }
  }

  lemma {:induction false} ScanParens(s: string, word: string)
    requires NoParen(word)
    ensures ParenTokens(ScanFrom(s, word)) == ParenChars(s)
    decreases |s|
  {
    assert ParenTokens(Flush(word)) == [] by {
      if word != [] {
        assert word != "(" && word != ")" by { assert !IsParen(word[0]); }
      }
    }
    if s != [] {
      var c := s[0];
      if IsSpace(c) {
        ScanParens(s[1..], []);
        ParenTokensAppend(Flush(word), ScanFrom(s[1..], []));
      } else if IsParen(c) {
        ScanParens(s[1..], []);
        ParenTokensAppend(Flush(word) + [[c]], ScanFrom(s[1..], []));
        ParenTokensAppend(Flush(word), [[c]]);
      } else {
        ScanParens(s[1..], word + [c]);
      }
    }
  }

  lemma {:induction false} ScanAllSpace(ws: string, word: string)
    requires AllSpace(ws)
    ensures ScanFrom(ws, word) == Flush(word)
    decreases |ws|
  {
    if ws != [] {
      ScanAllSpace(ws[1..], []);
    }
  }

  lemma {:induction false} ScanTrailingSpace(s: string, ws: string, word: string)
    requires AllSpace(ws)
    ensures ScanFrom(s + ws, word) == ScanFrom(s, word)
    decreases |s|
  {
    if s == [] {
      assert s + ws == ws;
      ScanAllSpace(ws, word);
    } else {
      assert (s + ws)[0] == s[0];
      assert (s + ws)[1..] == s[1..] + ws;
      if IsSpace(s[0]) || IsParen(s[0]) {
        ScanTrailingSpace(s[1..], ws, []);
      } else {
        ScanTrailingSpace(s[1..], ws, word + [s[0]]);
      }
    }
  }

  lemma {:induction false} ScanLeadingSpace(ws: string, s: string)
    requires AllSpace(ws)
    ensures Scan(ws + s) == Scan(s)
    decreases |ws|
  {
    if ws != [] {
      assert (ws + s)[0] == ws[0];
      assert (ws + s)[1..] == ws[1..] + s;
      assert Scan(ws + s) == Flush([]) + Scan(ws[1..] + s);
      assert Flush([]) == [];
      ScanLeadingSpace(ws[1..], s);
    } else {
      assert ws + s == s;
    }
  }

  /** A whitespace character or a parenthesis cuts the scan in two. */
  lemma {:induction false} ScanAtDelimiter(a: string, c: char, b: string, word: string)
    requires IsSpace(c) || IsParen(c)
    ensures ScanFrom(a + [c] + b, word) == ScanFrom(a, word) + Delimiter(c) + Scan(b)
    decreases |a|
  {
    if a == [] {
      assert a + [c] + b == [c] + b;
      assert ([c] + b)[1..] == b;
    } else {
      var s := a + [c] + b;
      assert s[0] == a[0];
      assert s[1..] == a[1..] + [c] + b;
      if IsSpace(a[0]) || IsParen(a[0]) {
        var head := Flush(word) + Delimiter(a[0]);
        assert ScanFrom(s, word) == head + ScanFrom(s[1..], []);
        assert ScanFrom(a, word) == head + ScanFrom(a[1..], []);
        ScanAtDelimiter(a[1..], c, b, []);
        SeqAppendAssoc(head, ScanFrom(a[1..], []) + Delimiter(c), Scan(b));
        SeqAppendAssoc(head, ScanFrom(a[1..], []), Delimiter(c));
      } else {
        assert ScanFrom(s, word) == ScanFrom(s[1..], word + [a[0]]);
        assert ScanFrom(a, word) == ScanFrom(a[1..], word + [a[0]]);
        ScanAtDelimiter(a[1..], c, b, word + [a[0]]);
      }
    }
  }

  // Associativity of token-sequence concatenation, separate only to keep
  // ScanAtDelimiter's proof small for the solver.
  lemma SeqAppendAssoc(a: seq<string>, b: seq<string>, c: seq<string>)
    ensures a + (b + c) == a + b + c
  {
  }

  lemma {:induction false} ScanWord(s: string, word: string)
    requires NoSpace(s) && NoParen(s)
    ensures ScanFrom(s, word) == Flush(word + s)
    decreases |s|
  {
    if s == [] {
      assert word + s == word;
    } else {
      assert word + s == (word + [s[0]]) + s[1..];
      ScanWord(s[1..], word + [s[0]]);
    }
  }

  lemma {:induction false} RemoveSpaceEmpty(s: string)
    ensures RemoveSpace(s) == [] <==> AllSpace(s)
  {
    if s != [] {
      RemoveSpaceEmpty(s[1..]);
      if IsSpace(s[0]) && AllSpace(s[1..]) {
        assert forall i :: 1 <= i < |s| ==> s[i] == s[1..][i - 1];
      }
    }
  }

  // ---------------------------------------------------------------------------
  // Properties of tokenise
  // ---------------------------------------------------------------------------

  /** No token is empty or holds whitespace, and every token is a lone parenthesis or holds none. */
  lemma TokensWellFormed(input: string)
    ensures forall i :: 0 <= i < |Tokenise(input)| ==> WellFormedToken(Tokenise(input)[i])
  {
    ScanWellFormed(input, []);
  }

  /** Joining the tokens gives back the input without its whitespace: nothing is dropped or reordered. */
  lemma TokensKeepText(input: string)
    ensures Concat(Tokenise(input)) == RemoveSpace(input)
  {
    ScanConcat(input, []);
  }

  lemma {:induction false} ParenCharsCount(s: string)
    ensures |ParenChars(s)| == multiset(s)['('] + multiset(s)[')']
  {
    if s != [] {
      assert s == [s[0]] + s[1..];
      assert multiset(s) == multiset{s[0]} + multiset(s[1..]);
      ParenCharsCount(s[1..]);
    }
  }

  /** The lone-parenthesis tokens are exactly the input's parentheses, in order (so their numbers agree). */
  lemma TokensKeepParens(input: string)
    ensures ParenTokens(Tokenise(input)) == ParenChars(input)
    ensures |ParenTokens(Tokenise(input))| == multiset(input)['('] + multiset(input)[')']
  {
    ParenCharsCount(input);
    ScanParens(input, []);
  }

  /** A whitespace character separates, and a parenthesis separates and is a token itself, whatever surrounds it. */
  lemma TokeniseAtDelimiter(a: string, c: char, b: string)
    requires IsSpace(c) || IsParen(c)
    ensures IsSpace(c) ==> Tokenise(a + [c] + b) == Tokenise(a) + Tokenise(b)
    ensures IsParen(c) ==> Tokenise(a + [c] + b) == Tokenise(a) + [[c]] + Tokenise(b)
  {
    ScanAtDelimiter(a, c, b, []);
    assert Tokenise(a + [c] + b) == Scan(a) + Delimiter(c) + Scan(b);
    assert Tokenise(a) == Scan(a) && Tokenise(b) == Scan(b);
  }

  /** Leading and trailing whitespace do not change the tokens. */
  lemma TokeniseIgnoresOuterSpace(before: string, s: string, after: string)
    requires AllSpace(before) && AllSpace(after)
    ensures Tokenise(before + s + after) == Tokenise(s)
  {
    assert before + s + after == before + (s + after);
    ScanLeadingSpace(before, s + after);
    ScanTrailingSpace(s, after, []);
  }

  /** The input yields no token exactly when it is empty or all whitespace. */
  lemma TokeniseEmptyIff(input: string)
    ensures Tokenise(input) == [] <==> AllSpace(input)
  {
    TokensKeepText(input);
    RemoveSpaceEmpty(input);
    if AllSpace(input) {
      TokeniseIgnoresOuterSpace(input, [], []);
      assert input + [] + [] == input;
    }
  }

  /** A non-empty input without whitespace or parentheses is one token, itself. */
  lemma TokeniseWord(input: string)
    requires input != [] && NoSpace(input) && NoParen(input)
    ensures Tokenise(input) == [input]
  {
    ScanWord(input, []);
    assert [] + input == input;
  }

  /** The source's tests: "123" and "42" are single tokens, and the trailing space of "42 " is dropped. */
  lemma TokeniseTestCases()
    ensures Tokenise("123") == ["123"]
    ensures Tokenise("42") == ["42"]
    ensures Tokenise("42 ") == ["42"]
  {
    TokeniseWord("123");
    TokeniseWord("42");
    TokeniseIgnoresOuterSpace([], "42", " ");
    assert [] + "42" + " " == "42 ";
  }

  /** Parentheses need no surrounding space: "()" is two tokens. */
  lemma TokeniseEmptyList()
    ensures Tokenise("()") == ["(", ")"]
  {
    TokeniseAtDelimiter([], '(', ")");
    assert [] + ['('] + ")" == "()";
    TokeniseAtDelimiter([], ')', []);
    assert [] + [')'] + [] == ")";
  }
}
