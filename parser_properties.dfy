/** What the parser promises, proved about the functions of ParserSpec and
    therefore about the methods of Parser, which compute them. */
module ParserProperties {
  import opened Utf16
  import opened JsonModel
  import opened ParserSpec

  /** j is the first non-whitespace position at or after i. */
  ghost predicate FirstNonWhitespace(s: seq<CodeUnit>, i: nat, j: nat) {
    i <= j < |s| && !IsWhitespace(s[j]) && AllWhitespace(s[i..j])
  }

  /** Every code unit of t is whitespace. */
  ghost predicate AllWhitespace(t: seq<CodeUnit>) {
    forall k | 0 <= k < |t| :: IsWhitespace(t[k])
  }

  /** Everything from i to the end is whitespace. */
  ghost predicate OnlyWhitespace(s: seq<CodeUnit>, i: nat) {
    forall k | i <= k < |s| :: IsWhitespace(s[k])
  }

  /** Value reads vs[i] at starts[i], ending at ends[i]. */
  ghost predicate ReadsValueAt(s: seq<CodeUnit>, vs: seq<Json>, starts: seq<nat>, ends: seq<nat>, i: nat) {
    i < |vs| && i < |starts| && i < |ends| && ReadsValue(s, starts[i], vs[i], ends[i])
  }

  /** The values Value reads at starts[i], ending at ends[i], are vs[i]. */
  ghost predicate ReadsValues(s: seq<CodeUnit>, vs: seq<Json>, starts: seq<nat>, ends: seq<nat>) {
    |starts| == |vs| && |ends| == |vs| &&
    (forall i | 0 <= i < |vs| :: starts[i] <= |s|) &&
    (forall i | 0 <= i < |vs| :: ReadsValueAt(s, vs, starts, ends, i))
  }

  /** After the value ending at ends[i], the first non-whitespace code unit,
      at seps[i], is ',' or, after the last value, ']'. */
  ghost predicate SeparatorAt(s: seq<CodeUnit>, ends: seq<nat>, seps: seq<nat>, i: nat) {
    i < |ends| && i < |seps| && FirstNonWhitespace(s, ends[i], seps[i]) &&
    s[seps[i]] == if i < |ends| - 1 then Comma else RightBracket
  }

  /** After the ',' at seps[i], the next value starts at the first
      non-whitespace code unit. */
  ghost predicate GapAt(s: seq<CodeUnit>, starts: seq<nat>, seps: seq<nat>, i: nat) {
    i + 1 < |starts| && i < |seps| && FirstNonWhitespace(s, seps[i] + 1, starts[i + 1])
  }

  /** The text between values: ',' and whitespace between consecutive
      values, and ']' after the last one. */
  ghost predicate Separated(s: seq<CodeUnit>, starts: seq<nat>, ends: seq<nat>, seps: seq<nat>) {
    |starts| > 0 && |ends| == |starts| && |seps| == |starts| &&
    (forall i | 0 <= i < |ends| :: SeparatorAt(s, ends, seps, i)) &&
    (forall i | 0 <= i < |seps| - 1 :: GapAt(s, starts, seps, i))
  }

  /** Where the elements of an array lie. */
  ghost predicate ElementLayout(s: seq<CodeUnit>, vs: seq<Json>, starts: seq<nat>, ends: seq<nat>, seps: seq<nat>) {
    ReadsValues(s, vs, starts, ends) && Separated(s, starts, ends, seps)
  }

  /** A non-empty array: '[' at pos, whitespace, then the elements. */
  ghost predicate ArrayLayout(s: seq<CodeUnit>, pos: nat, vs: seq<Json>, starts: seq<nat>, ends: seq<nat>, seps: seq<nat>) {
    pos < |s| && ElementLayout(s, vs, starts, ends, seps) &&
    FirstNonWhitespace(s, pos + 1, starts[0]) && s[starts[0]] != RightBracket
  }

  /** Appending element i and then the rest appends all from i. */
  lemma AppendAt<T>(acc: seq<T>, vs: seq<T>, i: nat)
    requires i < |vs|
    ensures acc + [vs[i]] + vs[i + 1..] == acc + vs[i..]
    ensures i == 0 ==> acc + vs[i..] == acc + vs
    ensures i == |vs| - 1 ==> acc + vs[i..] == acc + [vs[i]]
  {
    assert [vs[i]] + vs[i + 1..] == vs[i..];
  }

  // ---------------------------------------------------------------- cursor

  /** SkipWhitespace stops exactly at the first code unit that is not space,
      LF, CR or tab. */
  lemma {:induction false} SkipWhitespaceStopsAtFirstNonWhitespace(s: seq<CodeUnit>, pos: nat, q: nat)
    requires pos <= |s|
    ensures SkipWhitespaceAt(s, pos) == Next((), q) <==> FirstNonWhitespace(s, pos, q)
    decreases |s| - pos
  {
    if pos < |s| && IsWhitespace(s[pos]) {
      SkipWhitespaceStopsAtFirstNonWhitespace(s, pos + 1, q);
      if pos < q <= |s| {
        assert s[pos..q] == [s[pos]] + s[pos + 1..q];
      }
    }
  }

  /** The two directions of SkipWhitespaceStopsAtFirstNonWhitespace, one at a time. */
  lemma SkipsToFirstNonWhitespace(s: seq<CodeUnit>, i: nat, j: nat)
    requires i <= |s| && FirstNonWhitespace(s, i, j)
    ensures SkipWhitespaceAt(s, i) == Next((), j)
  {
    SkipWhitespaceStopsAtFirstNonWhitespace(s, i, j);
  }

  lemma SkippedToFirstNonWhitespace(s: seq<CodeUnit>, i: nat)
    requires i <= |s| && SkipWhitespaceAt(s, i).Next?
    ensures SkipWhitespaceAt(s, i) == Next((), SkipWhitespaceAt(s, i).pos)
    ensures FirstNonWhitespace(s, i, SkipWhitespaceAt(s, i).pos)
  {
    UnitStep(SkipWhitespaceAt(s, i));
    SkipWhitespaceStopsAtFirstNonWhitespace(s, i, SkipWhitespaceAt(s, i).pos);
  }

  /** SkipWhitespace throws exactly when only whitespace is left. */
  lemma {:induction false} SkipWhitespaceFailsOnWhitespaceTail(s: seq<CodeUnit>, pos: nat)
    requires pos <= |s|
    ensures SkipWhitespaceAt(s, pos) == Halt(OutOfRange) <==> OnlyWhitespace(s, pos)
    decreases |s| - pos
  {
    if pos < |s| && IsWhitespace(s[pos]) {
      SkipWhitespaceFailsOnWhitespaceTail(s, pos + 1);
    }
  }

  lemma {:induction false} MatchLettersClosedForm(s: seq<CodeUnit>, start: nat, word: seq<CodeUnit>, i: nat)
    requires i <= |word| && start + i <= |s| && s[start..start + i] == word[..i]
    ensures MatchLettersAt(s, start, word, i) ==
      if word <= s[start..] then Next(true, start + |word|)
      else if s[start..] < word then Halt(OutOfRange)
      else Next(false, start)
    decreases |word| - i
  {
    var rest := s[start..];
    if i == |word| {
      assert rest[..|word|] == s[start..start + |word|];
    } else if start + i == |s| {
      assert rest == word[..i];
    } else if s[start + i] != word[i] {
      assert rest[i] != word[i];
    } else {
      assert s[start..start + i + 1] == word[..i + 1] by {
        assert s[start..start + i + 1] == s[start..start + i] + [s[start + i]];
        assert word[..i + 1] == word[..i] + [word[i]];
      }
      MatchLettersClosedForm(s, start, word, i + 1);
    }
  }

  /** MatchWord succeeds, moving the cursor by |word|, exactly when the input
      continues with word; it throws when the input ends inside a partial
      match; otherwise it fails and the cursor is back where it started. */
  lemma MatchWordRollsBack(s: seq<CodeUnit>, start: nat, word: seq<CodeUnit>)
    requires start <= |s|
    ensures MatchWordAt(s, start, word) ==
      if word <= s[start..] then Next(true, start + |word|)
      else if s[start..] < word then Halt(OutOfRange)
      else Next(false, start)
  {
    MatchLettersClosedForm(s, start, word, 0);
  }

  /** Literal recognises each keyword exactly when the input continues with
      it; it throws when the input ends within a prefix of a keyword; and it
      returns InvalidLiteral, with the cursor unchanged, in every other case. */
  lemma LiteralCharacterized(s: seq<CodeUnit>, pos: nat)
    requires pos <= |s|
    ensures LiteralAt(s, pos) == Next(TrueLiteral, pos + 4) <==> TrueWord <= s[pos..]
    ensures LiteralAt(s, pos) == Next(FalseLiteral, pos + 5) <==> FalseWord <= s[pos..]
    ensures LiteralAt(s, pos) == Next(NullLiteral, pos + 4) <==> NullWord <= s[pos..]
    ensures LiteralAt(s, pos) == Halt(OutOfRange) <==>
      s[pos..] < TrueWord || s[pos..] < FalseWord || s[pos..] < NullWord
    ensures LiteralAt(s, pos) == Next(InvalidLiteral, pos) <==> !StartsKeyword(s[pos..])
  {
    var rest := s[pos..];
    MatchWordRollsBack(s, pos, TrueWord);
    MatchWordRollsBack(s, pos, FalseWord);
    MatchWordRollsBack(s, pos, NullWord);
    if rest != [] {
      assert TrueWord <= rest ==> rest[0] == LetterT;
      assert rest < TrueWord ==> rest[0] == LetterT;
      assert FalseWord <= rest ==> rest[0] == LetterF;
      assert rest < FalseWord ==> rest[0] == LetterF;
      assert NullWord <= rest ==> rest[0] == LetterN;
      assert rest < NullWord ==> rest[0] == LetterN;
    }
  }

  /** The input starts with a keyword, or ends within a prefix of one. */
  ghost predicate StartsKeyword(rest: seq<CodeUnit>) {
    TrueWord <= rest || FalseWord <= rest || NullWord <= rest ||
    rest < TrueWord || rest < FalseWord || rest < NullWord
  }

  /** A code unit that does not start an object, array, string or number and
      does not begin a keyword is reported as an unexpected token naming it. */
  lemma ValueRejectsUnexpectedToken(s: seq<CodeUnit>, pos: nat)
    requires pos < |s|
    requires s[pos] != LeftBrace && s[pos] != LeftBracket && s[pos] != Quote
    requires !IsAsciiDigit(s[pos]) && s[pos] != Minus
    ensures ValueAt(s, pos) == Halt(ParseError(UnexpectedToken(s[pos]))) <==> !StartsKeyword(s[pos..])
  {
    var literal := LiteralAt(s, pos);
    assert ValueAt(s, pos) == LiteralValue(literal, s[pos]);
    LiteralValueInvalid(literal, s[pos], pos);
    LiteralCharacterized(s, pos);
  }

  /** ParseAny reads its value at the first code unit from the cursor that
      is not whitespace, and returns what Value returns there. */
  lemma ParseAnyReadsFirstValue(s: seq<CodeUnit>, start: nat, p: nat)
    requires start <= |s| && FirstNonWhitespace(s, start, p)
    ensures ParseAnyAt(s, start) == ValueAt(s, p)
  {
    SkipsToFirstNonWhitespace(s, start, p);
  }

  /** With only whitespace left, ParseAny reads past the end and throws. */
  lemma ParseAnyOnWhitespaceOnly(s: seq<CodeUnit>, start: nat)
    requires start <= |s| && OnlyWhitespace(s, start)
    ensures ParseAnyAt(s, start) == Halt(OutOfRange)
  {
    SkipWhitespaceFailsOnWhitespaceTail(s, start);
  }

  lemma LiteralValueInvalid(l: Step<LiteralType>, next: CodeUnit, pos: nat)
    requires l.Next? ==> l.pos == pos + |Keyword(l.value)|
    requires l.Halt? ==> l.fault == OutOfRange
    ensures LiteralValue(l, next) == Halt(ParseError(UnexpectedToken(next))) <==> l == Next(InvalidLiteral, pos)
  {
  }
}
