/** What String and Unicode promise: text without quotes or backslashes is
    copied as it is, whitespace right after the opening quote is skipped,
    the letter after a backslash is kept as itself, and \u reads exactly
    four hex digits. */
module StringProperties {
  import opened Utf16
  import opened JsonModel
  import opened ParserSpec
  import opened ParserProperties

  /** s[p..q] holds neither a quote nor a backslash. */
  ghost predicate PlainRun(s: seq<CodeUnit>, p: nat, q: nat) {
    p <= q <= |s| && forall k | p <= k < q :: s[k] != Quote && s[k] != Backslash
  }

  /** Every code unit of t is a hex digit. */
  ghost predicate AllHex(t: seq<CodeUnit>) {
    forall i | 0 <= i < |t| :: IsAsciiHexDigit(t[i])
  }

  /** String copies a run of ordinary code units one by one. */
  lemma {:induction false} StringCopiesPlainRun(s: seq<CodeUnit>, p: nat, q: nat, acc: seq<CodeUnit>)
    requires PlainRun(s, p, q)
    ensures CharsAt(s, p, acc, false) == CharsAt(s, q, acc + s[p..q], false)
    decreases q - p
  {
    if p < q {
      StringCopiesPlainRun(s, p + 1, q, acc + [s[p]]);
      assert acc + [s[p]] + s[p + 1..q] == acc + s[p..q];
    } else {
      assert acc + s[p..q] == acc;
    }
  }

  /** After the opening quote, String skips whitespace before it scans;
      with only whitespace left it reads past the end and throws. */
  lemma StringSkipsLeadingWhitespace(s: seq<CodeUnit>, pos: nat, k: nat)
    requires pos < |s|
    ensures FirstNonWhitespace(s, pos + 1, k) ==> StringAt(s, pos) == CharsAt(s, k, [], false)
    ensures OnlyWhitespace(s, pos + 1) ==> StringAt(s, pos) == Halt(OutOfRange)
  {
    if FirstNonWhitespace(s, pos + 1, k) {
      SkipsToFirstNonWhitespace(s, pos + 1, k);
    }
    SkipWhitespaceFailsOnWhitespaceTail(s, pos + 1);
  }

  /** A string with no escapes: the text between the opening quote and the
      closing one, without its leading whitespace; the cursor ends after the
      closing quote. Without a closing quote String throws at the end. */
  lemma PlainStringRead(s: seq<CodeUnit>, pos: nat, k: nat, q: nat)
    requires pos < |s| && FirstNonWhitespace(s, pos + 1, k) && PlainRun(s, k, q)
    ensures q < |s| && s[q] == Quote ==> StringAt(s, pos) == Next(s[k..q], q + 1)
    ensures q == |s| ==> StringAt(s, pos) == Halt(ParseError(UnexpectedEnd))
  {
    StringSkipsLeadingWhitespace(s, pos, k);
    StringCopiesPlainRun(s, k, q, []);
    assert [] + s[k..q] == s[k..q];
  }

  /** A backslash anywhere in a string, with any text before it: one of
      " \ / b f n r t after it is appended as that letter and the scan goes
      on past both, 'u' appends the code unit Unicode reads, and any other
      letter throws. */
  lemma EscapeStep(s: seq<CodeUnit>, p: nat, acc: seq<CodeUnit>)
    requires p + 1 < |s| && s[p] == Backslash
    ensures IsSimpleEscape(s[p + 1]) ==> CharsAt(s, p, acc, false) == CharsAt(s, p + 2, acc + [s[p + 1]], false)
    ensures s[p + 1] == LetterU ==>
      CharsAt(s, p, acc, false) == (
        match UnicodeAt(s, p + 1)
        case Halt(f) => Halt(f)
        case Next(c, q) => CharsAt(s, q, acc + [c], false))
    ensures !IsSimpleEscape(s[p + 1]) && s[p + 1] != LetterU ==>
      CharsAt(s, p, acc, false) == Halt(ParseError(UnexpectedEscape(s[p + 1])))
  {
  }

  /** The letter after a backslash: one of " \ / b f n r t is kept as that
      letter (so "\n" reads as the letter n), 'u' starts a \u escape, and
      any other letter throws. */
  lemma EscapeLetterKeptVerbatim(e: CodeUnit, rest: seq<CodeUnit>)
    ensures IsSimpleEscape(e) ==> StringAt([Quote, Backslash, e, Quote] + rest, 0) == Next([e], 4)
    ensures e == LetterU ==> StringAt([Quote, Backslash, e, Quote] + rest, 0) == Halt(ParseError(NonHexDigit))
    ensures !IsSimpleEscape(e) && e != LetterU ==>
      StringAt([Quote, Backslash, e, Quote] + rest, 0) == Halt(ParseError(UnexpectedEscape(e)))
  {
    var s := [Quote, Backslash, e, Quote] + rest;
    assert s[1] == Backslash && s[2] == e && s[3] == Quote;
    assert FirstNonWhitespace(s, 1, 1);
    StringSkipsLeadingWhitespace(s, 0, 1);
    EscapeStep(s, 1, []);
    if IsSimpleEscape(e) {
      assert [] + [e] == [e];
    } else if e == LetterU {
      assert HexDigitsAt(s, 3, []) == Halt(ParseError(NonHexDigit));
    }
  }

  /** The digits HexDigitsAt reads once it holds hex: the 4 - |hex| code
      units at pos; it throws 'unexpected end' when the input ends first and
      they were hex digits so far, 'only hex digits' otherwise. */
  lemma {:induction false} HexDigitsClosedForm(s: seq<CodeUnit>, pos: nat, hex: seq<CodeUnit>)
    requires pos <= |s| && |hex| <= 4 && AllHex(hex)
    ensures HexDigitsAt(s, pos, hex).Next? <==> pos + 4 - |hex| <= |s| && AllHex(s[pos..pos + 4 - |hex|])
    ensures HexDigitsAt(s, pos, hex) == Halt(ParseError(UnexpectedEnd)) <==>
      |s| < pos + 4 - |hex| && AllHex(s[pos..])
    ensures HexDigitsAt(s, pos, hex).Halt? && HexDigitsAt(s, pos, hex) != Halt(ParseError(UnexpectedEnd)) ==>
      HexDigitsAt(s, pos, hex) == Halt(ParseError(NonHexDigit))
    decreases 4 - |hex|
  {
    if |hex| < 4 && pos < |s| && IsAsciiHexDigit(s[pos]) {
      HexDigitsClosedForm(s, pos + 1, hex + [s[pos]]);
      if pos + 4 - |hex| <= |s| {
        assert s[pos..pos + 4 - |hex|] == [s[pos]] + s[pos + 1..pos + 4 - |hex|];
      }
      assert s[pos..] == [s[pos]] + s[pos + 1..];
    } else if |hex| < 4 && pos < |s| {
      assert s[pos..][0] == s[pos];
      if pos + 4 - |hex| <= |s| {
        assert s[pos..pos + 4 - |hex|][0] == s[pos];
      }
    }
  }

  /** Unicode, with the cursor on 'u': it succeeds exactly when the next
      four code units are hex digits, returns the code unit they spell and
      leaves the cursor after them; short input of hex digits gives
      'unexpected end', and a non-hex digit gives 'only hex digits'. */
  lemma UnicodeReadsFourHexDigits(s: seq<CodeUnit>, pos: nat)
    requires pos < |s|
    ensures UnicodeAt(s, pos).Next? <==> pos + 5 <= |s| && AllHex(s[pos + 1..pos + 5])
    ensures UnicodeAt(s, pos).Next? ==>
      UnicodeAt(s, pos) == Next(HexUnit(s[pos + 1..pos + 5]), pos + 5)
    ensures UnicodeAt(s, pos) == Halt(ParseError(UnexpectedEnd)) <==> |s| < pos + 5 && AllHex(s[pos + 1..])
    ensures UnicodeAt(s, pos).Halt? && UnicodeAt(s, pos) != Halt(ParseError(UnexpectedEnd)) ==>
      UnicodeAt(s, pos) == Halt(ParseError(NonHexDigit))
  {
    HexDigitsClosedForm(s, pos + 1, []);
    if HexDigitsAt(s, pos + 1, []).Next? {
      assert [] + s[pos + 1..pos + 5] == s[pos + 1..pos + 5];
    }
  }
}
