/** Printing a value and parsing the text back gives the value again,
    whatever text surrounds it: the reference printer of JsonPrinter is an
    inverse of Value, String and Unicode. */
module RoundTrip {
  import opened Utf16
  import opened JsonModel
  import opened ParserSpec
  import opened ParserProperties
  import opened StringProperties
  import opened JsonPrinter
  import JsonSerializer

  /** Unicode reads back the four hex digits of any code unit. */
  lemma UnicodeRoundTrip(s: seq<CodeUnit>, pos: nat, c: CodeUnit)
    requires pos + 5 <= |s| && s[pos + 1..pos + 5] == HexEncode(c as nat, 4)
    ensures UnicodeAt(s, pos) == Next(c, pos + 5)
  {
    UnicodeReadsFourHexDigits(s, pos);
    assert Pow16(4) == 0x1_0000;
    HexEncodeRoundTrip(c as nat, 4);
  }

  /** String reads the escape of one code unit back as that code unit. */
  lemma EscapedUnitRead(s: seq<CodeUnit>, p: nat, c: CodeUnit, acc: seq<CodeUnit>)
    requires p <= |s| && EscapedUnit(c) <= s[p..]
    ensures p + |EscapedUnit(c)| <= |s|
    ensures CharsAt(s, p, acc, false) == CharsAt(s, p + |EscapedUnit(c)|, acc + [c], false)
  {
    var e := EscapedUnit(c);
    assert s[p] == e[0];
    if c == Quote || c == Backslash {
      assert s[p + 1] == e[1];
      assert CharsAt(s, p, acc, false) == CharsAt(s, p + 1, acc, true);
    } else if IsWhitespace(c) {
      assert s[p + 1] == e[1];
      assert s[p + 2..p + 6] == e[2..];
      UnicodeRoundTrip(s, p + 1, c);
      assert CharsAt(s, p, acc, false) == CharsAt(s, p + 1, acc, true);
    }
  }

  /** Two parts found one after the other at p. */
  lemma PrefixAt(a: seq<CodeUnit>, b: seq<CodeUnit>, s: seq<CodeUnit>, p: nat)
    requires p <= |s| && a + b <= s[p..]
    ensures p + |a| <= |s| && a <= s[p..] && b <= s[p + |a|..]
  {
    PrefixSplit(a, b, s[p..]);
    assert s[p..][|a|..] == s[p + |a|..];
  }

  /** A prefix made of two parts: the first is a prefix, the second follows it. */
  lemma PrefixSplit(a: seq<CodeUnit>, b: seq<CodeUnit>, x: seq<CodeUnit>)
    requires a + b <= x
    ensures a <= x && b <= x[|a|..]
  {
    assert x[..|a|] == (a + b)[..|a|];
    assert x[|a|..][..|b|] == (a + b)[|a|..];
  }

  /** A prefix x of the text at p that is made of two parts. */
  lemma PrefixOf(x: seq<CodeUnit>, a: seq<CodeUnit>, b: seq<CodeUnit>, s: seq<CodeUnit>, p: nat)
    requires p <= |s| && x <= s[p..] && x == a + b
    ensures p + |a| <= |s| && a <= s[p..] && b <= s[p + |a|..]
  {
    PrefixAt(a, b, s, p);
  }

  /** The escape of a non-empty text and a closing quote. */
  lemma EscapedCons(t: seq<CodeUnit>)
    requires t != []
    ensures Escaped(t) + [Quote] == EscapedUnit(t[0]) + (Escaped(t[1..]) + [Quote])
    ensures |Escaped(t)| == |EscapedUnit(t[0])| + |Escaped(t[1..])|
  {
  }

  /** String's scanning loop, from p with the text acc so far, returns r
      and leaves the cursor at e. */
  ghost predicate ScansTo(s: seq<CodeUnit>, p: nat, acc: seq<CodeUnit>, r: seq<CodeUnit>, e: nat) {
    p <= |s| && CharsAt(s, p, acc, false) == Next(r, e)
  }

  /** String reads an escaped code unit c and then goes on with the text
      after it: the scan from the escape ends as the scan after it does. */
  lemma CharsOfEscapedStep(s: seq<CodeUnit>, p: nat, c: CodeUnit, rest: seq<CodeUnit>, acc: seq<CodeUnit>,
                           e: nat, t: seq<CodeUnit>, e': nat)
    requires p <= |s| && EscapedUnit(c) <= s[p..]
    requires ScansTo(s, p + |EscapedUnit(c)|, acc + [c], acc + [c] + rest, e)
    requires t != [] && c == t[0] && rest == t[1..] && e' == e
    ensures ScansTo(s, p, acc, acc + t, e')
  {
    assert [c] + rest == t;
    assert acc + [c] + rest == acc + t;
    EscapedUnitRead(s, p, c, acc);
  }

  /** String reads an escaped text up to the closing quote back as the text. */
  lemma {:induction false} CharsOfEscaped(s: seq<CodeUnit>, p: nat, t: seq<CodeUnit>, acc: seq<CodeUnit>)
    requires p <= |s| && Escaped(t) + [Quote] <= s[p..]
    ensures ScansTo(s, p, acc, acc + t, p + |Escaped(t)| + 1)
    decreases |t|
  {
    if t == [] {
      CharsOfEscapedEmpty(s, p, t, acc);
    } else {
      EscapedCons(t);
      PrefixOf(Escaped(t) + [Quote], EscapedUnit(t[0]), Escaped(t[1..]) + [Quote], s, p);
      var n := p + |EscapedUnit(t[0])|;
      CharsOfEscaped(s, n, t[1..], acc + [t[0]]);
      CharsOfEscapedStep(s, p, t[0], t[1..], acc, n + |Escaped(t[1..])| + 1, t, p + |Escaped(t)| + 1);
    }
  }

  /** The empty text: String stops at the closing quote. */
  lemma CharsOfEscapedEmpty(s: seq<CodeUnit>, p: nat, t: seq<CodeUnit>, acc: seq<CodeUnit>)
    requires t == [] && p <= |s| && Escaped(t) + [Quote] <= s[p..]
    ensures ScansTo(s, p, acc, acc + t, p + |Escaped(t)| + 1)
  {
    assert s[p] == (Escaped(t) + [Quote])[0];
    assert acc + t == acc;
  }

  /** String reads a printed string literal back as its text, whatever follows it. */
  lemma StringRoundTrip(s: seq<CodeUnit>, p: nat, t: seq<CodeUnit>)
    requires p <= |s| && Quoted(t) <= s[p..]
    ensures StringAt(s, p) == Next(t, p + |Quoted(t)|)
  {
    assert Quoted(t) == [Quote] + (Escaped(t) + [Quote]);
    PrefixSplit([Quote], Escaped(t) + [Quote], s[p..]);
    assert s[p..][1..] == s[p + 1..];
    assert !IsWhitespace(s[p + 1]) by {
      assert s[p + 1] == (Escaped(t) + [Quote])[0];
      if t != [] {
        assert Escaped(t)[0] == EscapedUnit(t[0])[0];
      }
    }
    assert FirstNonWhitespace(s, p + 1, p + 1);
    StringSkipsLeadingWhitespace(s, p, p + 1);
    CharsOfEscaped(s, p + 1, t, []);
    assert [] + t == t;
  }

  /** A keyword at the cursor is read as its value, whatever follows it. */
  lemma ValueReadsKeyword(s: seq<CodeUnit>, pos: nat, t: LiteralType)
    requires t != InvalidLiteral && pos <= |s| && Keyword(t) <= s[pos..]
    ensures ValueAt(s, pos) == Next(match t case TrueLiteral => JBool(true) case FalseLiteral => JBool(false) case _ => JNull, pos + |Keyword(t)|)
  {
    LiteralCharacterized(s, pos);
    assert s[pos] == Keyword(t)[0];
  }

  /** Value wraps what String reads at a quote. */
  lemma ValueOfString(s: seq<CodeUnit>, p: nat, t: seq<CodeUnit>, q: nat)
    requires p < |s| && s[p] == Quote && StringAt(s, p) == Next(t, q)
    ensures ValueAt(s, p) == Next(JString(t), q)
  {
  }

  /** Value wraps what Array reads at '['. */
  lemma ValueOfArray(s: seq<CodeUnit>, p: nat, vs: seq<Json>, q: nat)
    requires p < |s| && s[p] == LeftBracket && ArrayAt(s, p) == Next(vs, q)
    ensures ValueAt(s, p) == Next(JArray(vs), q)
  {
  }

  /** Array with the cursor on '[' directly followed by the code unit at p + 1
      that is not whitespace: ']' closes the empty array, anything else starts
      the elements. */
  lemma ArrayWithoutLeadingWhitespace(s: seq<CodeUnit>, p: nat)
    requires p + 1 < |s| && !IsWhitespace(s[p + 1])
    ensures s[p + 1] == RightBracket ==> ArrayAt(s, p) == Next([], p + 2)
    ensures s[p + 1] != RightBracket ==> ArrayAt(s, p) == ElementsAt(s, p + 1, [])
  {
    assert FirstNonWhitespace(s, p + 1, p + 1);
    SkipsToFirstNonWhitespace(s, p + 1, p + 1);
  }

  /** The first code unit of printed elements is that of the first element. */
  lemma PrintElementsStart(vs: seq<Json>)
    requires vs != []
    ensures 0 < |PrintElements(vs)| && PrintElements(vs)[0] == Print(vs[0])[0]
  {
  }

  /** Printed elements open with the first element and go on with the rest. */
  lemma PrintElementsSplit(vs: seq<Json>)
    requires vs != []
    ensures PrintElements(vs) + [RightBracket] == Print(vs[0]) + ElementsTail(vs)
  {
  }

  /** What follows the first printed element up to and including ']'. */
  function ElementsTail(vs: seq<Json>): seq<CodeUnit>
    requires vs != []
  {
    if |vs| == 1 then [RightBracket] else [Comma] + PrintElements(vs[1..]) + [RightBracket]
  }

  /** Value reads a printed value back, whatever follows it. */
  lemma {:induction false} ValueRoundTrip(s: seq<CodeUnit>, p: nat, j: Json)
    requires p <= |s| && Print(j) <= s[p..]
    ensures ValueAt(s, p) == Next(j, p + |Print(j)|)
    decreases j, 1
  {
    match j
    case JNull => ValueReadsKeyword(s, p, NullLiteral);
    case JBool(b) => ValueReadsKeyword(s, p, if b then TrueLiteral else FalseLiteral);
    case JString(t) =>
      assert s[p] == Print(j)[0];
      StringRoundTrip(s, p, t);
      ValueOfString(s, p, t, p + |Quoted(t)|);
    case JArray(vs) =>
      ArrayRoundTrip(s, p, vs);
      ValueOfArray(s, p, vs, p + |Print(j)|);
  }

  /** Array reads a printed array back, whatever follows it. */
  lemma {:induction false} ArrayRoundTrip(s: seq<CodeUnit>, p: nat, vs: seq<Json>)
    requires p <= |s| && Print(JArray(vs)) <= s[p..]
    ensures p < |s| && s[p] == LeftBracket
    ensures ArrayAt(s, p) == Next(vs, p + |Print(JArray(vs))|)
    decreases JArray(vs), 0
  {
    var inner := PrintElements(vs) + [RightBracket];
    assert Print(JArray(vs)) == [LeftBracket] + inner;
    PrefixSplit([LeftBracket], inner, s[p..]);
    assert s[p..][1..] == s[p + 1..];
    assert s[p + 1] == inner[0];
    if vs == [] {
      ArrayWithoutLeadingWhitespace(s, p);
    } else {
      PrintElementsStart(vs);
      ArrayWithoutLeadingWhitespace(s, p);
      ElementsRoundTrip(s, p + 1, vs, []);
      assert [] + vs == vs;
    }
  }

  /** The element loop, started at p with the elements acc so far, returns
      r and leaves the cursor at e. */
  ghost predicate ReadsElements(s: seq<CodeUnit>, p: nat, acc: seq<Json>, r: seq<Json>, e: nat) {
    p <= |s| && ElementsAt(s, p, acc) == Next(r, e)
  }

  /** The element loop reads printed elements and the closing ']' back. */
  lemma {:induction false} ElementsRoundTrip(s: seq<CodeUnit>, p: nat, vs: seq<Json>, acc: seq<Json>)
    requires vs != [] && p <= |s| && PrintElements(vs) + [RightBracket] <= s[p..]
    ensures ReadsElements(s, p, acc, acc + vs, p + |PrintElements(vs)| + 1)
    decreases vs, 1
  {
    FirstElementPrinted(s, p, vs);
    var q := p + |Print(vs[0])|;
    ValueRoundTrip(s, p, vs[0]);
    SkipsToFirstNonWhitespace(s, q, q);
    if |vs| == 1 {
      ElementsAfterLastElement(s, p, acc, vs, q);
    } else {
      ElementsAfterNextElement(s, p, acc, vs, q);
    }
  }

  /** Printed elements and ']' at p: the first element, and after it the
      rest, which starts with a code unit that is not whitespace. */
  lemma FirstElementPrinted(s: seq<CodeUnit>, p: nat, vs: seq<Json>)
    requires vs != [] && p <= |s| && PrintElements(vs) + [RightBracket] <= s[p..]
    ensures p + |Print(vs[0])| <= |s| && Print(vs[0]) <= s[p..]
    ensures ElementsTail(vs) <= s[p + |Print(vs[0])|..]
    ensures FirstNonWhitespace(s, p + |Print(vs[0])|, p + |Print(vs[0])|)
  {
    var tail := ElementsTail(vs);
    var q := p + |Print(vs[0])|;
    PrintElementsSplit(vs);
    PrefixSplit(Print(vs[0]), tail, s[p..]);
    assert s[p..][|Print(vs[0])|..] == s[q..];
    assert s[q] == tail[0];
  }

  /** The step of ElementsRoundTrip at the last element and ']'. */
  lemma ElementsAfterLastElement(s: seq<CodeUnit>, p: nat, acc: seq<Json>, vs: seq<Json>, q: nat)
    requires |vs| == 1 && p <= q <= |s| && q == p + |Print(vs[0])|
    requires ReadsValue(s, p, vs[0], q) && SkipWhitespaceAt(s, q) == Next((), q)
    requires ElementsTail(vs) <= s[q..]
    ensures ReadsElements(s, p, acc, acc + vs, p + |PrintElements(vs)| + 1)
  {
    assert s[q] == s[q..][0];
    ElementsAfterValue(s, p, acc, vs[0], q, q);
    assert acc + [vs[0]] == acc + vs;
  }

  /** After the first printed element of several: a ',' and then the rest,
      starting with a code unit that is not whitespace. */
  lemma CommaThenElements(s: seq<CodeUnit>, q: nat, vs: seq<Json>)
    requires 1 < |vs| && q <= |s| && ElementsTail(vs) <= s[q..]
    ensures q + 1 < |s| && s[q] == Comma && !IsWhitespace(s[q + 1])
    ensures PrintElements(vs[1..]) + [RightBracket] <= s[q + 1..]
  {
    var rest := PrintElements(vs[1..]) + [RightBracket];
    assert ElementsTail(vs) == [Comma] + rest;
    PrefixSplit([Comma], rest, s[q..]);
    assert s[q..][1..] == s[q + 1..];
    PrintElementsStart(vs[1..]);
    assert s[q + 1] == rest[0];
  }

  /** The length of several printed elements. */
  lemma PrintElementsLength(vs: seq<Json>)
    requires 1 < |vs|
    ensures |PrintElements(vs)| == |Print(vs[0])| + 1 + |PrintElements(vs[1..])|
  {
  }

  /** Past the first of several printed elements and the ',' after it, the
      element loop goes on at the next printed element. */
  lemma NextElementStep(s: seq<CodeUnit>, p: nat, acc: seq<Json>, vs: seq<Json>, q: nat)
    requires 1 < |vs| && p <= q <= |s|
    requires ReadsValue(s, p, vs[0], q) && SkipWhitespaceAt(s, q) == Next((), q)
    requires ElementsTail(vs) <= s[q..]
    ensures q + 1 <= |s| && PrintElements(vs[1..]) + [RightBracket] <= s[q + 1..]
    ensures ElementsAt(s, p, acc) == ElementsAt(s, q + 1, acc + [vs[0]])
  {
    CommaThenElements(s, q, vs);
    assert FirstNonWhitespace(s, q + 1, q + 1);
    SkipsToFirstNonWhitespace(s, q + 1, q + 1);
    ElementsAfterComma(s, p, acc, vs[0], q, q, q + 1);
  }

  /** The step of ElementsRoundTrip past ',' to the next element. */
  lemma {:induction false} ElementsAfterNextElement(s: seq<CodeUnit>, p: nat, acc: seq<Json>, vs: seq<Json>, q: nat)
    requires 1 < |vs| && p <= q <= |s| && q == p + |Print(vs[0])|
    requires ReadsValue(s, p, vs[0], q) && SkipWhitespaceAt(s, q) == Next((), q)
    requires ElementsTail(vs) <= s[q..]
    ensures ReadsElements(s, p, acc, acc + vs, p + |PrintElements(vs)| + 1)
    decreases vs, 0
  {
    NextElementStep(s, p, acc, vs, q);
    ElementsRoundTrip(s, q + 1, vs[1..], acc + [vs[0]]);
    ReadsRestOfElements(s, p, acc, vs, q);
  }

  /** The element loop reads all of several printed elements from p once it
      goes on at the second with the first read, and reads the rest there. */
  lemma ReadsRestOfElements(s: seq<CodeUnit>, p: nat, acc: seq<Json>, vs: seq<Json>, q: nat)
    requires 1 < |vs| && p <= q && q + 1 <= |s| && q == p + |Print(vs[0])|
    requires ElementsAt(s, p, acc) == ElementsAt(s, q + 1, acc + [vs[0]])
    requires ReadsElements(s, q + 1, acc + [vs[0]], acc + [vs[0]] + vs[1..], q + 1 + |PrintElements(vs[1..])| + 1)
    ensures ReadsElements(s, p, acc, acc + vs, p + |PrintElements(vs)| + 1)
  {
    PrintElementsLength(vs);
    AppendAt(acc, vs, 0);
  }

  /** ParseAny from start reads back a printed value at q when only
      whitespace lies between them, whatever text follows the value, and
      leaves the cursor just after the value's text. */
  lemma ParseAnyReadsPrinted(s: seq<CodeUnit>, start: nat, q: nat, j: Json)
    requires start <= q <= |s| && AllWhitespace(s[start..q]) && Print(j) <= s[q..]
    ensures ParseAnyAt(s, start) == Next(j, q + |Print(j)|)
  {
    assert s[q] == Print(j)[0];
    assert FirstNonWhitespace(s, start, q);
    SkipsToFirstNonWhitespace(s, start, q);
    ValueRoundTrip(s, q, j);
  }

  /** ParseAny reads back any printed value after leading whitespace,
      whatever text follows it, and leaves the cursor just after the value. */
  lemma ParseAnyRoundTrip(ws: seq<CodeUnit>, j: Json, post: seq<CodeUnit>)
    requires forall i | 0 <= i < |ws| :: IsWhitespace(ws[i])
    ensures ParseAnyAt(ws + Print(j) + post, 0) == Next(j, |ws| + |Print(j)|)
  {
    var s := ws + Print(j) + post;
    assert s[|ws|..][..|Print(j)|] == Print(j);
    assert s[0..|ws|] == ws;
    ParseAnyReadsPrinted(s, 0, |ws|, j);
  }

  /** ParseAny does not reset the cursor: called again on the same parser it
      reads the next printed value, from where the first call stopped. */
  lemma ParseAnyResumes(s: seq<CodeUnit>, q1: nat, j1: Json, e1: nat, q2: nat, j2: Json)
    requires q1 <= |s| && AllWhitespace(s[0..q1]) && Print(j1) <= s[q1..] && e1 == q1 + |Print(j1)|
    requires e1 <= q2 <= |s| && AllWhitespace(s[e1..q2]) && Print(j2) <= s[q2..]
    ensures ParseAnyAt(s, 0) == Next(j1, e1)
    ensures ParseAnyAt(s, e1) == Next(j2, q2 + |Print(j2)|)
  {
    ParseAnyReadsPrinted(s, 0, q1, j1);
    ParseAnyReadsPrinted(s, e1, q2, j2);
  }

  /** The value Value makes of what Literal found: for a keyword, the literal
      value printed as that keyword, with the cursor after it; for no keyword,
      the unexpected-token error naming the code unit peeked; an exception of
      Literal passes through. */
  lemma LiteralValueOutcome(l: Step<LiteralType>, next: CodeUnit)
    ensures LiteralValue(l, next).Next? <==> l.Next? && l.value != InvalidLiteral
    ensures LiteralValue(l, next).Next? ==>
      var v := LiteralValue(l, next).value;
      (v.JNull? || v.JBool?) && Print(v) == Keyword(l.value) && LiteralValue(l, next).pos == l.pos
    ensures l.Halt? ==> LiteralValue(l, next) == Halt(l.fault)
    ensures l.Next? && l.value == InvalidLiteral ==> LiteralValue(l, next) == Halt(ParseError(UnexpectedToken(next)))
  {
  }

  /** What the serializer writes for null and for a bool, the parser reads
      back as that value. */
  lemma SerializedLiteralParsesBack(o: JsonSerializer.Value)
    requires o.NullRef? || o.BoxedBool?
    ensures ParseAnyAt(JsonSerializer.Emitted(o), 0) ==
      Next(if o.NullRef? then JNull else JBool(o.truth), |JsonSerializer.Emitted(o)|)
  {
    var j := if o.NullRef? then JNull else JBool(o.truth);
    assert JsonSerializer.Emitted(o) == [] + Print(j) + [];
    ParseAnyRoundTrip([], j, []);
  }
}
