/** A reference printer for the values the parser builds: the text each
    value is written as so that Parser.Value reads it back. Strings escape a
    quote and a backslash with a backslash, and whitespace with a \u escape,
    since the parser keeps the letter after any other backslash as it is and
    skips whitespace right after the opening quote. */
module JsonPrinter {
  import opened Utf16
  import opened JsonModel
  import opened ParserSpec

  /** The upper-case hex digit for d. */
  function HexDigit(d: nat): (c: CodeUnit)
    requires d < 16
    ensures IsAsciiHexDigit(c) && HexDigitValue(c) == d
  {
    if d < 10 then (0x30 + d) as CodeUnit else (0x41 + d - 10) as CodeUnit
  }

  /** n as `width` hex digits, most significant first. */
  function HexEncode(n: nat, width: nat): (r: seq<CodeUnit>)
    ensures |r| == width && forall i | 0 <= i < |r| :: IsAsciiHexDigit(r[i])
  {
    if width == 0 then [] else HexEncode(n / 16, width - 1) + [HexDigit(n % 16)]
  }

  /** Reading the digits back gives the number, when it fits in them. */
  lemma {:induction false} HexEncodeRoundTrip(n: nat, width: nat)
    requires n < Pow16(width)
    ensures HexNumber(HexEncode(n, width)) == n
  {
    if width > 0 {
      assert n / 16 < Pow16(width - 1);
      HexEncodeRoundTrip(n / 16, width - 1);
      var h := HexEncode(n, width);
      assert h[..|h| - 1] == HexEncode(n / 16, width - 1);
    }
  }

  /** The escape of one code unit inside a string. */
  function EscapedUnit(c: CodeUnit): (r: seq<CodeUnit>)
    ensures 0 < |r| && r[0] != Quote && !IsWhitespace(r[0])
  {
    if c == Quote || c == Backslash then [Backslash, c]
    else if IsWhitespace(c) then [Backslash, LetterU] + HexEncode(c as nat, 4)
    else [c]
  }

  function Escaped(t: seq<CodeUnit>): seq<CodeUnit> {
    if t == [] then [] else EscapedUnit(t[0]) + Escaped(t[1..])
  }

  /** A string literal for t. */
  function Quoted(t: seq<CodeUnit>): seq<CodeUnit> {
    [Quote] + Escaped(t) + [Quote]
  }

  /** The text of a value: keywords, string literals, and arrays with ','
      between the elements and no whitespace. */
  function Print(j: Json): (r: seq<CodeUnit>)
    ensures 0 < |r| && !IsWhitespace(r[0]) && r[0] != RightBracket
    decreases j, 1
  {
    match j
    case JNull => NullWord
    case JBool(b) => if b then TrueWord else FalseWord
    case JString(t) => Quoted(t)
    case JArray(vs) => [LeftBracket] + PrintElements(vs) + [RightBracket]
  }

  /** The elements of an array separated by ','. */
  function PrintElements(vs: seq<Json>): seq<CodeUnit>
    decreases vs, 0
  {
    if vs == [] then []
    else if |vs| == 1 then Print(vs[0])
    else Print(vs[0]) + [Comma] + PrintElements(vs[1..])
  }
}
