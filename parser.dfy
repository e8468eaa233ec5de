/** The recursive-descent parser: a cursor `current` over `source` that the
    methods move forward, and that MatchWord rolls back. Each method is
    proved to compute what the function of the same name in ParserSpec
    says, from the cursor it starts at. */
module JsonParser {
  import opened Utf16
  import opened JsonModel
  import opened ParserSpec

  class Parser {
    const source: seq<CodeUnit>
    var current: nat

    /** The cursor never passes the end of the input. */
    ghost predicate Valid()
      reads this
    {
      current <= |source|
    }

    constructor (source: seq<CodeUnit>)
      ensures this.source == source && current == 0 && Valid()
    {
      this.source := source;
      current := 0;
    }

    method ParseAny() returns (r: Result<Json>)
      requires Valid()
      modifies this
      ensures Valid() && StepOf(r, current) == ParseAnyAt(source, old(current))
    {
      var ws := SkipWhitespace();
      if ws.Err? {
        return Err(ws.fault);
      }
      r := Value();
    }

    method Value() returns (r: Result<Json>)
      requires Valid()
      modifies this
      ensures Valid() && StepOf(r, current) == ValueAt(source, old(current))
      decreases |source| - current, 1
    {
      var peeked := Peek();
      if peeked.Err? {
        return Err(peeked.fault);
      }
      var next := peeked.value;
      if next == LeftBrace {
        r := Object();
      } else if next == LeftBracket {
        var a := Array();
        r := if a.Ok? then Ok(JArray(a.value)) else Err(a.fault);
      } else if next == Quote {
        var str := String();
        r := if str.Ok? then Ok(JString(str.value)) else Err(str.fault);
      } else if IsAsciiDigit(next) || next == Minus {
        r := Number();
      } else {
        var literal := Literal();
        if literal.Err? {
          return Err(literal.fault);
        }
        match literal.value
        case TrueLiteral => r := Ok(JBool(true));
        case FalseLiteral => r := Ok(JBool(false));
        case NullLiteral => r := Ok(JNull);
        case InvalidLiteral => r := Err(ParseError(UnexpectedToken(next)));
      }
    }

    /** Object parsing throws NotImplementedException. */
    method Object() returns (r: Result<Json>)
      ensures r == Err(NotImplemented)
    {
      r := Err(NotImplemented);
    }

    method Array() returns (r: Result<seq<Json>>)
      requires Valid()
      modifies this
      ensures Valid() && StepOf(r, current) == ArrayAt(source, old(current))
      decreases |source| - current, 0
    {
      var elements: seq<Json> := [];
      Advance();
      var ws := SkipWhitespace();
      if ws.Err? {
        return Err(ws.fault);
      }
      var peeked := Peek();
      if peeked.value == RightBracket {
        Advance();
        return Ok(elements);
      }
      while true
        invariant Valid() && old(current) < current
        invariant ArrayAt(source, old(current)) == ElementsAt(source, current, elements)
        decreases |source| - current
      {
        ghost var here, before := current, elements;
        var element := Value();
        if element.Err? {
          return Err(element.fault);
        }
        ghost var after := current;
        assert ReadsValue(source, here, element.value, after);
        elements := elements + [element.value];
        ws := SkipWhitespace();
        if ws.Err? {
          return Err(ws.fault);
        }
        assert SkipWhitespaceAt(source, after) == Next((), current);
        ElementsAfterValue(source, here, before, element.value, after, current);
        peeked := Peek();
        if peeked.value == RightBracket {
          Advance();
          break;
        }
        peeked := Peek();
        if peeked.value != Comma {
          return Err(ParseError(ExpectedComma));
        }
        ghost var comma := current;
        Advance();
        ws := SkipWhitespace();
        if ws.Err? {
          ElementsAfterTrailingComma(source, here, before, element.value, after, comma);
          return Err(ws.fault);
        }
        assert SkipWhitespaceAt(source, comma + 1) == Next((), current);
        ElementsAfterComma(source, here, before, element.value, after, comma, current);
      }
      return Ok(elements);
    }

    method String() returns (r: Result<seq<CodeUnit>>)
      requires Valid()
      modifies this
      ensures Valid() && StepOf(r, current) == StringAt(source, old(current))
    {
      Advance();
      var ws := SkipWhitespace();
      if ws.Err? {
        return Err(ws.fault);
      }
      var str: seq<CodeUnit> := [];
      var isEscape := false;
      while true
        invariant Valid()
        invariant StringAt(source, old(current)) == CharsAt(source, current, str, isEscape)
        decreases |source| - current
      {
        var atEnd := IsAtEnd();
        if atEnd {
          return Err(ParseError(UnexpectedEnd));
        }
        var peeked := Peek();
        var letter := peeked.value;
        if isEscape {
          if IsSimpleEscape(letter) {
            str := str + [letter];
            isEscape := false;
            Advance();
            continue;
          } else if letter == LetterU {
            var unit := Unicode();
            if unit.Err? {
              return Err(unit.fault);
            }
            str := str + [unit.value];
            isEscape := false;
            continue;
          } else {
            return Err(ParseError(UnexpectedEscape(letter)));
          }
        }
        if letter == Backslash {
          isEscape := true;
          Advance();
          continue;
        }
        if letter == Quote {
          Advance();
          return Ok(str);
        }
        str := str + [letter];
        Advance();
      }
    }

    method Unicode() returns (r: Result<CodeUnit>)
      requires Valid()
      modifies this
      ensures Valid() && StepOf(r, current) == UnicodeAt(source, old(current))
    {
      Advance();
      ghost var first := current;
      var hex: seq<CodeUnit> := [];
      for i := 0 to 4
        invariant Valid() && |hex| == i
        invariant forall k | 0 <= k < |hex| :: IsAsciiHexDigit(hex[k])
        invariant HexDigitsAt(source, first, []) == HexDigitsAt(source, current, hex)
      {
        var atEnd := IsAtEnd();
        if atEnd {
          return Err(ParseError(UnexpectedEnd));
        }
        var next := Peek();
        if !IsAsciiHexDigit(next.value) {
          return Err(ParseError(NonHexDigit));
        }
        next := Peek();
        hex := hex + [next.value];
        Advance();
      }
      var unicode := HexNumber(hex);
      assert Pow16(|hex|) == 0x1_0000;
      return Ok(unicode as CodeUnit);
    }

    /** Number parsing throws NotImplementedException. */
    method Number() returns (r: Result<Json>)
      ensures r == Err(NotImplemented)
    {
      r := Err(NotImplemented);
    }

    method Literal() returns (r: Result<LiteralType>)
      requires Valid()
      modifies this
      ensures Valid() && StepOf(r, current) == LiteralAt(source, old(current))
    {
      var matched := MatchWord(TrueWord);
      if matched.Err? {
        return Err(matched.fault);
      }
      if matched.value {
        return Ok(TrueLiteral);
      }
      matched := MatchWord(FalseWord);
      if matched.Err? {
        return Err(matched.fault);
      }
      if matched.value {
        return Ok(FalseLiteral);
      }
      matched := MatchWord(NullWord);
      if matched.Err? {
        return Err(matched.fault);
      }
      if matched.value {
        return Ok(NullLiteral);
      }
      return Ok(InvalidLiteral);
    }

    method SkipWhitespace() returns (r: Result<()>)
      requires Valid()
      modifies this
      ensures Valid() && DoneStepOf(r, current) == SkipWhitespaceAt(source, old(current))
    {
      while true
        invariant Valid()
        invariant SkipWhitespaceAt(source, old(current)) == SkipWhitespaceAt(source, current)
        decreases |source| - current
      {
        var matched := Match(Whitespace);
        if matched.Err? {
          return Err(matched.fault);
        }
        var proceed := matched.value;
        if proceed {
          var atEnd := IsAtEnd();
          proceed := !atEnd;
        }
        if !proceed {
          break;
        }
        Advance();
      }
      return Ok(());
    }

    /** Whether the code unit at the cursor is one of `targets`; reading it throws at the end. */
    method Match(targets: seq<CodeUnit>) returns (r: Result<bool>)
      ensures r.Ok? <==> current < |source|
      ensures r.Ok? ==> (r.value <==> source[current] in targets)
      ensures r.Err? ==> r.fault == OutOfRange
    {
      var peeked := Peek();
      if peeked.Err? {
        return Err(peeked.fault);
      }
      return Ok(peeked.value in targets);
    }

    method MatchWord(word: seq<CodeUnit>) returns (r: Result<bool>)
      requires Valid()
      modifies this
      ensures Valid() && StepOf(r, current) == MatchWordAt(source, old(current), word)
    {
      var start := current;
      for i := 0 to |word|
        invariant Valid() && current == start + i
        invariant source[start..current] == word[..i]
        invariant MatchWordAt(source, start, word) == MatchLettersAt(source, start, word, i)
      {
        var peeked := Peek();
        if peeked.Err? {
          return Err(peeked.fault);
        }
        if peeked.value != word[i] {
          current := start;
          return Ok(false);
        }
        assert source[start..start + i + 1] == source[start..start + i] + [source[start + i]];
        assert word[..i + 1] == word[..i] + [word[i]];
        Advance();
      }
      return Ok(true);
    }

    method Advance()
      modifies this
      ensures current == if old(current) < |source| then old(current) + 1 else old(current)
    {
      if current >= |source| {
        return;
      }
      current := current + 1;
    }

    method IsAtEnd() returns (atEnd: bool)
      ensures atEnd <==> current >= |source|
    {
      atEnd := current >= |source|;
    }

    /** `source[current]`, which throws IndexOutOfRangeException at the end. */
    method Peek() returns (r: Result<CodeUnit>)
      ensures r.Ok? <==> current < |source|
      ensures r.Ok? ==> r.value == source[current]
      ensures r.Err? ==> r.fault == OutOfRange
    {
      if current >= |source| {
        return Err(OutOfRange);
      }
      return Ok(source[current]);
    }
  }
}
