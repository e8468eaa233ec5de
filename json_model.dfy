/** Values the parser produces and the ways a parse can stop. */
module JsonModel {
  import opened Utf16

  /** The dynamic value returned by Parser.ParseAny: null, a boxed bool,
      a string, or a List<object?> of further values. */
  datatype Json =
    | JNull
    | JBool(b: bool)
    | JString(chars: seq<CodeUnit>)
    | JArray(elements: seq<Json>)

  /** The messages of the parser's ParseException throws. */
  datatype Message =
    | UnexpectedToken(token: CodeUnit)
    | ExpectedComma
    | UnexpectedEnd
    | UnexpectedEscape(letter: CodeUnit)
    | NonHexDigit

  /** Why a parse stopped: a ParseException, the IndexOutOfRangeException of
      reading `source[current]` at the end of input, or the
      NotImplementedException of object and number parsing. */
  datatype Fault =
    | ParseError(message: Message)
    | OutOfRange
    | NotImplemented

  /** The outcome of a parser method: its return value, or the exception it throws. */
  datatype Result<T> = Ok(value: T) | Err(fault: Fault)

  /** The outcome of a parsing step on (text, cursor): a value and the cursor
      after it, or the exception that ends the parse. */
  datatype Step<T> = Next(value: T, pos: nat) | Halt(fault: Fault)

  /** A method's return value (or exception) together with the cursor it
      leaves, as a step; the cursor matters only when the method returns. */
  function StepOf<T>(r: Result<T>, cursor: nat): Step<T> {
    match r
    case Ok(v) => Next(v, cursor)
    case Err(f) => Halt(f)
  }

  /** StepOf for methods that return nothing: the step carries no value. */
  function DoneStepOf(r: Result<()>, cursor: nat): Step<()> {
    match r
    case Ok(_) => Next((), cursor)
    case Err(f) => Halt(f)
  }

  /** A step that carries no value is determined by its cursor. */
  lemma UnitStep(r: Step<()>)
    requires r.Next?
    ensures r == Next((), r.pos)
  {
    var u: () := r.value;
    match u { case () => }
  }

  /** The exception text each message stands for. */
  function MessageText(m: Message): (r: seq<CodeUnit>)
    ensures |r| > 0
    ensures m.UnexpectedToken? ==> m.token in r
    ensures m.UnexpectedEscape? ==> m.letter in r
  {
    match m
    case UnexpectedToken(c) => Text("Encountered unexpected token: '") + [c] + Text("'.")
    case ExpectedComma => Text("Expected ',' between array elements")
    case UnexpectedEnd => Text("Unexpected end of input.")
    case UnexpectedEscape(c) => Text("Unexpected escape character: '") + [c] + Text("'")
    case NonHexDigit => Text("Only hex digits are allowed in unicode.")
  }
}
