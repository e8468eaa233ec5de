/** The serializer: an object walks the value to write with a cursor
    `current` and appends to `result`. Only null and booleans are written;
    the emitters for arrays, numbers, objects and strings append nothing. */
module JsonSerializer {
  import opened Utf16
  import opened ParserSpec

  /** The run-time type of a non-null value, as far as the serializer
      tells types apart: bool, the eleven numeric types, char, string,
      array types, and every other class by name. */
  datatype RuntimeType =
    | BoolType
    | ByteType | SByteType | ShortType | UShortType | IntType | UIntType
    | LongType | ULongType | FloatType | DoubleType | DecimalType
    | CharType
    | StringType
    | ArrayType(element: RuntimeType)
    | ClassType(name: string)

  /** A value handed to the serializer: null, a boxed bool (which carries
      its truth value), or an instance of some other type. */
  datatype Boxed = NullRef | BoxedBool(truth: bool) | Instance(runtimeType: RuntimeType)

  /** A boxed bool is always a BoxedBool, never an Instance of bool. */
  type Value = o: Boxed | !(o.Instance? && o.runtimeType == BoolType) witness NullRef

  /** GetType() of a non-null value. */
  function TypeOf(o: Value): (t: RuntimeType)
    requires !o.NullRef?
    ensures t == BoolType <==> o.BoxedBool?
  {
    match o
    case BoxedBool(_) => BoolType
    case Instance(t) => t
  }

  /** The eleven types IsNumericType accepts. */
  const NumericTypes: set<RuntimeType> := {
    ByteType, SByteType, ShortType, UShortType, IntType, UIntType,
    LongType, ULongType, FloatType, DoubleType, DecimalType
  }

  predicate IsNumericType(t: RuntimeType): (r: bool)
    ensures r <==> t in NumericTypes
  {
    t == ByteType || t == SByteType ||
    t == ShortType || t == UShortType ||
    t == IntType || t == UIntType ||
    t == LongType || t == ULongType ||
    t == FloatType || t == DoubleType ||
    t == DecimalType
  }

  /** Exactly eleven types are numeric, and none of them is bool, char,
      string, an array type or a named class. */
  lemma {:induction false} NumericTypesAreEleven(t: RuntimeType)
    ensures |NumericTypes| == 11
    ensures IsNumericType(t) ==> !t.ArrayType? && !t.ClassType? && t !in {BoolType, CharType, StringType}
  {
    var small := {ByteType, SByteType, ShortType, UShortType, IntType, UIntType};
    var large := {LongType, ULongType, FloatType, DoubleType, DecimalType};
    assert |small| == 6;
    assert |large| == 5;
    assert small !! large;
    assert NumericTypes == small + large;
  }

  /** The emitter Value calls. */
  datatype Branch = NullBranch | BooleanBranch | ArrayBranch | NumberBranch | StringBranch | ObjectBranch

  /** Value's tests in their order: null, bool, array, numeric, string,
      and any other type goes to Object. */
  function Dispatch(o: Value): (b: Branch)
    ensures b == NullBranch <==> o.NullRef?
    ensures b == BooleanBranch <==> o.BoxedBool?
    ensures b == ArrayBranch <==> o.Instance? && o.runtimeType.ArrayType?
    ensures b == NumberBranch <==> o.Instance? && o.runtimeType in NumericTypes
    ensures b == StringBranch <==> o == Instance(StringType)
    ensures b == ObjectBranch <==> o.Instance? && (o.runtimeType.ClassType? || o.runtimeType == CharType)
  {
    if o.NullRef? then NullBranch
    else
      var t := TypeOf(o);
      if t == BoolType then BooleanBranch
      else if t.ArrayType? then ArrayBranch
      else if IsNumericType(t) then NumberBranch
      else if t == StringType then StringBranch
      else ObjectBranch
  }

  /** What Value appends for `o`. */
  function Emitted(o: Value): (r: seq<CodeUnit>)
    ensures o.NullRef? ==> r == NullWord
    ensures o.BoxedBool? ==> r == if o.truth then TrueWord else FalseWord
    ensures o.Instance? ==> r == []
  {
    match Dispatch(o)
    case NullBranch => NullWord
    case BooleanBranch => if o.truth then TrueWord else FalseWord
    case _ => []
  }

  class Serializer {
    const source: Value
    var current: Value
    var result: seq<CodeUnit>

    constructor (source: Value)
      ensures this.source == source && current == source && result == []
    {
      this.source := source;
      current := source;
      result := [];
    }

    /** Reset the cursor and the output, then write the source. */
    method Serialize() returns (r: seq<CodeUnit>)
      modifies this
      ensures current == source && r == result == Emitted(source)
    {
      result := [];
      current := source;
      ghost var branch := Value();
      return result;
    }

    /** `branch` names the emitter the tests pick, in their order. */
    method Value() returns (ghost branch: Branch)
      modifies this`result
      ensures branch == Dispatch(current)
      ensures result == old(result) + Emitted(current)
    {
      if current.NullRef? {
        Null();
        branch := NullBranch;
      } else {
        var t := TypeOf(current);
        if t == BoolType {
          Boolean();
          branch := BooleanBranch;
        } else if t.ArrayType? {
          Array();
          branch := ArrayBranch;
        } else if IsNumericType(t) {
          Number();
          branch := NumberBranch;
        } else if t == StringType {
          String();
          branch := StringBranch;
        } else {
          Object();
          branch := ObjectBranch;
        }
      }
    }

    method Null()
      modifies this`result
      ensures result == old(result) + NullWord
    {
      result := result + NullWord;
    }

    /** The cast of `current` to bool needs a boxed bool. */
    method Boolean()
      requires current.BoxedBool?
      modifies this`result
      ensures result == old(result) + if current.truth then TrueWord else FalseWord
    {
      if current.truth {
        result := result + TrueWord;
      } else {
        result := result + FalseWord;
      }
    }

    method Array()
      modifies this`result
      ensures result == old(result)
    {
    }

    method Number()
      modifies this`result
      ensures result == old(result)
    {
    }

    method Object()
      modifies this`result
      ensures result == old(result)
    {
    }

    method String()
      modifies this`result
      ensures result == old(result)
    {
    }
  }

  /** Serialize starts afresh each time: two calls return the same text,
      whatever the first left behind. */
  method SerializeIsRepeatable(s: Serializer) returns (first: seq<CodeUnit>, second: seq<CodeUnit>)
    modifies s
    ensures first == second == Emitted(s.source)
  {
    first := s.Serialize();
    second := s.Serialize();
  }
}
