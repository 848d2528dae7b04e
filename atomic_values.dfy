/**
 * Conversion of rule property values into the XPath library's value model, so
 * that they can be bound to query variables. A single value becomes one atomic
 * value; a multi-valued property's list becomes a sequence of them. Only the
 * listed host types convert; any other one is a configuration error.
 */
module AtomicValues {
  import opened Wrappers

  type Int32 = x: int | -0x8000_0000 <= x < 0x8000_0000
  type Int64 = x: int | -0x8000_0000_0000_0000 <= x < 0x8000_0000_0000_0000

  /** A property value, by its runtime class. Floating-point payloads are not modelled. */
  datatype HostValue =
    | Null
    | EnumConstant(text: string)      // an Enum, with what its toString gives
    | JavaString(s: string)
    | JavaBoolean(b: bool)
    | JavaInteger(i: Int32)
    | JavaLong(l: Int64)
    | JavaDouble
    | JavaCharacter(c: char)
    | JavaFloat
    | CompiledPattern(source: string) // a java.util.regex.Pattern, with its source text
    | ListValue(items: seq<HostValue>) // a java.util.List
    | OtherObject(className: string)

  /** The library's atomic values, tagged by type. */
  datatype AtomicValue =
    | UntypedAtomic(text: string)
    | StringValue(s: string)
    | BooleanValue(b: bool)
    | Int64Value(i: int)
    | BigIntegerValue(i: int)
    | DoubleValue
    | FloatValue

  /** What a variable is bound to: one atomic value, or a sequence (empty for no values). */
  datatype ValueRepresentation = Atomic(value: AtomicValue) | Sequence(items: seq<AtomicValue>)

  datatype MarshalError =
    | UnsupportedValueKind(value: HostValue) // "Unable to create ValueRepresentation for value of type ..."
    | NotAList(value: HostValue)             // a multi-valued property whose value is not a List

  /** The host kinds that have an atomic representation. */
  predicate IsScalar(v: HostValue)
  {
    !v.ListValue? && !v.OtherObject?
  }

  /** The host kinds that convert through their text. */
  predicate IsTextual(v: HostValue)
  {
    v.EnumConstant? || v.JavaString? || v.JavaCharacter? || v.CompiledPattern?
  }

  /** The text a textual host value converts through (`toString`/`String.valueOf`). */
  function TextOf(v: HostValue): string
    requires IsTextual(v)
  {
    match v
    case EnumConstant(t) => t
    case JavaString(s) => s
    case JavaCharacter(c) => [c]
    case CompiledPattern(p) => p
  }

  /** `getAtomicRepresentation`. */
  function GetAtomicRepresentation(v: HostValue): (r: Result<AtomicValue, MarshalError>)
    ensures r.Success? <==> IsScalar(v)
    ensures r.Failure? ==> r.error == UnsupportedValueKind(v)
    ensures v.Null? ==> r == Success(UntypedAtomic(""))
    ensures IsTextual(v) ==> r == Success(StringValue(TextOf(v)))
    ensures r.Success? && r.value.StringValue? ==> IsTextual(v)
    ensures v.JavaBoolean? ==> r == Success(BooleanValue(v.b))
    ensures v.JavaInteger? ==> r == Success(Int64Value(v.i))
    ensures v.JavaLong? ==> r == Success(BigIntegerValue(v.l))
    ensures v.JavaDouble? <==> r == Success(DoubleValue)
    ensures v.JavaFloat? <==> r == Success(FloatValue)
  {
    match v
    case Null => Success(UntypedAtomic(""))
    case EnumConstant(t) => Success(StringValue(t))
    case JavaString(s) => Success(StringValue(s))
    case JavaBoolean(b) => Success(BooleanValue(b))
    case JavaInteger(i) => Success(Int64Value(i))
    case JavaLong(l) => Success(BigIntegerValue(l))
    case JavaDouble => Success(DoubleValue)
    case JavaCharacter(c) => Success(StringValue([c]))
    case JavaFloat => Success(FloatValue)
    case CompiledPattern(p) => Success(StringValue(p))
    case _ => Failure(UnsupportedValueKind(v))
  }

  /** Element-wise conversion of a list, stopping at its first unsupported element. */
  function ConvertAll(items: seq<HostValue>): (r: Result<seq<AtomicValue>, MarshalError>)
    ensures r.Success? ==> |r.value| == |items|
    decreases |items|
  {
    if items == [] then Success([])
    else
      match ConvertAll(items[..|items| - 1])
      case Failure(e) => Failure(e)
      case Success(done) =>
        match GetAtomicRepresentation(items[|items| - 1])
        case Failure(e) => Failure(e)
        case Success(a) => Success(done + [a])
  }

  /**
   * The conversion of a list succeeds exactly when every element is a scalar,
   * and then converts element by element, keeping length and order; otherwise
   * it reports the first element that is not.
   */
  lemma {:induction false} ConvertAllElementwise(items: seq<HostValue>)
    ensures ConvertAll(items).Success? <==> forall i :: 0 <= i < |items| ==> IsScalar(items[i])
    ensures ConvertAll(items).Success? ==>
              forall i :: 0 <= i < |items| ==> GetAtomicRepresentation(items[i]) == Success(ConvertAll(items).value[i])
    ensures ConvertAll(items).Failure? ==>
              (exists k :: 0 <= k < |items| && !IsScalar(items[k]) &&
                (forall i :: 0 <= i < k ==> IsScalar(items[i])) &&
                ConvertAll(items).error == UnsupportedValueKind(items[k]))
    decreases |items|
  {
    if items != [] {
      var n := |items| - 1;
      var front := items[..n];
      ConvertAllElementwise(front);
      assert forall i :: 0 <= i < n ==> items[i] == front[i];
      if ConvertAll(front).Failure? {
        var k :| 0 <= k < |front| && !IsScalar(front[k]) &&
                (forall i :: 0 <= i < k ==> IsScalar(front[i])) &&
                ConvertAll(front).error == UnsupportedValueKind(front[k]);
        assert items[k] == front[k];
      } else if !IsScalar(items[n]) {
        assert ConvertAll(items).error == UnsupportedValueKind(items[n]);
      }
    }
  }

  /** `getSequenceRepresentation`: null or empty gives the empty sequence, otherwise a filled array. */
  method GetSequenceRepresentation(list: Option<seq<HostValue>>) returns (r: Result<ValueRepresentation, MarshalError>)
    ensures list.None? || list == Some([]) ==> r == Success(Sequence([]))
    ensures list.Some? ==> r == match ConvertAll(list.value)
                               case Success(items) => Success(Sequence(items))
                               case Failure(e) => Failure(e)
  {
    if list.None? || list.value == [] {
      return Success(Sequence([]));
    }
    var items := list.value;
    var converted: seq<AtomicValue> := [];
    for i := 0 to |items|
      invariant ConvertAll(items[..i]) == Success(converted)
    {
      assert items[..i + 1][..i] == items[..i];
      var a := GetAtomicRepresentation(items[i]);
      if a.Failure? {
        assert ConvertAll(items[..i + 1]) == Failure(a.error);
        ConvertAllFailureExtends(items, i + 1);
        return Failure(a.error);
      }
      converted := converted + [a.value];
    }
    assert items[..|items|] == items;
    r := Success(Sequence(converted));
  }

  /** A failure on a prefix is the failure of the whole list. */
  lemma {:induction false} ConvertAllFailureExtends(items: seq<HostValue>, n: nat)
    requires n <= |items| && ConvertAll(items[..n]).Failure?
    ensures ConvertAll(items) == ConvertAll(items[..n])
    decreases |items| - n
  {
    if n < |items| {
      assert items[..n + 1][..n] == items[..n];
      ConvertAllFailureExtends(items, n + 1);
    } else {
      assert items[..n] == items;
    }
  }

  /** `getRepresentation`: a multi-valued property is cast to a List, a single one converted directly. */
  function GetRepresentation(multiValued: bool, v: HostValue): (r: Result<ValueRepresentation, MarshalError>)
    ensures !multiValued ==> (r.Success? <==> IsScalar(v))
    ensures !multiValued && r.Success? ==> r.value.Atomic?
    ensures multiValued && r.Success? ==> r.value.Sequence?
    ensures multiValued ==> (r.Success? <==> v.Null? || (v.ListValue? && forall i :: 0 <= i < |v.items| ==> IsScalar(v.items[i])))
    ensures multiValued && v.ListValue? && r.Success? ==> |r.value.items| == |v.items|
    ensures multiValued && !v.Null? && !v.ListValue? ==> r == Failure(NotAList(v))
  {
    if multiValued then
      match v
      case Null => Success(Sequence([]))
      case ListValue(items) =>
        ConvertAllElementwise(items);
        (match ConvertAll(items)
         case Success(converted) => Success(Sequence(converted))
         case Failure(e) => Failure(e))
      case _ => Failure(NotAList(v))
    else
      match GetAtomicRepresentation(v)
      case Success(a) => Success(Atomic(a))
      case Failure(e) => Failure(e)
  }
}
