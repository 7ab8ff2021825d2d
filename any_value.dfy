/**
 * The type-erased value notstd::any.
 *
 * An `any` owns one heap object `InnerImpl<T>` that holds a value of the
 * concrete type T it was built from. Here the pair (T, value) is the datatype
 * `Value`; its constructor is the runtime type and `TypeOf` reads it back.
 * The universe of payload types is closed to the four the scheduler's clients
 * use: bool, int, float and string.
 */
module AnyValue {

  /** The concrete type T of an `InnerImpl<T>`. */
  datatype Tag = BoolType | IntType | FloatType | StringType

  /** An `InnerImpl<T>` with its payload `value_`. */
  datatype Value =
    | BoolValue(b: bool)
    | IntValue(i: int)
    | FloatValue(f: real)
    | StringValue(s: string)

  function TypeOf(v: Value): Tag
  {
    match v
    case BoolValue(_) => BoolType
    case IntValue(_) => IntType
    case FloatValue(_) => FloatType
    case StringValue(_) => StringType
  }

  /** The one failure of the core: a reference `dynamic_cast` throws `std::bad_cast`. */
  datatype Error = BadCast

  datatype Result<T> = Success(value: T) | Failure(error: Error)

  /** What a default-constructed `any` holds: `InnerImpl<bool>(false)`, never "nothing". */
  const Default: Value := BoolValue(false)

  /**
   * `dynamic_cast<InnerImpl<T>&>(*inner_)` followed by the dereference: it
   * succeeds exactly when the stored object is an `InnerImpl<T>` for the
   * requested T, and then yields the stored payload unchanged.
   */
  function DynamicCast(v: Value, t: Tag): (r: Result<Value>)
    ensures r.Success? <==> TypeOf(v) == t
    ensures r.Success? ==> r.value == v
  {
    match (t, v)
    case (BoolType, BoolValue(_)) => Success(v)
    case (IntType, IntValue(_)) => Success(v)
    case (FloatType, FloatValue(_)) => Success(v)
    case (StringType, StringValue(_)) => Success(v)
    case _ => Failure(BadCast)
  }

  /**
   * notstd::any. The field `inner` is `inner_`; a `Value` is never absent, so
   * an `Any` always holds something (each constructor allocates `inner_` and
   * no operation clears it).
   */
  class Any {
    var inner: Value

    /** `any()`: stores `bool` false. */
    constructor ()
      ensures inner == Default && TypeOf(inner) == BoolType
    {
      inner := Default;
    }

    /** `any(const T& value)`: stores `value` under its own type T. */
    constructor Of(v: Value)
      ensures inner == v && TypeOf(inner) == TypeOf(v)
    {
      inner := v;
    }

    /** `any(const any& other)`: a deep copy made by `clone`, same type and value. */
    constructor Copy(other: Any)
      ensures inner == other.inner
    {
      inner := other.inner;
    }

    /**
     * `operator=(const any&)`: copy the source into a temporary, then swap
     * the temporary's `inner_` with this one. Correct when `other == this`.
     */
    method CopyAssign(other: Any)
      modifies this
      ensures inner == old(other.inner)
      ensures other != this ==> other.inner == old(other.inner)
    {
      var tmp := new Any.Copy(other);
      inner, tmp.inner := tmp.inner, inner;
    }

    /** `operator=(const T&)`: replaces whatever was stored by `value` under type T. */
    method Assign(v: Value)
      modifies this
      ensures inner == v && TypeOf(inner) == TypeOf(v)
    {
      inner := v;
    }

    /** `cast<T>()`: the stored payload when T is exactly its type, `bad_cast` otherwise. */
    method Cast(t: Tag) returns (r: Result<Value>)
      ensures r.Success? <==> TypeOf(inner) == t
      ensures r.Success? ==> r.value == inner
    {
      r := DynamicCast(inner, t);
    }
  }
}
