/**
 * The memoization cell notstd::optional<T>.
 *
 * An `optional` owns either no object (`value_ == nullptr`) or one heap copy
 * of a T. Its abstract value is an `Option<T>`; the class keeps it in the
 * field `contents`, which the two assignment operators replace in place.
 * There is no reset: once a value is present, every operation leaves one.
 */
module OptionalCell {

  datatype Option<T> = None | Some(value: T)

  class Optional<T> {
    var contents: Option<T>

    /** `optional()`: `value_` is null. */
    constructor ()
      ensures !HasValue()
    {
      contents := None;
    }

    /** `optional(const value_type&)`: owns a copy of `v`. */
    constructor Of(v: T)
      ensures HasValue() && Value() == v
    {
      contents := Some(v);
    }

    /**
     * `optional(const optional&)`: copies `*other.value_` without checking
     * it, so the source must hold a value.
     */
    constructor Copy(other: Optional<T>)
      requires other.HasValue()
      ensures HasValue() && Value() == other.Value()
    {
      contents := Some(other.contents.value);
    }

    /** `operator=(const optional&)`: copy, then swap; the source must hold a value. */
    method CopyAssign(other: Optional<T>)
      requires other.HasValue()
      modifies this
      ensures HasValue() && Value() == old(other.Value())
      ensures other != this ==> other.contents == old(other.contents)
    {
      var tmp := new Optional.Copy(other);
      contents, tmp.contents := tmp.contents, contents;
    }

    /** `operator=(const value_type&)`: replaces any previous value by `v`. */
    method Assign(v: T)
      modifies this
      ensures HasValue() && Value() == v
    {
      contents := Some(v);
    }

    /** `has_value()`: `value_ != nullptr`. */
    predicate HasValue()
      reads this
      ensures HasValue() <==> contents != None
    {
      contents.Some?
    }

    /** `value()`: dereferences `value_` unchecked, so it needs a value. */
    function Value(): (v: T)
      reads this
      requires HasValue()
      ensures contents == Some(v)
    {
      contents.value
    }
  }
}
