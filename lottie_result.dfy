/** AXrLottieResult: the outcome of an asynchronous task, holding a value
    or the exception it failed with. */
module LottieResults {
  import opened Wrappers

  /** A Java Throwable, known to the model only through its toString(). */
  datatype Throwable = Throwable(text: string)

  datatype LottieResult<V> = LottieResult(value: Option<V>, exception: Option<Throwable>)

  /** `new AXrLottieResult<>(value)`. */
  function FromValue<V>(v: Option<V>): (r: LottieResult<V>)
    ensures r.value == v && r.exception.None?
  {
    LottieResult(v, None)
  }

  /** `new AXrLottieResult<>(exception)`. */
  function FromException<V>(e: Option<Throwable>): (r: LottieResult<V>)
    ensures r.exception == e && r.value.None?
  {
    LottieResult(None, e)
  }

  /** `equals` as written. `identical` says whether `o` is this very object;
      `o` is None for null (and for an object of another class). The
      exception branch compares this result's exception text with itself. */
  predicate EqualsAsWritten<V(==)>(r: LottieResult<V>, o: Option<LottieResult<V>>, identical: bool)
    requires identical ==> o == Some(r)
  {
    if identical then true
    else if o.None? then false
    else if r.value.Some? && o.value.value == r.value then true
    else if r.exception.Some? && o.value.exception.Some? then r.exception.value.text == r.exception.value.text
    else false
  }

  /** `equals` with the exception compared against the other result's. */
  predicate Equals<V(==)>(r: LottieResult<V>, o: Option<LottieResult<V>>, identical: bool)
    requires identical ==> o == Some(r)
  {
    if identical then true
    else if o.None? then false
    else if r.value.Some? && o.value.value == r.value then true
    else if r.exception.Some? && o.value.exception.Some? then r.exception.value.text == o.value.exception.value.text
    else false
  }

  /** As written, any two failure results are equal, whatever their
      exceptions say. */
  lemma AnyTwoFailuresEqualAsWritten<V>(e1: Throwable, e2: Throwable)
    ensures EqualsAsWritten(FromException<V>(Some(e1)), Some(FromException<V>(Some(e2))), false)
  {
  }

  /** A concrete pair: an I/O failure equals a parse failure. */
  lemma DifferentFailuresCompareEqualAsWritten()
    ensures var a := FromException<int>(Some(Throwable("java.io.IOException")));
            var b := FromException<int>(Some(Throwable("java.lang.NumberFormatException")));
            EqualsAsWritten(a, Some(b), false) && a.exception != b.exception
  {
    AnyTwoFailuresEqualAsWritten<int>(Throwable("java.io.IOException"), Throwable("java.lang.NumberFormatException"));
  }

  /** The intended equality: reflexive, false for null, true for equal
      non-null values, and for two failures exactly when their exception
      texts agree. */
  lemma EqualsMeaning<V>(r: LottieResult<V>, o: LottieResult<V>)
    ensures Equals(r, Some(r), true)
    ensures !Equals(r, None, false)
    ensures r.value.Some? && r.value == o.value ==> Equals(r, Some(o), false)
    ensures r.value.None? && r.exception.Some? && o.exception.Some? ==>
              (Equals(r, Some(o), false) <==> r.exception.value.text == o.exception.value.text)
    ensures r.value.None? && (r.exception.None? || o.exception.None?) ==> !Equals(r, Some(o), false)
  {
  }

  /** Between results built by the two constructors, the intended equality
      is symmetric. */
  lemma EqualsSymmetricOnConstructed<V>(r: LottieResult<V>, o: LottieResult<V>)
    requires r.value.None? || r.exception.None?
    requires o.value.None? || o.exception.None?
    ensures Equals(r, Some(o), false) == Equals(o, Some(r), false)
  {
  }

  /** A result holding neither value nor exception equals no other object,
      not even a field-for-field copy. */
  lemma EmptyResultEqualsOnlyItself<V>(r: LottieResult<V>)
    requires r.value.None? && r.exception.None?
    ensures !Equals(r, Some(r), false) && !EqualsAsWritten(r, Some(r), false)
  {
  }
}
