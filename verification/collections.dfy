/** `Collection+`: bounds-checked element access on an integer-indexed
    collection. Only the upper bound is checked, so an index below the start
    index is a precondition, as it traps in the subscript. */
module Collections {
  import opened Wrappers

  /** `get(orNil:)`. */
  function GetOrNil<T>(s: seq<T>, i: int): (r: Option<T>)
    requires 0 <= i
    ensures r.Some? <==> i < |s|
    ensures r.Some? ==> r.value == s[i] && r.value in s
  {
    if i < |s| then Some(s[i]) else None
  }

  /** The element `get(orElse:_:)` returns, and whether it called the supplier:
      `??` evaluates its right-hand side lazily. */
  datatype Fetched<T> = Fetched(element: T, supplierCalled: bool)

  /** `get(orElse:_:)`. */
  function GetOrElse<T>(s: seq<T>, i: int, supplier: () -> T): (r: Fetched<T>)
    requires 0 <= i
    ensures r.supplierCalled <==> |s| <= i
    ensures r.element == if i < |s| then s[i] else supplier()
  {
    match GetOrNil(s, i)
    case Some(element) => Fetched(element, false)
    case None => Fetched(supplier(), true)
  }

  /** `get(orThrow:_:)`: a thrown error is a `Failure`. */
  function GetOrThrow<T, E>(s: seq<T>, i: int, supplier: () -> E): (r: Result<T, E>)
    requires 0 <= i
    ensures r.Success? <==> i < |s|
    ensures r.Success? ==> r.value == s[i]
    ensures r.Failure? ==> r.error == supplier()
  {
    match GetOrNil(s, i)
    case Some(element) => Success(element)
    case None => Failure(supplier())
  }

  /** The three accessors agree: when `get(orNil:)` finds an element the other
      two return it without calling their suppliers, and when it finds none
      `get(orElse:_:)` falls back to its supplier exactly where
      `get(orThrow:_:)` throws. */
  lemma AccessorsAgree<T, E>(s: seq<T>, i: int, orElse: () -> T, orThrow: () -> E)
    requires 0 <= i
    ensures GetOrNil(s, i).Some? ==>
              && GetOrElse(s, i, orElse) == Fetched(GetOrNil(s, i).value, false)
              && GetOrThrow(s, i, orThrow) == Success(GetOrNil(s, i).value)
    ensures GetOrNil(s, i).None? ==>
              && GetOrElse(s, i, orElse) == Fetched(orElse(), true)
              && GetOrThrow(s, i, orThrow) == Failure(orThrow())
  {
  }
}
