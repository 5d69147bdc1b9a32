/** `Optional+`: a printable description of an optional value.
    `String(describing:)` is the parameter `describing`. */
module OptionalDescribe {
  import opened Wrappers

  /** What `describe()` prints for nil. */
  const NilText: string := "<nil>"

  /** `describe(onNil:)`. */
  function DescribeOnNil<T>(o: Option<T>, onNil: string, describing: T -> string): (r: string)
    ensures o.None? ==> r == onNil
    ensures o.Some? ==> r == describing(o.value)
  {
    match o
    case Some(v) => describing(v)
    case None => onNil
  }

  /** `describe()`. */
  function Describe<T>(o: Option<T>, describing: T -> string): (r: string)
    ensures o.None? ==> r == "<nil>"
    ensures o.Some? ==> r == describing(o.value)
  {
    match o
    case Some(v) => describing(v)
    case None => NilText
  }

  /** The two overloads agree, `describe()` using "<nil>" as its default. */
  lemma DescribeIsDescribeOnNil<T>(o: Option<T>, describing: T -> string)
    ensures Describe(o, describing) == DescribeOnNil(o, "<nil>", describing)
  {
  }
}
