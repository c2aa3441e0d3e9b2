/** The nullable values of the source (a Kotlin `T?`, a C++ `shared_ptr` that may be null). */
module Wrappers {

  datatype Option<+T> = None | Some(value: T)

  /** Kotlin's `x?.let { f(it) }`: apply `f` to a present value, keep an absent one absent. */
  function MapOption<T, U>(o: Option<T>, f: T -> U): (r: Option<U>)
    ensures r.None? <==> o.None?
    ensures o.Some? ==> r.value == f(o.value)
  {
    match o
    case None => None
    case Some(v) => Some(f(v))
  }
}
