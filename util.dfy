/** Small shared helpers: an optional value and the regrouping of appends. */
module Util {

  datatype Option<T> = None | Some(value: T)

  /** Regrouping a run of appends, kept out of method contexts where the heap makes it costly. */
  lemma AppendRegroup2<T>(a: seq<T>, b: seq<T>, c: seq<T>)
    ensures a + b + c == a + (b + c)
  {
  }

  lemma AppendRegroup3<T>(a: seq<T>, b: seq<T>, c: seq<T>, d: seq<T>)
    ensures a + b + c + d == a + (b + c + d)
  {
  }

  lemma AppendRegroup<T>(a: seq<T>, b: seq<T>, c: seq<T>, d: seq<T>, e: seq<T>)
    ensures a + b + c + d + e == a + (b + c + d + e)
  {
  }
}
