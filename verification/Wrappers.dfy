/** Optional values and a few sequence helpers shared by the other modules. */
module Wrappers {
  datatype Option<+T> = None | Some(value: T)

  function Front<T>(s: seq<T>): seq<T>
    requires s != []
  {
    s[..|s| - 1]
  }

  function Last<T>(s: seq<T>): T
    requires s != []
  {
    s[|s| - 1]
  }

  lemma {:induction false} FrontLast<T>(s: seq<T>, x: T)
    ensures Front(s + [x]) == s && Last(s + [x]) == x
  {
  }

  function Reversed<T>(s: seq<T>): seq<T>
  {
    if s == [] then [] else [Last(s)] + Reversed(Front(s))
  }
}
