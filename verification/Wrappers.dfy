/** The optional value and the small sequence facts every module shares. */
module Wrappers {
  datatype Option<+T> = None | Some(value: T)

  lemma TakeAll<T>(s: seq<T>)
    ensures s[..|s|] == s
  {
  }

  lemma SnocPrefix<T>(s: seq<T>, x: T)
    ensures (s + [x])[..|s|] == s
    ensures (s + [x])[|s|] == x
  {
  }
}
