/** Order-preserving filtering, shared by the list comprehensions of the preprocessing scripts. */
module Sequences {

  /** `r` is `s` with some elements left out and the rest in order. */
  ghost predicate Subsequence<T>(r: seq<T>, s: seq<T>)
    decreases |s|
  {
    if r == [] then true
    else if s == [] then false
    else if r[0] == s[0] then Subsequence(r[1..], s[1..])
    else Subsequence(r, s[1..])
  }
}
