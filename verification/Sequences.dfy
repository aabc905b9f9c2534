/** Sequences with an element put in, taken out or replaced. */
module Sequences {
  /** A sequence without its element k. */
  function Omit<T>(s: seq<T>, k: nat): seq<T>
    requires k < |s|
  {
    s[..k] + s[k + 1..]
  }

  /** t is s with n put in at position k. */
  ghost predicate InsertedAt<T>(t: seq<T>, s: seq<T>, k: nat, n: T) {
    k <= |s| && t == s[..k] + [n] + s[k..]
  }

  /** t is s without its element at position i. */
  ghost predicate RemovedAt<T>(t: seq<T>, s: seq<T>, i: nat) {
    i < |s| && t == Omit(s, i)
  }

  /** The first n elements, or all if there are fewer. */
  ghost function Prefix<T>(s: seq<T>, n: nat): seq<T> { if n < |s| then s[..n] else s }

  lemma {:induction false} OmitLater<T>(s: seq<T>, k: nat)
    requires 0 < k < |s|
    ensures Omit(s, k) != [] && Omit(s, k)[0] == s[0] && Omit(s, k)[1..] == Omit(s[1..], k - 1)
  {
  }

  lemma {:induction false} OmitFirst<T>(s: seq<T>, x: T)
    requires s != []
    ensures Omit(s[0 := x], 0) == s[1..]
  {
  }

  /** Taking out the next element and writing it over this one takes out this one. */
  lemma {:induction false} Overwrite<T>(s: seq<T>, i: nat)
    requires i + 1 < |s|
    ensures Omit(s, i + 1)[i := s[i + 1]] == Omit(s, i)
  {
  }
}
