/** Sequence facts shared by several modules. */
module Sequences {

  function Reverse<T>(s: seq<T>): (r: seq<T>)
    ensures |r| == |s|
  {
    if s == [] then [] else [s[|s| - 1]] + Reverse(s[..|s| - 1])
  }

  lemma {:induction false} ReverseEmpty<T>()
    ensures Reverse<T>([]) == []
  {
  }

  lemma {:induction false} ReverseSnoc<T>(s: seq<T>, x: T)
    ensures Reverse(s + [x]) == [x] + Reverse(s)
  {
    assert (s + [x])[..|s|] == s;
  }

  /** `r` holds the elements of `s` at the positions `ks`, in order. */
  predicate Picked<T(==)>(s: seq<T>, ks: seq<nat>, r: seq<T>) {
    && |ks| == |r|
    && (forall m :: 0 <= m < |ks| ==> ks[m] < |s| && r[m] == s[ks[m]])
    && forall l, m :: 0 <= l < m < |ks| ==> ks[l] < ks[m]
  }

  lemma {:induction false} NonePicked<T>()
    ensures Picked<T>([], [], [])
  {
  }

  lemma {:induction false} PickNext<T>(s: seq<T>, ks: seq<nat>, r: seq<T>, x: T)
    requires Picked(s, ks, r)
    ensures Picked(s + [x], ks, r) && Picked(s + [x], ks + [|s|], r + [x]) && |s| !in ks
  {
  }
}
