/** A value that may be missing, and the first of a set of positions. */
module Options {
  datatype Option<+T> = None | Some(value: T)

  /** The smallest member, if there is one. */
  ghost function FirstOf(s: set<nat>): (r: Option<nat>)
    ensures r.None? <==> s == {}
    ensures r.Some? ==> r.value in s && forall i :: i in s ==> r.value <= i
  {
    if s == {} then None
    else
      var x :| x in s;
      var rest := FirstOf(s - {x});
      assert forall i :: i in s ==> i == x || i in s - {x};
      if rest.Some? && rest.value < x then rest else Some(x)
  }

  lemma {:induction false} FirstIs(s: set<nat>, i: nat)
    requires i in s && forall j: nat :: j < i ==> j !in s
    ensures FirstOf(s) == Some(i)
  {
  }
}
