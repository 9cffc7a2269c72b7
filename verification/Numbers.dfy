/** Comparisons of numbers shared by several modules. */
module Numbers {
  import opened StableSort

  function Least(x: real, y: real): real {
    if y < x then y else x
  }

  function Most(x: real, y: real): real {
    if y > x then y else x
  }

  function Distance(x: real, y: real): real {
    if x < y then y - x else x - y
  }

  predicate AtMost(x: int, y: int) {
    x <= y
  }

  lemma {:induction false} AtMostIsTotal()
    ensures TotalPreorder(AtMost)
  {
  }
}
