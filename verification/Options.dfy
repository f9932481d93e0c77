/** Values that may be absent. */
module Options {
  datatype Option<+T> = None | Some(value: T)

  /** A number that is not in the set. */
  lemma Above(xs: set<nat>) returns (y: nat)
    ensures y !in xs && forall x :: x in xs ==> x < y
  {
    y := 0;
    if xs != {} {
      var x :| x in xs;
      var z := Above(xs - {x});
      y := if x < z then z else x + 1;
      assert forall w :: w in xs ==> w == x || w in xs - {x};
    }
  }
}
