/** Walking a finite set of numbers in ascending order, as an iterator of an ordered map does. */
module NatSets {

  ghost predicate IsLeast(e: nat, s: set<nat>) {
    e in s && forall x :: x in s ==> e <= x
  }

  lemma {:induction false} LeastExists(s: set<nat>)
    requires s != {}
    ensures exists e :: IsLeast(e, s)
  {
    var y: nat :| y in s;
    var rest := s - {y};
    if rest == {} {
      assert s == {y};
      assert IsLeast(y, s);
    } else {
      LeastExists(rest);
      var z: nat :| IsLeast(z, rest);
      assert s == rest + {y};
      assert IsLeast(if y <= z then y else z, s);
    }
  }

  /** The least element of a set that is not empty. */
  method Least(s: set<nat>) returns (e: nat)
    requires s != {}
    ensures IsLeast(e, s)
  {
    LeastExists(s);
    e :| e in s && forall x :: x in s ==> e <= x;
  }
}
