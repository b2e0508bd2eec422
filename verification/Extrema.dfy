/** The least and greatest member of a finite set of naturals. */
module Extrema {

  predicate IsLeast(s: set<nat>, k: nat) {
    k in s && forall j :: j in s ==> k <= j
  }

  predicate IsGreatest(s: set<nat>, k: nat) {
    k in s && forall j :: j in s ==> j <= k
  }

  lemma {:induction false} HasLeast(s: set<nat>)
    requires s != {}
    ensures exists k :: IsLeast(s, k)
  {
    var x :| x in s;
    var smaller := set j | j in s && j < x;
    if smaller == {} {
      assert forall j :: j in s ==> j !in smaller;
      assert IsLeast(s, x);
    } else {
      assert x !in smaller;
      HasLeast(smaller);
      var k: nat :| IsLeast(smaller, k);
      assert k < x && forall j :: j in s ==> x <= j || j in smaller;
      assert IsLeast(s, k);
    }
  }

  lemma {:induction false} HasGreatest(s: set<nat>)
    requires s != {}
    ensures exists k :: IsGreatest(s, k)
  {
    var x :| x in s;
    var larger := set j | j in s && j > x;
    if larger == {} {
      assert forall j :: j in s ==> j !in larger;
      assert IsGreatest(s, x);
    } else {
      assert x !in larger;
      HasGreatest(larger);
      var k: nat :| IsGreatest(larger, k);
      assert k > x && forall j :: j in s ==> j <= x || j in larger;
      assert IsGreatest(s, k);
    }
  }

  function Least(s: set<nat>): (k: nat)
    requires s != {}
    ensures k in s && forall j :: j in s ==> k <= j
  {
    HasLeast(s);
    var k :| k in s && IsLeast(s, k);
    k
  }

  function Greatest(s: set<nat>): (k: nat)
    requires s != {}
    ensures k in s && forall j :: j in s ==> j <= k
  {
    HasGreatest(s);
    var k :| k in s && IsGreatest(s, k);
    k
  }
}
