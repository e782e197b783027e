/** Walking a std::set or std::map in key order: the least remaining key comes next. */
module Ordered {

  lemma LeastExists(s: set<nat>) returns (m: nat)
    requires s != {}
    ensures m in s && forall x | x in s :: m <= x
  {
    var x :| x in s;
    if s == {x} {
      m := x;
    } else {
      assert s - {x} != {};
      var k := LeastExists(s - {x});
      m := if x < k then x else k;
      assert forall y | y in s :: y == x || y in s - {x};
    }
  }
}
