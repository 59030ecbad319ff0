/** What several modules share: optional values, the size of a subset, and monotone division. */
module Basics {

  datatype Option<+T> = None | Some(value: T)

  function SaturatingSub(a: nat, b: nat): nat {
    if b <= a then a - b else 0
  }

  lemma {:induction false} SubsetCount<T>(a: set<T>, b: set<T>)
    requires a <= b
    ensures |a| <= |b|
  {
    if a != {} {
      var x :| x in a;
      SubsetCount(a - {x}, b - {x});
    }
  }

  lemma Scale(a: nat, b: nat, d: nat)
    ensures a <= b ==> a * d <= b * d
  {
  }

  lemma QuotientIsMonotone(x: nat, y: nat, d: nat)
    requires d > 0 && x <= y
    ensures x / d <= y / d
  {
    var q := x / d;
    assert q * d <= y;
    assert y < (y / d + 1) * d;
    Scale(y / d + 1, q, d);
  }
}
