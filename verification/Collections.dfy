/** A fact about sets that has to be named. */
module Collections {

  lemma Pick<T>(s: set<T>) returns (x: T)
    requires s != {}
    ensures x in s
  {
    x :| x in s;
  }

  /** Sets that a function maps onto each other one to one have the same size. */
  lemma {:induction false} SameSize<T, U>(a: set<T>, b: set<U>, f: T -> U)
    requires forall x :: x in a ==> f(x) in b
    requires forall y :: y in b ==> exists x :: x in a && f(x) == y
    requires forall x, y :: x in a && y in a && f(x) == f(y) ==> x == y
    ensures |a| == |b|
    decreases |a|
  {
    if a == {} {
      if b != {} {
        var y := Pick(b);
      }
    } else {
      var x := Pick(a);
      forall y | y in b - {f(x)}
        ensures exists z :: z in a - {x} && f(z) == y
      {
        var z :| z in a && f(z) == y;
      }
      SameSize(a - {x}, b - {f(x)}, f);
    }
  }
}
