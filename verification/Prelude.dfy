/** Vocabulary shared by the whole model: optional values, the clock, and a fact about finite sets. */
module Prelude {

  datatype Option<+T> = None | Some(value: T)

  /** Seconds on the one clock every process reads. */
  type Time = real

  lemma {:induction false} SubsetCardinality<T>(a: set<T>, b: set<T>)
    requires a <= b
    ensures |a| <= |b|
  {
    if a == {} {
    } else {
      var x :| x in a;
      SubsetCardinality(a - {x}, b - {x});
    }
  }
}
