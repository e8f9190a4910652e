/** Types and small facts shared by every module of the model. */
module Common {

  /** The source's `None`-or-value results. */
  datatype Option<+T> = None | Some(value: T)

  /** A subset is no larger than the set it is taken from. */
  lemma {:induction false} SubsetSize<T>(a: set<T>, b: set<T>)
    requires a <= b
    ensures |a| <= |b|
    decreases a
  {
    if a == {} {
    } else {
      var x :| x in a;
      SubsetSize(a - {x}, b - {x});
    }
  }

  /** A set is no larger than a list that holds all of it. */
  lemma {:induction false} CountAtMost<T>(keys: seq<T>, s: set<T>)
    requires forall k :: k in s ==> k in keys
    ensures |s| <= |keys|
  {
    if s == {} {
    } else {
      var x :| x in s;
      assert x in keys;
      var m := |keys| - 1;
      CountAtMost(keys[..m], s - {keys[m]});
      SubsetSize(s, s - {keys[m]} + {keys[m]});
    }
  }

  /** Two sets that together outnumber a set containing both must meet. */
  lemma MajoritiesMeet<T>(all: set<T>, a: set<T>, b: set<T>) returns (x: T)
    requires a <= all && b <= all
    requires |a| + |b| > |all|
    ensures x in a && x in b
  {
    if a * b == {} {
      assert |a + b| == |a| + |b| - |a * b|;
      SubsetSize(a + b, all);
      assert false;
    }
    x :| x in a * b;
  }
}
