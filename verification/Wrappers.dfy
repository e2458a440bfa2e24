/** Small datatypes and sequence facts shared by the other modules. */
module Wrappers {

  datatype Option<+T> = None | Some(value: T)

  /** Two prefixes of one sequence are comparable. */
  lemma PrefixesCompare<T>(a: seq<T>, b: seq<T>, whole: seq<T>)
    requires a <= whole && b <= whole
    ensures a <= b || b <= a
  {
    if |a| <= |b| {
      assert a == whole[..|a|] == b[..|a|];
    } else {
      assert b == whole[..|b|] == a[..|b|];
    }
  }
}
