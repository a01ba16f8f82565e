/**
 * Small facts about sequence concatenation, slicing and update. They are
 * stated over plain sequences so that the proofs that use them only have to
 * match terms, away from the recursive definitions they are applied to.
 */
module Sequences {

  /** Dropping the last element of `a + b` drops it from `b`. */
  lemma AppendDropLast<T>(a: seq<T>, b: seq<T>)
    requires b != []
    ensures (a + b)[..|a + b| - 1] == a + b[..|b| - 1]
    ensures (a + b)[|a + b| - 1] == b[|b| - 1]
  {
  }

  lemma ConcatAssociates<T>(x: seq<T>, y: seq<T>, z: seq<T>)
    ensures (x + y) + z == x + (y + z)
  {
  }

  /** Replacing element `j` is splicing the new element between the two untouched parts. */
  lemma UpdateSplits<T>(s: seq<T>, j: nat, x: T)
    requires j < |s|
    ensures s[j := x] == s[..j] + [x] + s[j + 1..]
  {
  }

  /** An empty piece in the middle of a concatenation can be dropped. */
  lemma DropEmptyMiddle<T>(a: seq<T>, mid: seq<T>, b: seq<T>, aMid: seq<T>, whole: seq<T>)
    requires mid == [] && aMid == a + mid && whole == aMid + b
    ensures whole == a + b
  {
  }

  /** Extending `start + a` by `b` is extending `start` by `a + b`. */
  lemma ExtendedBy<T>(start: seq<T>, a: seq<T>, b: seq<T>, ab: seq<T>, before: seq<T>, after: seq<T>)
    requires before == start + a && after == before + b && ab == a + b
    ensures after == start + ab
  {
  }

  /** A slice inside the front part of a concatenation is a slice of that part. */
  lemma SliceOfFront<T>(a: seq<T>, b: seq<T>, lo: nat, hi: nat)
    requires lo <= hi <= |a|
    ensures (a + b)[lo .. hi] == a[lo .. hi]
  {
  }

  /** The back part of a concatenation is its slice after the front part. */
  lemma SliceOfBack<T>(a: seq<T>, b: seq<T>)
    ensures (a + b)[|a| .. |a| + |b|] == b
  {
  }
}
