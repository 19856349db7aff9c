/**
 * The general-purpose list primitives the validator relies on:
 * duplicate detection, membership, joining strings with a separator,
 * and counting the entries that are missing from a list of valid values.
 */
module Shared {

  /** No value occurs at two different positions of `s`. */
  predicate IsUnique<T(==)>(s: seq<T>) {
    forall i, j | 0 <= i < j < |s| :: s[i] != s[j]
  }

  /** Extending a list keeps it duplicate-free exactly when the new value is fresh. */
  lemma IsUniqueSnoc<T>(s: seq<T>, x: T)
    ensures IsUnique(s + [x]) <==> IsUnique(s) && x !in s
  {
    var t := s + [x];
    if IsUnique(t) {
      forall i, j | 0 <= i < j < |s| ensures s[i] != s[j] {
        assert t[i] == s[i] && t[j] == s[j];
      }
      forall k | 0 <= k < |s| ensures s[k] != x {
        assert t[k] == s[k] && t[|s|] == x;
      }
    }
  }

  /**
   * The entries of `xs` separated by `sep`, as Go's `strings.Join` builds it:
   * the empty list gives the empty string and the first entry is always a
   * prefix of the result.
   */
  function Join(xs: seq<string>, sep: string): (r: string)
    ensures xs == [] ==> r == ""
    ensures xs != [] ==> xs[0] <= r
  {
    if |xs| == 0 then ""
    else if |xs| == 1 then xs[0]
    else xs[0] + sep + Join(xs[1..], sep)
  }

  /** Joining two non-empty lists puts one separator between their joins. */
  lemma {:induction false} JoinAppend(a: seq<string>, b: seq<string>, sep: string)
    requires a != [] && b != []
    ensures Join(a + b, sep) == Join(a, sep) + sep + Join(b, sep)
  {
    if |a| == 1 {
      assert (a + b)[1..] == b;
    } else {
      assert (a + b)[1..] == a[1..] + b;
      JoinAppend(a[1..], b, sep);
    }
  }

  /** The number of entries of `xs` that are not members of `valid`. */
  function CountNotIn<T(==)>(xs: seq<T>, valid: seq<T>): (n: nat)
    ensures n <= |xs|
    ensures n == 0 <==> forall x | x in xs :: x in valid
  {
    if xs == [] then 0
    else (if xs[0] in valid then 0 else 1) + CountNotIn(xs[1..], valid)
  }

  /** Counting distributes over concatenation. */
  lemma {:induction false} CountNotInAppend<T>(a: seq<T>, b: seq<T>, valid: seq<T>)
    ensures CountNotIn(a + b, valid) == CountNotIn(a, valid) + CountNotIn(b, valid)
  {
    if a != [] {
      assert (a + b)[1..] == a[1..] + b;
      CountNotInAppend(a[1..], b, valid);
    } else {
      assert a + b == b;
    }
  }
}
