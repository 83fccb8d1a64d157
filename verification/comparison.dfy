/**
 * The free comparison operators of simple_vector.h. Each one looks only at
 * the elements `[begin(), end())` of its two vectors, so each is stated here
 * on the two element sequences (`SimpleVector.Elems()`). Only `==` and `<`
 * do any work (`std::equal` and `std::lexicographical_compare`); the other
 * four are written in terms of those two, as in the source.
 */
module Comparison {

  /** `operator==`: `std::equal` over the two ranges, lengths included. */
  function Equal(lhs: seq<int>, rhs: seq<int>): (r: bool)
    ensures r <==> |lhs| == |rhs| && forall i :: 0 <= i < |lhs| ==> lhs[i] == rhs[i]
    ensures r <==> lhs == rhs
  {
    if lhs == [] || rhs == [] then lhs == [] && rhs == []
    else lhs[0] == rhs[0] && Equal(lhs[1..], rhs[1..])
  }

  /** `operator!=`: the negation of `==`. */
  function NotEqual(lhs: seq<int>, rhs: seq<int>): (r: bool)
    ensures r <==> lhs != rhs
  {
    !Equal(lhs, rhs)
  }

  /**
   * `operator<`: `std::lexicographical_compare`. The end of `rhs` is examined
   * first, then the end of `lhs`, then the two current elements. A proper
   * prefix is less than the sequence it starts.
   */
  function Less(lhs: seq<int>, rhs: seq<int>): (r: bool)
    ensures |lhs| < |rhs| && lhs == rhs[..|lhs|] ==> r
  {
    if rhs == [] then false
    else if lhs == [] then true
    else if lhs[0] < rhs[0] then true
    else if rhs[0] < lhs[0] then false
    else Less(lhs[1..], rhs[1..])
  }

  /** `operator<=`, written in the source as `!(rhs < lhs)`. */
  function LessOrEqual(lhs: seq<int>, rhs: seq<int>): (r: bool)
    ensures r <==> Less(lhs, rhs) || lhs == rhs
  {
    LessTrichotomy(lhs, rhs);
    LessAsymmetric(lhs, rhs);
    LessIrreflexive(lhs);
    !Less(rhs, lhs)
  }

  /** `operator>`, written in the source as `rhs < lhs`. */
  function Greater(lhs: seq<int>, rhs: seq<int>): (r: bool)
    ensures r <==> !Less(lhs, rhs) && lhs != rhs
  {
    LessTrichotomy(lhs, rhs);
    LessAsymmetric(lhs, rhs);
    LessIrreflexive(lhs);
    Less(rhs, lhs)
  }

  /** `operator>=`, written in the source as `rhs <= lhs`. */
  function GreaterOrEqual(lhs: seq<int>, rhs: seq<int>): (r: bool)
    ensures r <==> Less(rhs, lhs) || lhs == rhs
    ensures r <==> !Less(lhs, rhs)
  {
    LessOrEqual(rhs, lhs)
  }

  /**
   * The reference definition of lexicographic order: at position `k` both
   * sequences agree on everything before, and either `lhs` has ended there
   * while `rhs` has not, or `lhs` holds the smaller element there.
   */
  ghost predicate FirstDifferenceAt(lhs: seq<int>, rhs: seq<int>, k: nat)
  {
    k <= |lhs| && k < |rhs| && lhs[..k] == rhs[..k] && (k == |lhs| || lhs[k] < rhs[k])
  }

  /** `Less` is exactly lexicographic order. */
  lemma {:induction false} LessIffFirstDifference(lhs: seq<int>, rhs: seq<int>)
    ensures Less(lhs, rhs) <==> exists k: nat :: FirstDifferenceAt(lhs, rhs, k)
  {
    if rhs == [] {
    } else if lhs == [] {
      assert FirstDifferenceAt(lhs, rhs, 0);
    } else if lhs[0] < rhs[0] {
      assert FirstDifferenceAt(lhs, rhs, 0);
    } else if rhs[0] < lhs[0] {
      forall k: nat | FirstDifferenceAt(lhs, rhs, k)
        ensures false
      {
      }
    } else {
      LessIffFirstDifference(lhs[1..], rhs[1..]);
      if Less(lhs, rhs) {
        var k: nat :| FirstDifferenceAt(lhs[1..], rhs[1..], k);
        assert lhs[..k + 1] == [lhs[0]] + lhs[1..][..k];
        assert rhs[..k + 1] == [rhs[0]] + rhs[1..][..k];
        assert FirstDifferenceAt(lhs, rhs, k + 1);
      } else {
        forall k: nat | FirstDifferenceAt(lhs, rhs, k)
          ensures false
        {
          assert k > 0;
          assert lhs[1..][..k - 1] == lhs[..k][1..];
          assert rhs[1..][..k - 1] == rhs[..k][1..];
          assert FirstDifferenceAt(lhs[1..], rhs[1..], k - 1);
        }
      }
    }
  }

  /** No sequence is less than itself. */
  lemma {:induction false} LessIrreflexive(s: seq<int>)
    ensures !Less(s, s)
  {
    if s != [] {
      LessIrreflexive(s[1..]);
    }
  }

  /** `<` never holds both ways. */
  lemma {:induction false} LessAsymmetric(lhs: seq<int>, rhs: seq<int>)
    ensures Less(lhs, rhs) ==> !Less(rhs, lhs)
  {
    if lhs != [] && rhs != [] && lhs[0] == rhs[0] {
      LessAsymmetric(lhs[1..], rhs[1..]);
    }
  }

  /** `<` is transitive. */
  lemma {:induction false} LessTransitive(a: seq<int>, b: seq<int>, c: seq<int>)
    requires Less(a, b) && Less(b, c)
    ensures Less(a, c)
  {
    if a != [] && a[0] == b[0] && b[0] == c[0] {
      LessTransitive(a[1..], b[1..], c[1..]);
    }
  }

  /** Any two sequences are ordered one way, or equal. */
  lemma {:induction false} LessTrichotomy(lhs: seq<int>, rhs: seq<int>)
    ensures Less(lhs, rhs) || lhs == rhs || Less(rhs, lhs)
  {
    if lhs != [] && rhs != [] && lhs[0] == rhs[0] {
      LessTrichotomy(lhs[1..], rhs[1..]);
      if lhs[1..] == rhs[1..] {
        assert lhs == [lhs[0]] + lhs[1..];
        assert rhs == [rhs[0]] + rhs[1..];
      }
    }
  }

  /** The six operators agree: equality is "neither is less than the other". */
  lemma EqualIffNeitherLess(lhs: seq<int>, rhs: seq<int>)
    ensures Equal(lhs, rhs) <==> LessOrEqual(lhs, rhs) && GreaterOrEqual(lhs, rhs)
  {
    LessAsymmetric(lhs, rhs);
  }
}
