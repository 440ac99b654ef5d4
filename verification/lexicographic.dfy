/**
 * The order on attribute keys: the first differing character decides, and a
 * proper prefix sorts first. This is Ruby's String#<=> on strings; Ruby
 * compares UTF-8 bytes, and UTF-8 preserves code-point order, so comparing
 * characters gives the same answer. The expected tags list their attributes
 * in this order of their keys (charset, href, media, rel, type).
 */
module Lexicographic {

  /** `a` sorts strictly before `b`. */
  predicate Less(a: string, b: string)
  {
    if |a| == 0 then |b| > 0
    else if |b| == 0 then false
    else if a[0] != b[0] then a[0] < b[0]
    else Less(a[1..], b[1..])
  }

  /** `a` and `b` have the same first `k` characters. */
  ghost predicate AgreeUpTo(a: string, b: string, k: nat)
    requires k <= |a| && k <= |b|
  {
    forall j :: 0 <= j < k ==> a[j] == b[j]
  }

  /**
   * Reference definition of the order: `a` is a proper prefix of `b`, or the
   * first position where they differ holds a smaller character in `a`.
   */
  ghost predicate LessByFirstDifference(a: string, b: string)
  {
    || (|a| < |b| && AgreeUpTo(a, b, |a|))
    || exists k :: 0 <= k < |a| && k < |b| && AgreeUpTo(a, b, k) && a[k] < b[k]
  }

  /** The recursive comparison and the first-difference definition agree. */
  lemma {:induction false} LessMatchesFirstDifference(a: string, b: string)
    ensures Less(a, b) <==> LessByFirstDifference(a, b)
    decreases |a|
  {
    if |a| == 0 {
      assert AgreeUpTo(a, b, 0);
    } else if |b| == 0 {
    } else if a[0] != b[0] {
      assert AgreeUpTo(a, b, 0);
      if LessByFirstDifference(a, b) {
        var k :| 0 <= k < |a| && k < |b| && AgreeUpTo(a, b, k) && a[k] < b[k];
        assert k == 0;
      }
    } else {
      var a', b' := a[1..], b[1..];
      LessMatchesFirstDifference(a', b');
      if LessByFirstDifference(a', b') {
        if |a'| < |b'| && AgreeUpTo(a', b', |a'|) {
          assert AgreeUpTo(a, b, |a|) by {
            forall j | 0 <= j < |a| ensures a[j] == b[j] {
              if j > 0 { assert a[j] == a'[j - 1] && b[j] == b'[j - 1]; }
            }
          }
        } else {
          var k :| 0 <= k < |a'| && k < |b'| && AgreeUpTo(a', b', k) && a'[k] < b'[k];
          assert AgreeUpTo(a, b, k + 1) by {
            forall j | 0 <= j < k + 1 ensures a[j] == b[j] {
              if j > 0 { assert a[j] == a'[j - 1] && b[j] == b'[j - 1]; }
            }
          }
          assert a[k + 1] < b[k + 1];
        }
      }
      if LessByFirstDifference(a, b) {
        if |a| < |b| && AgreeUpTo(a, b, |a|) {
          assert AgreeUpTo(a', b', |a'|) by {
            forall j | 0 <= j < |a'| ensures a'[j] == b'[j] {
              assert a'[j] == a[j + 1] && b'[j] == b[j + 1];
            }
          }
        } else {
          var k :| 0 <= k < |a| && k < |b| && AgreeUpTo(a, b, k) && a[k] < b[k];
          assert k > 0;
          assert AgreeUpTo(a', b', k - 1) by {
            forall j | 0 <= j < k - 1 ensures a'[j] == b'[j] {
              assert a'[j] == a[j + 1] && b'[j] == b[j + 1];
            }
          }
          assert a'[k - 1] < b'[k - 1];
        }
      }
    }
  }

  /** No string sorts before itself. */
  lemma {:induction false} LessIrreflexive(a: string)
    ensures !Less(a, a)
    decreases |a|
  {
    if |a| > 0 {
      LessIrreflexive(a[1..]);
    }
  }

  lemma {:induction false} LessTransitive(a: string, b: string, c: string)
    requires Less(a, b) && Less(b, c)
    ensures Less(a, c)
    decreases |a|
  {
    if |a| > 0 && a[0] == b[0] && b[0] == c[0] {
      LessTransitive(a[1..], b[1..], c[1..]);
    }
  }

  lemma LessAsymmetric(a: string, b: string)
    requires Less(a, b)
    ensures !Less(b, a)
  {
    if Less(b, a) {
      LessTransitive(a, b, a);
      LessIrreflexive(a);
    }
  }

  /** Any two distinct strings are ordered one way or the other. */
  lemma {:induction false} LessConnected(a: string, b: string)
    requires a != b
    ensures Less(a, b) || Less(b, a)
    decreases |a|
  {
    if |a| > 0 && |b| > 0 && a[0] == b[0] {
      assert a == [a[0]] + a[1..] && b == [b[0]] + b[1..];
      LessConnected(a[1..], b[1..]);
    }
  }
}
