/** Order-preserving selection from a sequence, the shape shared by every
    filter in the application: the axis choices pick columns, dropping
    missing values picks rows. */
module Sequences {

  /** `a` is obtained from `b` by deleting some elements and keeping the
      order of the rest. */
  ghost predicate IsSubsequence<T>(a: seq<T>, b: seq<T>)
    decreases |b|
  {
    if a == [] then true
    else if b == [] then false
    else (a[0] == b[0] && IsSubsequence(a[1..], b[1..])) || IsSubsequence(a, b[1..])
  }

  /** No element occurs twice. */
  ghost predicate Distinct<T>(s: seq<T>)
  {
    forall i, j :: 0 <= i < j < |s| ==> s[i] != s[j]
  }

  /** A subsequence takes its elements from the sequence it is drawn from. */
  lemma {:induction false} SubsequenceMembers<T>(a: seq<T>, b: seq<T>)
    requires IsSubsequence(a, b)
    ensures forall x :: x in a ==> x in b
    decreases |b|
  {
    if a != [] {
      if a[0] == b[0] && IsSubsequence(a[1..], b[1..]) {
        SubsequenceMembers(a[1..], b[1..]);
        forall x | x in a ensures x in b {
          if x != a[0] {
            assert x in a[1..];
          }
        }
      } else {
        SubsequenceMembers(a, b[1..]);
      }
    }
  }

  /** Selecting from a sequence without repetitions cannot repeat anything. */
  lemma {:induction false} SubsequenceDistinct<T>(a: seq<T>, b: seq<T>)
    requires IsSubsequence(a, b) && Distinct(b)
    ensures Distinct(a)
    decreases |b|
  {
    if a != [] {
      assert Distinct(b[1..]) by {
        forall i, j | 0 <= i < j < |b[1..]| ensures b[1..][i] != b[1..][j] {
          assert b[1..][i] == b[i + 1] && b[1..][j] == b[j + 1];
        }
      }
      if a[0] == b[0] && IsSubsequence(a[1..], b[1..]) {
        SubsequenceDistinct(a[1..], b[1..]);
        SubsequenceMembers(a[1..], b[1..]);
        forall i, j | 0 <= i < j < |a| ensures a[i] != a[j] {
          if i == 0 {
            assert a[j] == a[1..][j - 1];
            assert a[j] in b[1..];
            assert b[0] !in b[1..] by {
              forall k | 0 <= k < |b[1..]| ensures b[1..][k] != b[0] {
                assert b[1..][k] == b[k + 1];
              }
            }
          } else {
            assert a[i] == a[1..][i - 1] && a[j] == a[1..][j - 1];
          }
        }
      } else {
        SubsequenceDistinct(a, b[1..]);
      }
    }
  }

  /** Over a sequence without repetitions, an order-preserving selection is
      determined by which elements it holds: two selections with the same
      members are the same sequence. */
  lemma {:induction false} SubsequenceDeterminedByMembers<T>(a: seq<T>, a': seq<T>, b: seq<T>)
    requires IsSubsequence(a, b) && IsSubsequence(a', b) && Distinct(b)
    requires forall x :: x in a <==> x in a'
    ensures a == a'
    decreases |b|
  {
    if b == [] {
      assert a == [] && a' == [];
    } else {
      var tail := b[1..];
      assert Distinct(tail) by {
        forall i, j | 0 <= i < j < |tail| ensures tail[i] != tail[j] {
          assert tail[i] == b[i + 1] && tail[j] == b[j + 1];
        }
      }
      assert b[0] !in tail by {
        forall k | 0 <= k < |tail| ensures tail[k] != b[0] {
          assert tail[k] == b[k + 1];
        }
      }
      if b[0] in a {
        HeadTaken(a, b);
        HeadTaken(a', b);
        SubsequenceMembers(a[1..], tail);
        SubsequenceMembers(a'[1..], tail);
        forall x ensures x in a[1..] <==> x in a'[1..] {
          if x in a[1..] {
            assert x in a' && x != b[0];
            assert x == a'[0] || x in a'[1..];
          }
          if x in a'[1..] {
            assert x in a && x != b[0];
            assert x == a[0] || x in a[1..];
          }
        }
        SubsequenceDeterminedByMembers(a[1..], a'[1..], tail);
        assert a == [a[0]] + a[1..] && a' == [a'[0]] + a'[1..];
      } else {
        HeadSkipped(a, b);
        HeadSkipped(a', b);
        SubsequenceDeterminedByMembers(a, a', tail);
      }
    }
  }

  /** When `b` has no repetitions and its first element is selected, it is
      the first element selected. */
  lemma HeadTaken<T>(a: seq<T>, b: seq<T>)
    requires IsSubsequence(a, b) && b != [] && b[0] in a && b[0] !in b[1..]
    ensures a != [] && a[0] == b[0] && IsSubsequence(a[1..], b[1..])
  {
    if !(a[0] == b[0] && IsSubsequence(a[1..], b[1..])) {
      SubsequenceMembers(a, b[1..]);
    }
  }

  /** A selection that does not hold the first element is drawn from the rest. */
  lemma HeadSkipped<T>(a: seq<T>, b: seq<T>)
    requires IsSubsequence(a, b) && b != [] && b[0] !in a
    ensures IsSubsequence(a, b[1..])
  {
  }
}
