/**
 * A model of `Array.prototype.filter` on sequences: it keeps, in order, exactly
 * the elements its callback accepts.
 */
module ArrayFilter {

  /** `a` can be obtained from `b` by deleting elements (order preserved). */
  ghost predicate IsSubsequence<T(!new)>(a: seq<T>, b: seq<T>)
    decreases |b|
  {
    a == [] || (b != [] && ((a[0] == b[0] && IsSubsequence(a[1..], b[1..])) || IsSubsequence(a, b[1..])))
  }

  function Filter<T(!new)>(s: seq<T>, p: T -> bool): (r: seq<T>)
    ensures |r| <= |s|
    ensures forall x :: x in r <==> x in s && p(x)
    ensures forall x :: multiset(r)[x] == if p(x) then multiset(s)[x] else 0
    ensures IsSubsequence(r, s)
  {
    if s == [] then []
    else
      assert s == [s[0]] + s[1..];
      var rest := Filter(s[1..], p);
      if p(s[0]) then [s[0]] + rest else rest
  }

  /** A callback that accepts every element leaves the sequence as it is. */
  lemma {:induction false} FilterKeepsAll<T(!new)>(s: seq<T>, p: T -> bool)
    ensures (forall x :: x in s ==> p(x)) ==> Filter(s, p) == s
  {
    if s != [] && (forall x :: x in s ==> p(x)) {
      assert p(s[0]);
      assert forall x :: x in s[1..] ==> x in s;
      FilterKeepsAll(s[1..], p);
    }
  }

  /** When at most one position is accepted, at most one element survives. */
  lemma {:induction false} FilterAtMostOne<T(!new)>(s: seq<T>, p: T -> bool)
    ensures (forall i, j :: 0 <= i < j < |s| ==> !(p(s[i]) && p(s[j]))) ==> |Filter(s, p)| <= 1
  {
    if s != [] && (forall i, j :: 0 <= i < j < |s| ==> !(p(s[i]) && p(s[j]))) {
      var rest := s[1..];
      assert forall i, j :: 0 <= i < j < |rest| ==> !(p(rest[i]) && p(rest[j])) by {
        forall i, j | 0 <= i < j < |rest| ensures !(p(rest[i]) && p(rest[j])) {
          assert rest[i] == s[i + 1] && rest[j] == s[j + 1];
        }
      }
      FilterAtMostOne(rest, p);
      if p(s[0]) {
        assert forall x :: x in rest ==> !p(x);
      }
    }
  }

  /** The first surviving element is the first element of `s` the callback accepts. */
  lemma {:induction false} FilterHead<T(!new)>(s: seq<T>, p: T -> bool)
    requires Filter(s, p) != []
    ensures exists k :: 0 <= k < |s| && s[k] == Filter(s, p)[0] && p(s[k]) &&
                        forall j :: 0 <= j < k ==> !p(s[j])
  {
    if p(s[0]) {
      assert s[0] == Filter(s, p)[0];
    } else {
      assert Filter(s, p) == Filter(s[1..], p);
      FilterHead(s[1..], p);
      var k :| 0 <= k < |s[1..]| && s[1..][k] == Filter(s[1..], p)[0] && p(s[1..][k]) &&
               forall j :: 0 <= j < k ==> !p(s[1..][j]);
      assert forall j :: 0 <= j < k + 1 ==> !p(s[j]) by {
        forall j | 0 <= j < k + 1 ensures !p(s[j]) {
          if j > 0 { assert s[j] == s[1..][j - 1]; }
        }
      }
      assert s[k + 1] == Filter(s, p)[0];
    }
  }

  /** Filtering two permutations of each other gives permutations of each other. */
  lemma FilterOfPermutation<T(!new)>(a: seq<T>, b: seq<T>, p: T -> bool)
    requires multiset(a) == multiset(b)
    ensures multiset(Filter(a, p)) == multiset(Filter(b, p))
  {
    forall x ensures multiset(Filter(a, p))[x] == multiset(Filter(b, p))[x] {
    }
  }
}
