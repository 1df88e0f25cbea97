/** Sorting a sequence so that a "goes before or ties" relation holds
    between every earlier and later element. Both sorts of the core (the
    exchange catalog by volume, the volume series by date) are instances. */
module Sorting {

  /** `ge(a, b)` reads "a may come before b": total and transitive. */
  ghost predicate TotalPreorder<T(!new)>(ge: (T, T) -> bool) {
    && (forall a, b :: ge(a, b) || ge(b, a))
    && (forall a, b, c :: ge(a, b) && ge(b, c) ==> ge(a, c))
  }

  predicate SortedBy<T>(s: seq<T>, ge: (T, T) -> bool) {
    forall i, j :: 0 <= i < j < |s| ==> ge(s[i], s[j])
  }

  /** Puts `x` in front of the first element it may precede. */
  function Insert<T(!new)>(x: T, s: seq<T>, ge: (T, T) -> bool): (r: seq<T>)
    requires TotalPreorder(ge)
    requires SortedBy(s, ge)
    ensures SortedBy(r, ge)
    ensures multiset(r) == multiset(s) + multiset{x}
    ensures |r| == |s| + 1
  {
    if |s| == 0 then [x]
    else if ge(x, s[0]) then [x] + s
    else
      var rest := Insert(x, s[1..], ge);
      assert s == [s[0]] + s[1..];
      assert forall k :: 0 <= k < |rest| ==> ge(s[0], rest[k]) by {
        forall k | 0 <= k < |rest|
          ensures ge(s[0], rest[k])
        {
          assert rest[k] in multiset(rest);
          assert rest[k] == x || rest[k] in multiset(s[1..]);
          if rest[k] != x {
            var j :| 0 <= j < |s[1..]| && s[1..][j] == rest[k];
            assert s[1 + j] == rest[k];
          }
        }
      }
      [s[0]] + rest
  }

  /** A stable insertion sort: a sorted permutation of `s`. */
  function Sort<T(!new)>(s: seq<T>, ge: (T, T) -> bool): (r: seq<T>)
    requires TotalPreorder(ge)
    ensures SortedBy(r, ge)
    ensures multiset(r) == multiset(s)
    ensures |r| == |s|
  {
    if |s| == 0 then []
    else
      assert s == [s[0]] + s[1..];
      Insert(s[0], Sort(s[1..], ge), ge)
  }

  /** `a` and `b` may stand in either order: they tie under `ge`. */
  predicate Tied<T>(ge: (T, T) -> bool, a: T, b: T) {
    ge(a, b) && ge(b, a)
  }

  /** Removing one element keeps a sequence sorted and removes exactly
      that element from its multiset. */
  lemma SortedRemove<T>(b: seq<T>, j: nat, ge: (T, T) -> bool)
    requires j < |b|
    requires SortedBy(b, ge)
    ensures SortedBy(b[..j] + b[j + 1..], ge)
    ensures multiset(b[..j] + b[j + 1..]) == multiset(b) - multiset{b[j]}
  {
    var b' := b[..j] + b[j + 1..];
    assert b == b[..j] + [b[j]] + b[j + 1..];
    assert multiset(b) == multiset(b[..j]) + multiset{b[j]} + multiset(b[j + 1..]);
    forall k, l | 0 <= k < l < |b'|
      ensures ge(b'[k], b'[l])
    {
      var k' := if k < j then k else k + 1;
      var l' := if l < j then l else l + 1;
      assert b'[k] == b[k'] && b'[l] == b[l'];
    }
  }

  /** When the first element of `a` sits at `j` in `b`, every element of
      `b` up to `j` ties with it. */
  lemma HeadTiesPrefix<T(!new)>(a: seq<T>, b: seq<T>, j: nat, ge: (T, T) -> bool)
    requires TotalPreorder(ge)
    requires SortedBy(a, ge) && SortedBy(b, ge)
    requires multiset(a) == multiset(b)
    requires 0 < |a| && j < |b| && b[j] == a[0]
    ensures forall k :: 0 <= k <= j ==> Tied(ge, b[k], a[0])
  {
    assert b[0] in multiset(a);
    var m :| 0 <= m < |a| && a[m] == b[0];
    if m > 0 { assert ge(a[0], a[m]); }
    assert ge(a[0], b[0]);
  }

  /** A sort that is not stable may order tied elements either way, but
      any two sorted permutations of the same elements tie position by
      position: which element sits at an index is fixed up to ties. */
  lemma {:induction false} SortedPermutationsTie<T(!new)>(a: seq<T>, b: seq<T>, ge: (T, T) -> bool)
    requires TotalPreorder(ge)
    requires SortedBy(a, ge) && SortedBy(b, ge)
    requires multiset(a) == multiset(b)
    ensures |a| == |b|
    ensures forall i :: 0 <= i < |a| ==> Tied(ge, a[i], b[i])
    decreases |a|
  {
    assert |a| == |multiset(a)| == |multiset(b)| == |b|;
    if |a| > 0 {
      var x := a[0];
      assert x in multiset(b);
      var j :| 0 <= j < |b| && b[j] == x;
      HeadTiesPrefix(a, b, j, ge);
      var b' := b[..j] + b[j + 1..];
      SortedRemove(b, j, ge);
      assert a == [x] + a[1..];
      assert multiset(a[1..]) == multiset(a) - multiset{x};
      SortedPermutationsTie(a[1..], b', ge);
      forall i | 0 < i < |a|
        ensures Tied(ge, a[i], b[i])
      {
        assert a[i] == a[1..][i - 1];
        if i - 1 < j {
          assert b'[i - 1] == b[i - 1];
          assert Tied(ge, b[i - 1], x) && Tied(ge, b[i], x);
        } else {
          assert b'[i - 1] == b[i];
        }
      }
    }
  }
}
