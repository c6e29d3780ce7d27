/**
 Sequences sorted by a comparison, as `Array.prototype.sort` leaves them: a stable
 permutation of the input in non-decreasing order. Also the default string order,
 which compares code units from the left.
 */
module Sorting {

  ghost predicate TotalPreorder<T(!new)>(leq: (T, T) -> bool) {
    && (forall x, y :: leq(x, y) || leq(y, x))
    && (forall x, y, z :: leq(x, y) && leq(y, z) ==> leq(x, z))
  }

  ghost predicate SortedBy<T(!new)>(s: seq<T>, leq: (T, T) -> bool) {
    forall i, j :: 0 <= i < j < |s| ==> leq(s[i], s[j])
  }

  function Insert<T>(x: T, s: seq<T>, leq: (T, T) -> bool): (r: seq<T>)
    ensures multiset(r) == multiset(s) + multiset{x}
  {
    if s == [] then [x]
    else if leq(x, s[0]) then [x] + s
    else
      assert s == [s[0]] + s[1..];
      [s[0]] + Insert(x, s[1..], leq)
  }

  /** The stable sort: a permutation of `s`. */
  function Sort<T>(s: seq<T>, leq: (T, T) -> bool): (r: seq<T>)
    ensures multiset(r) == multiset(s)
  {
    if s == [] then []
    else
      assert s == [s[0]] + s[1..];
      Insert(s[0], Sort(s[1..], leq), leq)
  }

  lemma {:induction false} InsertKeepsSorted<T(!new)>(x: T, s: seq<T>, leq: (T, T) -> bool)
    requires TotalPreorder(leq) && SortedBy(s, leq)
    ensures SortedBy(Insert(x, s, leq), leq)
  {
    if s == [] {
    } else if leq(x, s[0]) {
      forall j | 0 <= j < |s| ensures leq(x, s[j]) {
        assert leq(s[0], s[j]);
      }
    } else {
      var r := Insert(x, s[1..], leq);
      InsertKeepsSorted(x, s[1..], leq);
      forall j | 0 <= j < |r| ensures leq(s[0], r[j]) {
        InsertMembers(x, s[1..], leq);
        assert r[j] in r;
      }
    }
  }

  lemma InsertMembers<T(!new)>(x: T, s: seq<T>, leq: (T, T) -> bool)
    ensures forall y :: y in Insert(x, s, leq) <==> y == x || y in s
    ensures |Insert(x, s, leq)| == |s| + 1
  {
    var r := Insert(x, s, leq);
    forall y ensures y in r <==> y == x || y in s {
      assert y in r <==> y in multiset(r);
      assert y in s <==> y in multiset(s);
    }
    assert |r| == |multiset(r)|;
  }

  lemma {:induction false} SortIsSorted<T(!new)>(s: seq<T>, leq: (T, T) -> bool)
    requires TotalPreorder(leq)
    ensures SortedBy(Sort(s, leq), leq)
  {
    if s != [] {
      SortIsSorted(s[1..], leq);
      InsertKeepsSorted(s[0], Sort(s[1..], leq), leq);
    }
  }

  lemma SortMembers<T(!new)>(s: seq<T>, leq: (T, T) -> bool)
    ensures forall y :: y in Sort(s, leq) <==> y in s
    ensures |Sort(s, leq)| == |s|
  {
    var r := Sort(s, leq);
    forall y ensures y in r <==> y in s {
      assert y in r <==> y in multiset(r);
      assert y in s <==> y in multiset(s);
    }
    assert |r| == |multiset(r)| && |s| == |multiset(s)|;
  }

  /** Sorting a sequence without repeats leaves it without repeats. */
  lemma SortDistinct<T(!new)>(s: seq<T>, leq: (T, T) -> bool)
    requires Distinct(s)
    ensures Distinct(Sort(s, leq))
  {
    var r := Sort(s, leq);
    DistinctCounts(s);
    forall i, j | 0 <= i < j < |r| ensures r[i] != r[j] {
      TwiceCounts(r, i, j);
    }
  }

  lemma TwiceCounts<T(!new)>(s: seq<T>, i: nat, j: nat)
    requires i < j < |s|
    ensures s[i] == s[j] ==> multiset(s)[s[i]] >= 2
  {
    assert s == s[..j] + s[j..];
    assert s[i] in s[..j] && s[j] in s[j..];
    assert multiset(s) == multiset(s[..j]) + multiset(s[j..]);
  }

  ghost predicate Distinct<T(!new)>(s: seq<T>) {
    forall i, j :: 0 <= i < j < |s| ==> s[i] != s[j]
  }

  lemma {:induction false} DistinctCounts<T(!new)>(s: seq<T>)
    requires Distinct(s)
    ensures forall x :: multiset(s)[x] <= 1
  {
    if s != [] {
      DistinctCounts(s[1..]);
      assert s == [s[0]] + s[1..];
      assert s[0] !in s[1..];
      assert multiset(s) == multiset{s[0]} + multiset(s[1..]);
      assert multiset(s[1..])[s[0]] == 0;
    }
  }

  // ---- The default order -------------------------------------------------

  ghost predicate StrictOrder<T(!new)>(less: (T, T) -> bool) {
    && (forall x, y :: x != y ==> less(x, y) || less(y, x))
    && (forall x, y :: !(less(x, y) && less(y, x)))
    && (forall x, y, z :: less(x, y) && less(y, z) ==> less(x, z))
  }

  /** By the first element that differs, a prefix first. */
  predicate LexLeq<T(==)>(a: seq<T>, b: seq<T>, less: (T, T) -> bool) {
    if a == [] then true
    else if b == [] then false
    else if a[0] != b[0] then less(a[0], b[0])
    else LexLeq(a[1..], b[1..], less)
  }

  lemma {:induction false} LexLeqTotal<T(!new)>(a: seq<T>, b: seq<T>, less: (T, T) -> bool)
    requires StrictOrder(less)
    ensures LexLeq(a, b, less) || LexLeq(b, a, less)
  {
    if a != [] && b != [] && a[0] == b[0] {
      LexLeqTotal(a[1..], b[1..], less);
    }
  }

  lemma {:induction false} LexLeqAntisymmetric<T(!new)>(a: seq<T>, b: seq<T>, less: (T, T) -> bool)
    requires StrictOrder(less) && LexLeq(a, b, less) && LexLeq(b, a, less)
    ensures a == b
  {
    if a != [] {
      LexLeqAntisymmetric(a[1..], b[1..], less);
      assert a == [a[0]] + a[1..] && b == [b[0]] + b[1..];
    }
  }

  lemma {:induction false} LexLeqTransitive<T(!new)>(a: seq<T>, b: seq<T>, c: seq<T>, less: (T, T) -> bool)
    requires StrictOrder(less) && LexLeq(a, b, less) && LexLeq(b, c, less)
    ensures LexLeq(a, c, less)
  {
    if a != [] && a[0] == b[0] && b[0] == c[0] {
      LexLeqTransitive(a[1..], b[1..], c[1..], less);
    }
  }

  predicate CharLess(x: char, y: char) { x < y }

  /** The default order on strings. */
  predicate TextLeq(a: string, b: string) { LexLeq(a, b, CharLess) }

  lemma TextLeqIsPreorder()
    ensures TotalPreorder(TextLeq)
  {
    forall a, b ensures TextLeq(a, b) || TextLeq(b, a) {
      LexLeqTotal(a, b, CharLess);
    }
    forall a, b, c | TextLeq(a, b) && TextLeq(b, c) ensures TextLeq(a, c) {
      LexLeqTransitive(a, b, c, CharLess);
    }
  }
}
