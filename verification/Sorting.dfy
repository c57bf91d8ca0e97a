/** Sorting by a strict order, and the lexicographic order of strings. */
module Sorting {

  function Insert<T>(less: (T, T) -> bool, x: T, s: seq<T>): seq<T> {
    if s == [] || less(x, s[0]) then [x] + s else [s[0]] + Insert(less, x, s[1..])
  }

  function Sort<T>(less: (T, T) -> bool, s: seq<T>): seq<T> {
    if s == [] then [] else Insert(less, s[0], Sort(less, s[1..]))
  }

  ghost predicate Ordered<T>(less: (T, T) -> bool, s: seq<T>) {
    forall i, j :: 0 <= i < j < |s| ==> less(s[i], s[j])
  }

  ghost predicate Transitive<T(!new)>(less: (T, T) -> bool) {
    forall a, b, c :: less(a, b) && less(b, c) ==> less(a, c)
  }

  /** Any two places of the sequence are comparable, so the order decides how it is sorted. */
  ghost predicate Comparable<T>(less: (T, T) -> bool, s: seq<T>) {
    forall i, j :: 0 <= i < j < |s| ==> less(s[i], s[j]) || less(s[j], s[i])
  }

  lemma {:induction false} InsertPermutes<T>(less: (T, T) -> bool, x: T, s: seq<T>)
    ensures multiset(Insert(less, x, s)) == multiset{x} + multiset(s)
    ensures |Insert(less, x, s)| == 1 + |s|
  {
    if s != [] && !less(x, s[0]) {
      assert s == [s[0]] + s[1..];
      InsertPermutes(less, x, s[1..]);
    }
  }

  lemma {:induction false} SortPermutes<T>(less: (T, T) -> bool, s: seq<T>)
    ensures multiset(Sort(less, s)) == multiset(s) && |Sort(less, s)| == |s|
  {
    if s != [] {
      assert s == [s[0]] + s[1..];
      SortPermutes(less, s[1..]);
      InsertPermutes(less, s[0], Sort(less, s[1..]));
    }
  }

  lemma {:induction false} InsertOrders<T(!new)>(less: (T, T) -> bool, x: T, s: seq<T>)
    requires Transitive(less) && Ordered(less, s)
    requires forall y :: y in s ==> less(x, y) || less(y, x)
    ensures Ordered(less, Insert(less, x, s))
  {
    if s != [] && !less(x, s[0]) {
      InsertOrders(less, x, s[1..]);
      var rest := Insert(less, x, s[1..]);
      InsertPermutes(less, x, s[1..]);
      forall j | 0 <= j < |rest| ensures less(s[0], rest[j]) {
        assert rest[j] in multiset(rest);
        if rest[j] != x {
          assert rest[j] in s[1..];
        }
      }
    }
  }

  lemma {:induction false} SortOrders<T(!new)>(less: (T, T) -> bool, s: seq<T>)
    requires Transitive(less) && Comparable(less, s)
    ensures Ordered(less, Sort(less, s))
  {
    if s != [] {
      SortOrders(less, s[1..]);
      SortPermutes(less, s[1..]);
      var rest := Sort(less, s[1..]);
      forall y | y in rest ensures less(s[0], y) || less(y, s[0]) {
        assert y in multiset(rest);
        assert y in s[1..];
      }
      InsertOrders(less, s[0], rest);
    }
  }

  // ----- strings -----

  predicate Before(a: string, b: string) {
    b != "" && (a == "" || a[0] < b[0] || (a[0] == b[0] && Before(a[1..], b[1..])))
  }

  lemma {:induction false} BeforeIrreflexive(a: string)
    ensures !Before(a, a)
  {
    if a != "" {
      BeforeIrreflexive(a[1..]);
    }
  }

  lemma {:induction false} BeforeTransitive(a: string, b: string, c: string)
    requires Before(a, b) && Before(b, c)
    ensures Before(a, c)
  {
    if a != "" && a[0] == b[0] == c[0] {
      BeforeTransitive(a[1..], b[1..], c[1..]);
    }
  }

  lemma {:induction false} BeforeTotal(a: string, b: string)
    ensures Before(a, b) || Before(b, a) || a == b
  {
    if a != "" && b != "" && a[0] == b[0] {
      BeforeTotal(a[1..], b[1..]);
      assert a == [a[0]] + a[1..] && b == [b[0]] + b[1..];
    }
  }

  /** The strings agree up to place k, where the first ends or has the smaller character. */
  predicate DifferAt(a: string, b: string, k: nat) {
    && k <= |a| && k < |b| && a[..k] == b[..k]
    && (k < |a| ==> a[k] < b[k])
  }

  lemma DifferOneLater(a: string, b: string, k: nat)
    requires a != "" && b != "" && a[0] == b[0]
    ensures DifferAt(a[1..], b[1..], k) <==> DifferAt(a, b, k + 1)
  {
    if k + 1 <= |a| && k + 1 <= |b| {
      assert a[..k + 1] == [a[0]] + a[1..][..k] && b[..k + 1] == [b[0]] + b[1..][..k];
      assert a[..k + 1][1..] == a[1..][..k] && b[..k + 1][1..] == b[1..][..k];
    }
  }

  /** A string is before another exactly when it has the smaller character in the first place where they differ, or ends
      there. */
  lemma {:induction false} BeforeExactlyWhen(a: string, b: string)
    ensures Before(a, b) <==> exists k: nat :: DifferAt(a, b, k)
  {
    if a != "" && b != "" && a[0] == b[0] {
      BeforeExactlyWhen(a[1..], b[1..]);
      if k: nat :| DifferAt(a[1..], b[1..], k) {
        DifferOneLater(a, b, k);
      }
      if k: nat :| DifferAt(a, b, k) {
        assert k > 0;
        DifferOneLater(a, b, k - 1);
      }
    } else if b != "" {
      if Before(a, b) {
        assert DifferAt(a, b, 0);
      }
      if k: nat :| DifferAt(a, b, k) {
        assert k > 0 ==> a[..k][0] == b[..k][0];
      }
    }
  }
}
