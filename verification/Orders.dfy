/** Lists that are sorted by a strict order. */
module Orders {

  ghost predicate Strict<T(!new)>(less: (T, T) -> bool) {
    forall x, y :: less(x, y) ==> !less(y, x)
  }

  ghost predicate SortedBy<T>(less: (T, T) -> bool, s: seq<T>) {
    forall i, j :: 0 <= i < j < |s| ==> less(s[i], s[j])
  }

  lemma FirstIsLeast<T>(less: (T, T) -> bool, a: seq<T>, x: T)
    requires SortedBy(less, a) && x in a
    ensures x == a[0] || less(a[0], x)
  {
  }

  lemma RestHasSameElements<T(!new)>(less: (T, T) -> bool, a: seq<T>, b: seq<T>, x: T)
    requires Strict(less) && SortedBy(less, a) && a != [] && b != [] && a[0] == b[0]
    requires x in a[1..] && x in b
    ensures x in b[1..]
  {
    var k :| 0 <= k < |a[1..]| && a[1..][k] == x;
    assert a[k + 1] == x && less(a[0], x);
    assert b == [b[0]] + b[1..];
  }

  lemma NonemptyTogether<T(!new)>(a: seq<T>, b: seq<T>)
    requires forall x :: x in a ==> x in b
    ensures a != [] ==> b != []
  {
    if a != [] {
      assert a[0] in b;
    }
  }

  /** A list that is sorted by a strict order is determined by its elements. */
  lemma {:induction false} SortedIsUnique<T(!new)>(less: (T, T) -> bool, a: seq<T>, b: seq<T>)
    requires Strict(less) && SortedBy(less, a) && SortedBy(less, b)
    requires forall x :: x in a <==> x in b
    ensures a == b
  {
    NonemptyTogether(a, b);
    NonemptyTogether(b, a);
    if a != [] {
      assert a[0] in b && b[0] in a;
      FirstIsLeast(less, a, b[0]);
      FirstIsLeast(less, b, a[0]);
      forall x
        ensures x in a[1..] <==> x in b[1..]
      {
        if x in a[1..] {
          RestHasSameElements(less, a, b, x);
        }
        if x in b[1..] {
          RestHasSameElements(less, b, a, x);
        }
      }
      SortedIsUnique(less, a[1..], b[1..]);
      assert a == [a[0]] + a[1..] && b == [b[0]] + b[1..];
    }
  }
}
