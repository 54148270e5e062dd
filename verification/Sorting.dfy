/** Sorting by a total preorder, and the lexicographic order that `ORDER BY` and
    derived orderings use. */
module Sorting {
  ghost predicate TotalPreorder<T(!new)>(leq: (T, T) -> bool) {
    && (forall a, b :: leq(a, b) || leq(b, a))
    && (forall a, b, c :: leq(a, b) && leq(b, c) ==> leq(a, c))
  }

  /** Elements of `s` that are equivalent are equal. */
  ghost predicate AntisymmetricOn<T>(leq: (T, T) -> bool, s: seq<T>) {
    forall a, b :: a in s && b in s && leq(a, b) && leq(b, a) ==> a == b
  }

  ghost predicate Sorted<T>(leq: (T, T) -> bool, s: seq<T>) {
    forall i, j :: 0 <= i <= j < |s| ==> leq(s[i], s[j])
  }

  function Insert<T>(leq: (T, T) -> bool, x: T, s: seq<T>): seq<T> {
    if s == [] then [x]
    else if leq(x, s[0]) then [x] + s
    else [s[0]] + Insert(leq, x, s[1..])
  }

  /** `s` in ascending order. */
  function Sort<T>(leq: (T, T) -> bool, s: seq<T>): seq<T> {
    if s == [] then [] else Insert(leq, s[0], Sort(leq, s[1..]))
  }

  lemma HeadAndTail<T>(s: seq<T>)
    requires s != []
    ensures multiset(s) == multiset{s[0]} + multiset(s[1..])
  {
    assert s == [s[0]] + s[1..];
  }

  lemma {:induction false} InsertMultiset<T>(leq: (T, T) -> bool, x: T, s: seq<T>)
    ensures multiset(Insert(leq, x, s)) == multiset(s) + multiset{x}
  {
    if s != [] {
      var r := Insert(leq, x, s);
      HeadAndTail(s);
      HeadAndTail(r);
      if leq(x, s[0]) {
        assert r[1..] == s;
      } else {
        assert r[1..] == Insert(leq, x, s[1..]);
        InsertMultiset(leq, x, s[1..]);
      }
    }
  }

  lemma SameElements<T>(a: seq<T>, b: seq<T>)
    requires multiset(a) == multiset(b)
    ensures |a| == |b|
    ensures forall x :: x in a <==> x in b
  {
    assert |multiset(a)| == |a| && |multiset(b)| == |b|;
    assert forall x :: x in a <==> x in multiset(a);
    assert forall x :: x in b <==> x in multiset(b);
  }

  lemma InsertSorted<T(!new)>(leq: (T, T) -> bool, x: T, s: seq<T>)
    requires TotalPreorder(leq) && Sorted(leq, s)
    ensures Sorted(leq, Insert(leq, x, s))
  {
    if s != [] && !leq(x, s[0]) {
      var rest := Insert(leq, x, s[1..]);
      InsertSorted(leq, x, s[1..]);
      InsertMultiset(leq, x, s[1..]);
      forall y | y in rest ensures leq(s[0], y) {
        assert y in multiset(rest);
        assert y == x || y in s[1..];
      }
    }
  }

  lemma {:induction false} SortKeepsMultiset<T>(leq: (T, T) -> bool, s: seq<T>)
    ensures multiset(Sort(leq, s)) == multiset(s)
  {
    if s != [] {
      SortKeepsMultiset(leq, s[1..]);
      InsertMultiset(leq, s[0], Sort(leq, s[1..]));
      HeadAndTail(s);
    }
  }

  lemma SortPermutes<T>(leq: (T, T) -> bool, s: seq<T>)
    ensures multiset(Sort(leq, s)) == multiset(s)
    ensures |Sort(leq, s)| == |s|
    ensures forall x :: x in Sort(leq, s) <==> x in s
  {
    SortKeepsMultiset(leq, s);
    SameElements(Sort(leq, s), s);
  }

  lemma {:induction false} SortSorts<T(!new)>(leq: (T, T) -> bool, s: seq<T>)
    requires TotalPreorder(leq)
    ensures Sorted(leq, Sort(leq, s))
  {
    if s != [] {
      SortSorts(leq, s[1..]);
      InsertSorted(leq, s[0], Sort(leq, s[1..]));
    }
  }

  /** The least elements of two ascending arrangements are equal. */
  lemma SameHead<T(!new)>(leq: (T, T) -> bool, a: seq<T>, b: seq<T>)
    requires a != [] && Sorted(leq, a) && Sorted(leq, b)
    requires multiset(a) == multiset(b) && AntisymmetricOn(leq, a)
    ensures b != [] && a[0] == b[0]
  {
    SameElements(a, b);
    assert a[0] in b && b[0] in a;
    var i :| 0 <= i < |a| && a[i] == b[0];
    var j :| 0 <= j < |b| && b[j] == a[0];
    assert leq(a[0], a[i]) && leq(b[0], b[j]);
  }

  /** A multiset has at most one ascending arrangement. */
  lemma {:induction false} SortedUnique<T(!new)>(leq: (T, T) -> bool, a: seq<T>, b: seq<T>)
    requires TotalPreorder(leq) && Sorted(leq, a) && Sorted(leq, b)
    requires multiset(a) == multiset(b) && AntisymmetricOn(leq, a)
    ensures a == b
  {
    if a == [] {
      SameElements(a, b);
    } else {
      SameHead(leq, a, b);
      TailMultisets(a, b);
      assert forall x :: x in a[1..] ==> x in a;
      SortedUnique(leq, a[1..], b[1..]);
      assert a == [a[0]] + a[1..] && b == [b[0]] + b[1..];
    }
  }

  lemma TailMultisets<T>(a: seq<T>, b: seq<T>)
    requires a != [] && b != [] && a[0] == b[0] && multiset(a) == multiset(b)
    ensures multiset(a[1..]) == multiset(b[1..])
  {
    HeadAndTail(a);
    HeadAndTail(b);
    assert multiset(a[1..]) == multiset(a) - multiset{a[0]};
    assert multiset(b[1..]) == multiset(b) - multiset{b[0]};
  }

  /** Sorting forgets the order of the input. */
  lemma SortForgetsOrder<T(!new)>(leq: (T, T) -> bool, a: seq<T>, b: seq<T>)
    requires TotalPreorder(leq) && multiset(a) == multiset(b) && AntisymmetricOn(leq, a)
    ensures Sort(leq, a) == Sort(leq, b)
  {
    SortPermutes(leq, a);
    SortPermutes(leq, b);
    SortSorts(leq, a);
    SortSorts(leq, b);
    SortedUnique(leq, Sort(leq, a), Sort(leq, b));
  }

  /** No two elements share a key. */
  ghost predicate DistinctBy<T, K>(key: T -> K, s: seq<T>) {
    forall i, j :: 0 <= i < j < |s| ==> key(s[i]) != key(s[j])
  }

  lemma InsertKeepsDistinct<T, K>(leq: (T, T) -> bool, key: T -> K, x: T, s: seq<T>)
    requires DistinctBy(key, s) && forall y :: y in s ==> key(y) != key(x)
    ensures DistinctBy(key, Insert(leq, x, s))
  {
    if s != [] && !leq(x, s[0]) {
      var rest := Insert(leq, x, s[1..]);
      InsertKeepsDistinct(leq, key, x, s[1..]);
      InsertMultiset(leq, x, s[1..]);
      forall y | y in rest ensures key(y) != key(s[0]) {
        assert y in multiset(rest);
        assert y == x || y in s[1..];
      }
    }
  }

  lemma {:induction false} SortKeepsDistinct<T, K>(leq: (T, T) -> bool, key: T -> K, s: seq<T>)
    requires DistinctBy(key, s)
    ensures DistinctBy(key, Sort(leq, s))
  {
    if s != [] {
      SortKeepsDistinct(leq, key, s[1..]);
      var tail := s[1..];
      SortPermutes(leq, tail);
      var rest := Sort(leq, tail);
      forall y | y in rest ensures key(y) != key(s[0]) {
        assert y in multiset(rest) && y in multiset(tail);
        var i :| 0 <= i < |tail| && tail[i] == y;
        assert y == s[i + 1];
      }
      InsertKeepsDistinct(leq, key, s[0], rest);
    }
  }

  // ----- Lexicographic order ------------------------------------------------

  predicate LexLeq(a: seq<int>, b: seq<int>) {
    a == [] || (b != [] && (a[0] < b[0] || (a[0] == b[0] && LexLeq(a[1..], b[1..]))))
  }

  lemma {:induction false} LexTotal(a: seq<int>, b: seq<int>)
    ensures LexLeq(a, b) || LexLeq(b, a)
    ensures LexLeq(a, b) && LexLeq(b, a) ==> a == b
  {
    if a != [] && b != [] {
      LexTotal(a[1..], b[1..]);
      assert a == [a[0]] + a[1..] && b == [b[0]] + b[1..];
    }
  }

  lemma {:induction false} LexTransitive(a: seq<int>, b: seq<int>, c: seq<int>)
    requires LexLeq(a, b) && LexLeq(b, c)
    ensures LexLeq(a, c)
  {
    if a != [] && b != [] && c != [] && a[0] == b[0] == c[0] {
      LexTransitive(a[1..], b[1..], c[1..]);
    }
  }

  /** The order of a tuple of columns, each compared lexicographically. */
  predicate KeyLeq(a: seq<seq<int>>, b: seq<seq<int>>) {
    a == [] || (b != [] && LexLeq(a[0], b[0]) && (a[0] == b[0] ==> KeyLeq(a[1..], b[1..])))
  }

  lemma {:induction false} KeyTotal(a: seq<seq<int>>, b: seq<seq<int>>)
    ensures KeyLeq(a, b) || KeyLeq(b, a)
    ensures KeyLeq(a, b) && KeyLeq(b, a) ==> a == b
  {
    if a != [] && b != [] {
      LexTotal(a[0], b[0]);
      KeyTotal(a[1..], b[1..]);
      assert a == [a[0]] + a[1..] && b == [b[0]] + b[1..];
    }
  }

  lemma {:induction false} KeyTransitive(a: seq<seq<int>>, b: seq<seq<int>>, c: seq<seq<int>>)
    requires KeyLeq(a, b) && KeyLeq(b, c)
    ensures KeyLeq(a, c)
  {
    if a != [] && b != [] && c != [] {
      LexTransitive(a[0], b[0], c[0]);
      LexTotal(a[0], b[0]);
      LexTotal(b[0], c[0]);
      if a[0] == c[0] {
        KeyTransitive(a[1..], b[1..], c[1..]);
      }
    }
  }

  /** `a` and `b` agree up to `i`, where `a` is the smaller. */
  predicate SmallerAt(a: seq<int>, b: seq<int>, i: nat) {
    i < |a| && i < |b| && a[..i] == b[..i] && a[i] < b[i]
  }

  /** Lexicographic order: a prefix, or smaller at the first difference. */
  lemma {:induction false} LexMeans(a: seq<int>, b: seq<int>)
    ensures LexLeq(a, b) <==> a <= b || exists i: nat :: SmallerAt(a, b, i)
  {
    if a != [] && b != [] {
      LexMeans(a[1..], b[1..]);
      if a[0] == b[0] {
        assert a == [a[0]] + a[1..] && b == [b[0]] + b[1..];
        if i: nat :| SmallerAt(a[1..], b[1..], i) {
          assert a[..i + 1] == [a[0]] + a[1..][..i] && b[..i + 1] == [b[0]] + b[1..][..i];
          assert SmallerAt(a, b, i + 1);
        }
        if i: nat :| SmallerAt(a, b, i) {
          assert a[1..][..i - 1] == a[..i][1..] && b[1..][..i - 1] == b[..i][1..];
          assert SmallerAt(a[1..], b[1..], i - 1);
        }
      } else if a[0] < b[0] {
        assert SmallerAt(a, b, 0);
      } else {
        forall i: nat ensures !SmallerAt(a, b, i) {
          if i > 0 && i < |a| && i < |b| {
            assert a[..i][0] == a[0] && b[..i][0] == b[0];
          }
        }
      }
    }
  }

  /** Ordering by any column image is a total preorder. */
  lemma ByImage<T(!new)>(image: T -> seq<seq<int>>, leq: (T, T) -> bool)
    requires forall a, b :: leq(a, b) <==> KeyLeq(image(a), image(b))
    ensures TotalPreorder(leq)
  {
    forall a, b ensures leq(a, b) || leq(b, a) {
      KeyTotal(image(a), image(b));
    }
    forall a, b, c | leq(a, b) && leq(b, c) ensures leq(a, c) {
      KeyTransitive(image(a), image(b), image(c));
    }
  }

  /** The code points of a string: `string` columns compare by these. */
  function Codes(s: string): (r: seq<int>)
    ensures |r| == |s| && forall i :: 0 <= i < |s| ==> r[i] == s[i] as int
  {
    seq(|s|, i requires 0 <= i < |s| => s[i] as int)
  }

  lemma CodesInjective(a: string, b: string)
    ensures Codes(a) == Codes(b) ==> a == b
  {
    if Codes(a) == Codes(b) {
      assert |a| == |b|;
      assert forall i :: 0 <= i < |a| ==> a[i] as int == Codes(a)[i];
    }
  }
}
