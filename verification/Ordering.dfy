/** The standard library's stable sort, and the code-point order on strings. */
module Ordering {
  import opened Sequences

  predicate OrderLaws<T>(le: (T, T) -> bool, x: T, y: T, z: T) {
    && le(x, x)
    && (le(x, y) || le(y, x))
    && (le(x, y) && le(y, z) ==> le(x, z))
  }

  ghost predicate TotalPreorder<T(!new)>(le: (T, T) -> bool) {
    forall x, y, z :: OrderLaws(le, x, y, z)
  }

  predicate Tied<T>(le: (T, T) -> bool, x: T, y: T) { le(x, y) && le(y, x) }

  ghost predicate SortedBy<T>(s: seq<T>, le: (T, T) -> bool) {
    forall i, j | 0 <= i < j < |s| :: le(s[i], s[j])
  }

  /** `x` goes after everything it does not precede. */
  function Insert<T>(x: T, s: seq<T>, le: (T, T) -> bool): seq<T> {
    if s == [] then [x]
    else if le(s[|s| - 1], x) then s + [x]
    else Insert(x, s[..|s| - 1], le) + [s[|s| - 1]]
  }

  function Sort<T>(s: seq<T>, le: (T, T) -> bool): seq<T> {
    if s == [] then [] else Insert(s[|s| - 1], Sort(s[..|s| - 1], le), le)
  }

  lemma {:induction false} InsertMultiset<T>(x: T, s: seq<T>, le: (T, T) -> bool)
    ensures multiset(Insert(x, s, le)) == multiset(s) + multiset{x}
  {
    if s == [] || le(s[|s| - 1], x) {
    } else {
      InsertMultiset(x, s[..|s| - 1], le);
      MultisetSnoc(s, s[..|s| - 1], s[|s| - 1]);
    }
  }

  lemma InsertKeeps<T>(x: T, s: seq<T>, le: (T, T) -> bool)
    ensures multiset(Insert(x, s, le)) == multiset(s) + multiset{x}
    ensures |Insert(x, s, le)| == |s| + 1
    ensures forall y :: y in Insert(x, s, le) <==> y in s || y == x
  {
    InsertMultiset(x, s, le);
    assert |Insert(x, s, le)| == |multiset(Insert(x, s, le))| == |multiset(s)| + 1;
    SameElements(Insert(x, s, le), s + [x]);
  }

  lemma AppendSorted<T(!new)>(s: seq<T>, x: T, le: (T, T) -> bool)
    requires SortedBy(s, le) && forall i | 0 <= i < |s| :: le(s[i], x)
    ensures SortedBy(s + [x], le)
  {
  }

  lemma {:induction false} InsertSorted<T(!new)>(x: T, s: seq<T>, le: (T, T) -> bool)
    requires TotalPreorder(le) && SortedBy(s, le)
    ensures SortedBy(Insert(x, s, le), le)
  {
    if s == [] {
    } else {
      var front, y := s[..|s| - 1], s[|s| - 1];
      assert OrderLaws(le, y, x, x);
      if le(y, x) {
        forall i | 0 <= i < |s|
          ensures le(s[i], x)
        {
          assert OrderLaws(le, s[i], y, x);
        }
        AppendSorted(s, x, le);
      } else {
        InsertSorted(x, front, le);
        InsertKeeps(x, front, le);
        forall i | 0 <= i < |Insert(x, front, le)|
          ensures le(Insert(x, front, le)[i], y)
        {
          assert Insert(x, front, le)[i] in Insert(x, front, le);
        }
        AppendSorted(Insert(x, front, le), y, le);
      }
    }
  }

  lemma {:induction false} SortIsSorted<T(!new)>(s: seq<T>, le: (T, T) -> bool)
    requires TotalPreorder(le)
    ensures SortedBy(Sort(s, le), le)
  {
    if s == [] {
    } else {
      SortIsSorted(s[..|s| - 1], le);
      InsertSorted(s[|s| - 1], Sort(s[..|s| - 1], le), le);
    }
  }

  lemma {:induction false} SortMultiset<T>(s: seq<T>, le: (T, T) -> bool)
    ensures multiset(Sort(s, le)) == multiset(s)
  {
    if s == [] {
    } else {
      var front, last := s[..|s| - 1], s[|s| - 1];
      SortMultiset(front, le);
      InsertMultiset(last, Sort(front, le), le);
      MultisetSnoc(s, front, last);
    }
  }

  lemma SortKeeps<T>(s: seq<T>, le: (T, T) -> bool)
    ensures multiset(Sort(s, le)) == multiset(s)
    ensures |Sort(s, le)| == |s|
    ensures forall x :: x in Sort(s, le) <==> x in s
  {
    SortMultiset(s, le);
    assert |Sort(s, le)| == |multiset(Sort(s, le))| == |multiset(s)|;
    SameElements(Sort(s, le), s);
  }

  lemma InsertSnoc<T>(x: T, s: seq<T>, y: T, le: (T, T) -> bool)
    ensures Insert(x, s + [y], le) == if le(y, x) then s + [y] + [x] else Insert(x, s, le) + [y]
  {
    assert (s + [y])[..|s|] == s;
  }

  /** Inserting after the maximum of a sorted sequence goes after any kept part of it, too. */
  lemma InsertLast<T(!new)>(x: T, s: seq<T>, le: (T, T) -> bool, p: T -> bool)
    requires TotalPreorder(le) && SortedBy(s, le)
    requires s != [] && le(s[|s| - 1], x)
    ensures Insert(x, Filter(s, p), le) == Filter(s, p) + [x]
  {
    FilterMembers(s, p);
    LastIsAbove(x, s, le);
    InsertAbove(x, Filter(s, p), le);
  }

  lemma LastIsAbove<T(!new)>(x: T, s: seq<T>, le: (T, T) -> bool)
    requires TotalPreorder(le) && SortedBy(s, le)
    requires s != [] && le(s[|s| - 1], x)
    ensures forall y | y in s :: le(y, x)
  {
    var last := |s| - 1;
    forall i | 0 <= i < |s|
      ensures le(s[i], x)
    {
      assert i < last ==> le(s[i], s[last]);
      assert OrderLaws(le, s[i], s[last], x);
    }
  }

  lemma InsertAbove<T>(x: T, s: seq<T>, le: (T, T) -> bool)
    requires forall y | y in s :: le(y, x)
    ensures Insert(x, s, le) == s + [x]
  {
    assert s != [] ==> s[|s| - 1] in s;
  }

  lemma InsertFilterStep<T>(x: T, front: seq<T>, y: T, le: (T, T) -> bool, p: T -> bool)
    requires !le(y, x)
    requires Filter(Insert(x, front, le), p)
             == if p(x) then Insert(x, Filter(front, p), le) else Filter(front, p)
    ensures Filter(Insert(x, front + [y], le), p)
            == if p(x) then Insert(x, Filter(front + [y], p), le) else Filter(front + [y], p)
  {
    FilterSnoc(Insert(x, front, le), y, p);
    FilterSnoc(front, y, p);
    InsertSnoc(x, front, y, le);
    if p(y) {
      InsertSnoc(x, Filter(front, p), y, le);
    }
  }

  lemma {:induction false} InsertFilter<T(!new)>(x: T, s: seq<T>, le: (T, T) -> bool, p: T -> bool)
    requires TotalPreorder(le) && SortedBy(s, le)
    ensures Filter(Insert(x, s, le), p) == if p(x) then Insert(x, Filter(s, p), le) else Filter(s, p)
  {
    if s == [] {
      FilterSnoc([], x, p);
    } else if le(s[|s| - 1], x) {
      FilterSnoc(s, x, p);
      InsertLast(x, s, le, p);
    } else {
      var front, y := s[..|s| - 1], s[|s| - 1];
      InsertFilter(x, front, le, p);
      InsertFilterStep(x, front, y, le, p);
      assert front + [y] == s;
    }
  }

  /** Stability: sorting commutes with keeping any part of the elements. */
  lemma {:induction false} SortFilter<T(!new)>(s: seq<T>, le: (T, T) -> bool, p: T -> bool)
    requires TotalPreorder(le)
    ensures Filter(Sort(s, le), p) == Sort(Filter(s, p), le)
  {
    if s == [] {
    } else {
      var front, x := s[..|s| - 1], s[|s| - 1];
      SortFilter(front, le, p);
      SortIsSorted(front, le);
      InsertFilter(x, Sort(front, le), le, p);
      SortSnoc(Filter(front, p), x, le);
    }
  }

  lemma SortSnoc<T>(s: seq<T>, x: T, le: (T, T) -> bool)
    ensures Sort(s + [x], le) == Insert(x, Sort(s, le), le)
  {
    assert (s + [x])[..|s|] == s;
  }

  lemma {:induction false} SortOfSorted<T(!new)>(s: seq<T>, le: (T, T) -> bool)
    requires SortedBy(s, le)
    ensures Sort(s, le) == s
  {
    if s == [] {
    } else {
      SortOfSorted(s[..|s| - 1], le);
    }
  }

  /** The last elements of two sorted arrangements of the same elements bound each other. */
  lemma LastsTie<T(!new)>(a: seq<T>, b: seq<T>, le: (T, T) -> bool)
    requires SortedBy(a, le) && SortedBy(b, le) && multiset(a) == multiset(b) && a != [] && b != []
    requires TotalPreorder(le)
    ensures b[|b| - 1] in a && Tied(le, a[|a| - 1], b[|b| - 1])
  {
    var x, y := a[|a| - 1], b[|b| - 1];
    assert OrderLaws(le, x, y, y) && OrderLaws(le, y, x, x);
    assert y in multiset(b) && x in multiset(a);
    var i :| 0 <= i < |a| && a[i] == y;
    var j :| 0 <= j < |b| && b[j] == x;
  }

  lemma FrontsAgree<T>(a: seq<T>, b: seq<T>)
    requires multiset(a) == multiset(b) && a != [] && b != [] && a[|a| - 1] == b[|b| - 1]
    ensures multiset(a[..|a| - 1]) == multiset(b[..|b| - 1])
  {
    assert a == a[..|a| - 1] + [a[|a| - 1]] && b == b[..|b| - 1] + [b[|b| - 1]];
    assert multiset(a[..|a| - 1]) == multiset(a) - multiset{a[|a| - 1]};
  }

  /** A sorted arrangement is unique when ties are between equal elements only. */
  lemma {:induction false} SortedUnique<T(!new)>(a: seq<T>, b: seq<T>, le: (T, T) -> bool)
    requires SortedBy(a, le) && SortedBy(b, le)
    requires multiset(a) == multiset(b)
    requires TotalPreorder(le)
    requires forall x, y | x in a && y in a && Tied(le, x, y) :: x == y
    ensures a == b
  {
    assert |a| == |multiset(a)| == |b|;
    if a == [] {
    } else {
      var front, back, x := a[..|a| - 1], b[..|b| - 1], a[|a| - 1];
      LastsTie(a, b, le);
      assert x == b[|b| - 1];
      FrontsAgree(a, b);
      SortedUnique(front, back, le);
      assert a == front + [x] && b == back + [x];
    }
  }

  /** Sorting forgets the input order when ties are between equal elements only. */
  lemma SortForgetsOrder<T(!new)>(a: seq<T>, b: seq<T>, le: (T, T) -> bool)
    requires multiset(a) == multiset(b) && TotalPreorder(le)
    requires forall x, y | x in a && y in a && Tied(le, x, y) :: x == y
    ensures Sort(a, le) == Sort(b, le)
  {
    SortIsSorted(a, le);
    SortIsSorted(b, le);
    SortKeeps(a, le);
    SortKeeps(b, le);
    SortedUnique(Sort(a, le), Sort(b, le), le);
  }

  /** Code-point lexicographic order. */
  predicate LexLe(a: string, b: string) {
    if a == [] then true
    else if b == [] then false
    else a[0] < b[0] || (a[0] == b[0] && LexLe(a[1..], b[1..]))
  }

  /** The texts agree up to a place where the first has the smaller character. */
  predicate DiffersAt(a: string, b: string, k: int) {
    0 <= k < |a| && k < |b| && a[..k] == b[..k] && a[k] < b[k]
  }

  lemma DiffersOneLater(a: string, b: string, k: nat)
    requires a != [] && b != [] && a[0] == b[0]
    ensures DiffersAt(a, b, k + 1) <==> DiffersAt(a[1..], b[1..], k)
  {
    if k < |a| - 1 && k < |b| - 1 {
      assert a[..k + 1] == [a[0]] + a[1..][..k] && b[..k + 1] == [b[0]] + b[1..][..k];
    }
  }

  lemma FirstDiffers(a: string, b: string, k: nat)
    requires DiffersAt(a, b, k)
    ensures k > 0 ==> a[0] == b[0]
  {
    assert k > 0 ==> a[..k][0] == b[..k][0];
  }

  /** The first difference decides; without one the shorter text comes first. */
  lemma {:induction false} LexLeByFirstDifference(a: string, b: string)
    ensures LexLe(a, b) <==> a <= b || exists k :: DiffersAt(a, b, k)
  {
    if a == [] || b == [] {
    } else if a[0] != b[0] {
      assert a[0] < b[0] ==> DiffersAt(a, b, 0);
      forall k | DiffersAt(a, b, k)
        ensures k == 0
      {
        FirstDiffers(a, b, k);
      }
    } else {
      LexLeByFirstDifference(a[1..], b[1..]);
      assert a == [a[0]] + a[1..] && b == [b[0]] + b[1..];
      if k :| DiffersAt(a[1..], b[1..], k) {
        DiffersOneLater(a, b, k);
      }
      if k :| DiffersAt(a, b, k) {
        DiffersOneLater(a, b, k - 1);
      }
    }
  }

  lemma {:induction false} LexTotal(a: string, b: string)
    ensures LexLe(a, b) || LexLe(b, a)
  {
    if a == [] || b == [] {
    } else {
      LexTotal(a[1..], b[1..]);
    }
  }

  lemma {:induction false} LexTransitive(a: string, b: string, c: string)
    requires LexLe(a, b) && LexLe(b, c)
    ensures LexLe(a, c)
  {
    if a == [] || b == [] || c == [] || a[0] != b[0] || b[0] != c[0] {
    } else {
      LexTransitive(a[1..], b[1..], c[1..]);
    }
  }

  lemma {:induction false} LexAntisymmetric(a: string, b: string)
    requires LexLe(a, b) && LexLe(b, a)
    ensures a == b
  {
    if a == [] || b == [] {
    } else {
      LexAntisymmetric(a[1..], b[1..]);
      assert a == [a[0]] + a[1..] && b == [b[0]] + b[1..];
    }
  }

  lemma LexIsOrder()
    ensures TotalPreorder(LexLe)
  {
    forall x, y, z
      ensures OrderLaws(LexLe, x, y, z)
    {
      LexTotal(x, x);
      LexTotal(x, y);
      if LexLe(x, y) && LexLe(y, z) {
        LexTransitive(x, y, z);
      }
    }
  }
}
