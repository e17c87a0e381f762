/** Options and folds over sequences shared by every component. */
module Sequences {

  datatype Option<+T> = None | Some(value: T)

  function Max(a: int, b: int): int { if a >= b then a else b }

  function MaxReal(a: real, b: real): real { if a >= b then a else b }

  /** `a` added up `n` times, which is the product (`TimesIsProduct`) without a nonlinear term. */
  function Times(n: nat, a: real): real {
    if n == 0 then 0.0 else Times(n - 1, a) + a
  }

  lemma Distribute(r: real, a: real)
    ensures (r + 1.0) * a == r * a + a
  {
  }

  lemma {:induction false} TimesIsProduct(n: nat, a: real)
    ensures Times(n, a) == n as real * a
  {
    if n == 0 {
    } else {
      TimesIsProduct(n - 1, a);
      Distribute((n - 1) as real, a);
    }
  }

  lemma {:induction false} TimesGrows(m: nat, n: nat, a: real)
    requires m <= n && a >= 0.0
    ensures 0.0 <= Times(m, a) <= Times(n, a)
  {
    if n == 0 {
    } else {
      TimesGrows(if m < n then m else n - 1, n - 1, a);
    }
  }

  /** How many elements satisfy `p`. */
  function Count<T>(s: seq<T>, p: T -> bool): nat {
    if s == [] then 0
    else Count(s[..|s| - 1], p) + if p(s[|s| - 1]) then 1 else 0
  }

  function SumReal<T>(s: seq<T>, w: T -> real): real {
    if s == [] then 0.0 else SumReal(s[..|s| - 1], w) + w(s[|s| - 1])
  }

  function SumInt<T>(s: seq<T>, w: T -> int): int {
    if s == [] then 0 else SumInt(s[..|s| - 1], w) + w(s[|s| - 1])
  }

  /** The elements that satisfy `p`, in order. */
  function Filter<T>(s: seq<T>, p: T -> bool): seq<T> {
    if s == [] then []
    else if p(s[|s| - 1]) then Filter(s[..|s| - 1], p) + [s[|s| - 1]]
    else Filter(s[..|s| - 1], p)
  }

  function Map<T, U>(s: seq<T>, f: T -> U): (r: seq<U>)
    ensures |r| == |s|
    ensures forall i | 0 <= i < |s| :: r[i] == f(s[i])
  {
    seq(|s|, i requires 0 <= i < |s| => f(s[i]))
  }

  /** What `f` makes of each element, joined in order. */
  function FlatMap<T, U>(s: seq<T>, f: T -> seq<U>): seq<U> {
    if s == [] then [] else FlatMap(s[..|s| - 1], f) + f(s[|s| - 1])
  }

  /** The values `f` yields, in order. */
  function Collect<T, U>(s: seq<T>, f: T -> Option<U>): seq<U> {
    if s == [] then []
    else
      match f(s[|s| - 1])
      case Some(x) => Collect(s[..|s| - 1], f) + [x]
      case None => Collect(s[..|s| - 1], f)
  }

  /** The last value `f` yields. */
  function LastKnown<T, U>(s: seq<T>, f: T -> Option<U>): Option<U> {
    if s == [] then None
    else if f(s[|s| - 1]).Some? then f(s[|s| - 1])
    else LastKnown(s[..|s| - 1], f)
  }

  function ToSet<T>(s: seq<T>): set<T> { set x | x in s }

  lemma ToSetSnoc<T>(s: seq<T>, x: T)
    ensures ToSet(s + [x]) == ToSet(s) + {x}
    ensures |ToSet(s + [x])| == |ToSet(s)| + if x in s then 0 else 1
  {
    assert x in s <==> x in ToSet(s);
    assert x in s ==> ToSet(s) + {x} == ToSet(s);
  }

  lemma MultisetSnoc<T>(s: seq<T>, front: seq<T>, last: T)
    requires s != [] && front == s[..|s| - 1] && last == s[|s| - 1]
    ensures multiset(s) == multiset(front) + multiset{last}
  {
    assert s == front + [last];
  }

  predicate NoDuplicates<T(==)>(s: seq<T>) {
    forall i, j | 0 <= i < j < |s| :: s[i] != s[j]
  }

  lemma ExtendMap<T, U>(s: seq<T>, k: nat, f: T -> U)
    requires k < |s|
    ensures Map(s[..k + 1], f) == Map(s[..k], f) + [f(s[k])]
  {
  }

  lemma MapAppend<T, U>(a: seq<T>, b: seq<T>, f: T -> U)
    ensures Map(a + b, f) == Map(a, f) + Map(b, f)
  {
  }

  lemma FilterSnoc<T>(s: seq<T>, x: T, p: T -> bool)
    ensures Filter(s + [x], p) == if p(x) then Filter(s, p) + [x] else Filter(s, p)
  {
    assert (s + [x])[..|s|] == s;
  }

  lemma {:induction false} FilterAppend<T>(a: seq<T>, b: seq<T>, p: T -> bool)
    ensures Filter(a + b, p) == Filter(a, p) + Filter(b, p)
  {
    if b == [] {
      assert a + b == a;
    } else {
      assert (a + b)[..|a + b| - 1] == a + b[..|b| - 1];
      FilterAppend(a, b[..|b| - 1], p);
    }
  }

  lemma {:induction false} FlatMapMembers<T, U>(s: seq<T>, f: T -> seq<U>, y: U)
    ensures y in FlatMap(s, f) <==> exists x | x in s :: y in f(x)
  {
    if s == [] {
    } else {
      FlatMapMembers(s[..|s| - 1], f, y);
      assert s == s[..|s| - 1] + [s[|s| - 1]];
    }
  }

  lemma CollectSnoc<T, U>(s: seq<T>, x: T, f: T -> Option<U>)
    ensures Collect(s + [x], f) == match f(x) case Some(y) => Collect(s, f) + [y] case None => Collect(s, f)
    ensures LastKnown(s + [x], f) == if f(x).Some? then f(x) else LastKnown(s, f)
    ensures ToSet(Collect(s + [x], f))
            == match f(x) case Some(y) => ToSet(Collect(s, f)) + {y} case None => ToSet(Collect(s, f))
  {
    assert (s + [x])[..|s|] == s;
  }

  lemma CollectNext<T, U>(s: seq<T>, k: nat, f: T -> Option<U>)
    requires k < |s|
    ensures Collect(s[..k + 1], f)
            == Collect(s[..k], f) + match f(s[k]) case Some(y) => [y] case None => []
  {
    assert s[..k + 1][..k] == s[..k];
  }

  lemma {:induction false} CollectAppend<T, U>(a: seq<T>, b: seq<T>, f: T -> Option<U>)
    ensures Collect(a + b, f) == Collect(a, f) + Collect(b, f)
  {
    if b == [] {
      assert a + b == a;
    } else {
      var front, last := b[..|b| - 1], b[|b| - 1];
      CollectAppend(a, front, f);
      assert a + b == (a + front) + [last] && b == front + [last];
      CollectSnoc(a + front, last, f);
      CollectSnoc(front, last, f);
    }
  }

  lemma {:induction false} LastKnownAppend<T, U>(a: seq<T>, b: seq<T>, f: T -> Option<U>)
    ensures LastKnown(a + b, f) == if LastKnown(b, f).Some? then LastKnown(b, f) else LastKnown(a, f)
  {
    if b == [] {
      assert a + b == a;
    } else {
      assert (a + b)[..|a + b| - 1] == a + b[..|b| - 1];
      LastKnownAppend(a, b[..|b| - 1], f);
    }
  }

  /** Collecting looks at the values alone. */
  lemma {:induction false} CollectSame<T, U>(a: seq<T>, b: seq<T>, f: T -> Option<U>)
    requires Map(a, f) == Map(b, f)
    ensures Collect(a, f) == Collect(b, f)
  {
    assert |a| == |Map(a, f)| == |b|;
    if a == [] {
    } else {
      var n := |a| - 1;
      assert f(a[n]) == Map(a, f)[n] == Map(b, f)[n] == f(b[n]);
      assert Map(a[..n], f) == Map(a, f)[..n] == Map(b[..n], f);
      CollectSame(a[..n], b[..n], f);
    }
  }

  lemma {:induction false} CollectMembers<T, U>(s: seq<T>, f: T -> Option<U>, x: U)
    ensures x in Collect(s, f) <==> exists i :: 0 <= i < |s| && f(s[i]) == Some(x)
  {
    if s == [] {
    } else {
      var front := s[..|s| - 1];
      CollectMembers(front, f, x);
      if i :| 0 <= i < |s| && f(s[i]) == Some(x) {
        assert i < |front| ==> f(front[i]) == Some(x);
      }
      if i :| 0 <= i < |front| && f(front[i]) == Some(x) {
        assert f(s[i]) == Some(x);
      }
    }
  }

  /** Replacing one element changes a count by that element's contribution alone. */
  lemma {:induction false} CountUpdate<T>(s: seq<T>, i: nat, x: T, p: T -> bool)
    requires i < |s|
    ensures Count(s[i := x], p) == Count(s, p) - (if p(s[i]) then 1 else 0) + (if p(x) then 1 else 0)
  {
    var n := |s| - 1;
    if i == n {
      assert s[i := x][..n] == s[..n];
    } else {
      assert s[i := x][..n] == s[..n][i := x];
      CountUpdate(s[..n], i, x, p);
    }
  }

  lemma {:induction false} SumRealUpdate<T>(s: seq<T>, i: nat, x: T, w: T -> real)
    requires i < |s|
    ensures SumReal(s[i := x], w) == SumReal(s, w) - w(s[i]) + w(x)
  {
    var n := |s| - 1;
    if i == n {
      assert s[i := x][..n] == s[..n];
    } else {
      assert s[i := x][..n] == s[..n][i := x];
      SumRealUpdate(s[..n], i, x, w);
    }
  }

  lemma {:induction false} SumIntUpdate<T>(s: seq<T>, i: nat, x: T, w: T -> int)
    requires i < |s|
    ensures SumInt(s[i := x], w) == SumInt(s, w) - w(s[i]) + w(x)
  {
    var n := |s| - 1;
    if i == n {
      assert s[i := x][..n] == s[..n];
    } else {
      assert s[i := x][..n] == s[..n][i := x];
      SumIntUpdate(s[..n], i, x, w);
    }
  }

  lemma {:induction false} CountSame<T>(s: seq<T>, p: T -> bool, q: T -> bool)
    requires forall x | x in s :: p(x) == q(x)
    ensures Count(s, p) == Count(s, q)
  {
    if s == [] {
    } else {
      CountSame(s[..|s| - 1], p, q);
    }
  }

  lemma {:induction false} CountImplied<T>(s: seq<T>, p: T -> bool, q: T -> bool)
    requires forall x | x in s :: p(x) ==> q(x)
    ensures Count(s, p) <= Count(s, q) <= |s|
  {
    if s == [] {
    } else {
      CountImplied(s[..|s| - 1], p, q);
    }
  }

  lemma {:induction false} CountPositive<T>(s: seq<T>, p: T -> bool)
    ensures Count(s, p) > 0 <==> exists i :: 0 <= i < |s| && p(s[i])
  {
    if s == [] {
    } else {
      var front := s[..|s| - 1];
      CountPositive(front, p);
      if i :| 0 <= i < |s| && p(s[i]) {
        assert i < |front| ==> p(front[i]);
      }
      if i :| 0 <= i < |front| && p(front[i]) {
        assert p(s[i]);
      }
    }
  }

  /** Counts of disjoint conditions add up. */
  lemma {:induction false} CountSplit<T>(s: seq<T>, p: T -> bool, q: T -> bool, r: T -> bool)
    requires forall x | x in s :: r(x) == (p(x) || q(x)) && !(p(x) && q(x))
    ensures Count(s, r) == Count(s, p) + Count(s, q)
  {
    if s == [] {
    } else {
      CountSplit(s[..|s| - 1], p, q, r);
    }
  }

  lemma {:induction false} FilterMembers<T>(s: seq<T>, p: T -> bool)
    ensures forall x :: x in Filter(s, p) <==> x in s && p(x)
  {
    if s == [] {
    } else {
      assert s == s[..|s| - 1] + [s[|s| - 1]];
      FilterMembers(s[..|s| - 1], p);
    }
  }

  lemma {:induction false} FilterAll<T>(s: seq<T>, p: T -> bool)
    requires forall x | x in s :: p(x)
    ensures Filter(s, p) == s
  {
    if s == [] {
    } else {
      FilterAll(s[..|s| - 1], p);
      assert s == s[..|s| - 1] + [s[|s| - 1]];
    }
  }

  lemma {:induction false} FilterNone<T>(s: seq<T>, p: T -> bool)
    requires forall x | x in s :: !p(x)
    ensures Filter(s, p) == []
  {
    if s == [] {
    } else {
      FilterNone(s[..|s| - 1], p);
    }
  }

  /** Filtering twice is filtering by the conjunction. */
  lemma {:induction false} FilterFilter<T>(s: seq<T>, p: T -> bool, q: T -> bool, both: T -> bool)
    requires forall x | x in s :: both(x) == (p(x) && q(x))
    ensures Filter(Filter(s, p), q) == Filter(s, both)
  {
    if s == [] {
    } else {
      var front, x := s[..|s| - 1], s[|s| - 1];
      FilterFilter(front, p, q, both);
      if p(x) {
        FilterSnoc(Filter(front, p), x, q);
      }
    }
  }

  lemma {:induction false} FilterMultiset<T>(s: seq<T>, p: T -> bool)
    ensures forall x :: multiset(Filter(s, p))[x] == if p(x) then multiset(s)[x] else 0
  {
    if s == [] {
    } else {
      assert s == s[..|s| - 1] + [s[|s| - 1]];
      FilterMultiset(s[..|s| - 1], p);
    }
  }

  /** Having no repetitions shows in the multiplicities. */
  lemma {:induction false} NoDuplicatesMultiset<T>(s: seq<T>)
    ensures NoDuplicates(s) <==> forall x :: multiset(s)[x] <= 1
  {
    if s == [] {
    } else {
      var front, last := s[..|s| - 1], s[|s| - 1];
      NoDuplicatesMultiset(front);
      assert s == front + [last];
      assert multiset(s) == multiset(front) + multiset{last};
      if NoDuplicates(s) {
        assert last !in front;
        assert multiset(front)[last] == 0;
      } else {
        if NoDuplicates(front) {
          var i, j :| 0 <= i < j < |s| && s[i] == s[j];
          assert j == |s| - 1;
          assert front[i] == last;
          assert multiset(s)[last] >= 2;
        } else {
          var x :| multiset(front)[x] > 1;
          assert multiset(s)[x] > 1;
        }
      }
    }
  }

  lemma {:induction false} CountAll<T>(s: seq<T>, p: T -> bool)
    requires forall x | x in s :: p(x)
    ensures Count(s, p) == |s|
  {
    if s == [] {
    } else {
      CountAll(s[..|s| - 1], p);
    }
  }

  lemma {:induction false} CountFull<T>(s: seq<T>, p: T -> bool)
    ensures Count(s, p) <= |s|
    ensures Count(s, p) == |s| <==> forall x | x in s :: p(x)
  {
    if s == [] {
    } else {
      CountFull(s[..|s| - 1], p);
      assert s == s[..|s| - 1] + [s[|s| - 1]];
    }
  }

  lemma MapMember<T, U>(s: seq<T>, f: T -> U, y: U)
    ensures y in Map(s, f) <==> exists x | x in s :: f(x) == y
  {
    if y in Map(s, f) {
      var i :| 0 <= i < |s| && Map(s, f)[i] == y;
      assert s[i] in s && f(s[i]) == y;
    }
    if x :| x in s && f(x) == y {
      var i :| 0 <= i < |s| && s[i] == x;
      assert Map(s, f)[i] == y;
    }
  }

  lemma {:induction false} SubsetSize<T>(few: set<T>, many: set<T>)
    requires few <= many
    ensures |few| <= |many|
  {
    if few == {} {
    } else {
      var x :| x in few;
      SubsetSize(few - {x}, many - {x});
    }
  }

  lemma MapAround<T, U>(before: seq<T>, x: T, after: seq<T>, f: T -> U)
    ensures multiset(before + [x] + after) == multiset(before + after) + multiset{x}
    ensures multiset(Map(before + [x] + after, f)) == multiset(Map(before + after, f)) + multiset{f(x)}
  {
    MapAppend(before, [x], f);
    MapAppend(before + [x], after, f);
    MapAppend(before, after, f);
    assert Map([x], f) == [f(x)];
  }

  lemma MapWithout<T, U>(s: seq<T>, i: nat, rest: seq<T>, f: T -> U)
    requires i < |s| && rest == s[..i] + s[i + 1..]
    ensures multiset(s) == multiset(rest) + multiset{s[i]}
    ensures multiset(Map(s, f)) == multiset(Map(rest, f)) + multiset{f(s[i])}
  {
    MapAround(s[..i], s[i], s[i + 1..], f);
    assert s == s[..i] + [s[i]] + s[i + 1..];
  }

  lemma SameWithout<T>(a: seq<T>, b: seq<T>, x: T)
    requires multiset(a) + multiset{x} == multiset(b) + multiset{x}
    ensures multiset(a) == multiset(b)
  {
    assert multiset(a) == multiset(a) + multiset{x} - multiset{x};
  }

  lemma {:induction false} MapMultiset<T, U>(a: seq<T>, b: seq<T>, f: T -> U)
    requires multiset(a) == multiset(b)
    ensures multiset(Map(a, f)) == multiset(Map(b, f))
  {
    assert |a| == |multiset(a)| == |multiset(b)| == |b|;
    if a == [] {
    } else {
      var front, last := a[..|a| - 1], a[|a| - 1];
      assert front == front + a[|a|..];
      assert last in multiset(b);
      var i :| 0 <= i < |b| && b[i] == last;
      var rest := b[..i] + b[i + 1..];
      MapWithout(a, |a| - 1, front, f);
      MapWithout(b, i, rest, f);
      SameWithout(front, rest, last);
      MapMultiset(front, rest, f);
    }
  }

  lemma SameElements<T>(xs: seq<T>, ys: seq<T>)
    requires multiset(xs) == multiset(ys)
    ensures forall x :: x in xs <==> x in ys
  {
    forall x
      ensures x in xs <==> x in ys
    {
      assert x in xs <==> x in multiset(xs);
      assert x in ys <==> x in multiset(ys);
    }
  }

  lemma {:induction false} CountMapped<T, U>(s: seq<T>, f: T -> U, p: U -> bool, q: T -> bool)
    requires forall x | x in s :: p(f(x)) == q(x)
    ensures Count(Map(s, f), p) == Count(s, q)
  {
    if s == [] {
    } else {
      var front := s[..|s| - 1];
      CountMapped(front, f, p, q);
      assert Map(s, f)[..|s| - 1] == Map(front, f);
    }
  }
}
