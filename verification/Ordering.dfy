/** Sorting and comparison as the two source languages perform them: a stable sort by a
    comparator, and lexicographic comparison of strings and of path component lists. */
module Ordering {

  /** The comparator orders the elements of `xs`: any two compare, and it is transitive. */
  ghost predicate Orders<T(!new)>(leq: (T, T) -> bool, xs: seq<T>) {
    && (forall a, b :: a in xs && b in xs ==> leq(a, b) || leq(b, a))
    && (forall a, b, c :: a in xs && b in xs && c in xs && leq(a, b) && leq(b, c) ==> leq(a, c))
  }

  /** No two different elements of `xs` tie. */
  ghost predicate NoTies<T(!new)>(leq: (T, T) -> bool, xs: seq<T>) {
    forall a, b :: a in xs && b in xs && leq(a, b) && leq(b, a) ==> a == b
  }

  ghost predicate SortedBy<T>(leq: (T, T) -> bool, xs: seq<T>) {
    forall i, j :: 0 <= i < j < |xs| ==> leq(xs[i], xs[j])
  }

  ghost predicate Distinct<T>(xs: seq<T>) {
    forall i, j :: 0 <= i < j < |xs| ==> xs[i] != xs[j]
  }

  function Insert<T>(leq: (T, T) -> bool, x: T, xs: seq<T>): (r: seq<T>)
    ensures multiset(r) == multiset{x} + multiset(xs)
    ensures |r| == |xs| + 1
  {
    if xs == [] || leq(x, xs[0]) then [x] + xs
    else
      assert xs == [xs[0]] + xs[1..];
      [xs[0]] + Insert(leq, x, xs[1..])
  }

  /** A stable sort: an element never overtakes an earlier one it ties with. */
  function Sort<T>(leq: (T, T) -> bool, xs: seq<T>): (r: seq<T>)
    ensures multiset(r) == multiset(xs)
    ensures |r| == |xs|
  {
    if xs == [] then []
    else
      assert xs == [xs[0]] + xs[1..];
      Insert(leq, xs[0], Sort(leq, xs[1..]))
  }

  lemma SameElements<T>(xs: seq<T>, ys: seq<T>)
    requires multiset(xs) == multiset(ys)
    ensures |xs| == |ys|
    ensures forall x :: x in xs <==> x in ys
  {
    assert |xs| == |multiset(xs)| == |multiset(ys)| == |ys|;
    forall x ensures x in xs <==> x in ys {
      assert x in xs <==> x in multiset(xs);
      assert x in ys <==> x in multiset(ys);
    }
  }

  lemma {:induction false} InsertKeepsSorted<T(!new)>(leq: (T, T) -> bool, x: T, xs: seq<T>)
    requires Orders(leq, [x] + xs) && SortedBy(leq, xs)
    ensures SortedBy(leq, Insert(leq, x, xs))
  {
    assert x in [x] + xs;
    assert forall y :: y in xs ==> y in [x] + xs;
    if xs == [] {
    } else if leq(x, xs[0]) {
      assert forall y :: y in xs ==> leq(x, y) by {
        forall y | y in xs ensures leq(x, y) {
          assert xs[0] in xs;
          var i :| 0 <= i < |xs| && xs[i] == y;
          assert i == 0 || leq(xs[0], xs[i]);
        }
      }
    } else {
      var rest := xs[1..];
      assert forall y :: y in [x] + rest ==> y in [x] + xs;
      InsertKeepsSorted(leq, x, rest);
      var r := Insert(leq, x, rest);
      SameElements(r, [x] + rest);
      assert forall y :: y in r ==> leq(xs[0], y) by {
        forall y | y in r ensures leq(xs[0], y) {
          assert y in [x] + rest;
          assert xs[0] in [x] + xs;
          if y in rest {
            var i :| 0 <= i < |rest| && rest[i] == y;
            assert xs[i + 1] == y;
          }
        }
      }
    }
  }

  lemma {:induction false} SortSorts<T(!new)>(leq: (T, T) -> bool, xs: seq<T>)
    requires Orders(leq, xs)
    ensures SortedBy(leq, Sort(leq, xs))
  {
    if xs != [] {
      var rest := xs[1..];
      assert forall y :: y in rest ==> y in xs;
      SortSorts(leq, rest);
      SameElements(Sort(leq, rest), rest);
      assert forall y :: y in [xs[0]] + Sort(leq, rest) ==> y in xs;
      InsertKeepsSorted(leq, xs[0], Sort(leq, rest));
    }
  }

  lemma SortedHeads<T(!new)>(leq: (T, T) -> bool, xs: seq<T>, ys: seq<T>)
    requires xs != [] && ys != [] && xs[0] in ys && ys[0] in xs
    requires NoTies(leq, xs) && SortedBy(leq, xs) && SortedBy(leq, ys)
    ensures xs[0] == ys[0]
  {
    var i :| 0 <= i < |ys| && ys[i] == xs[0];
    var j :| 0 <= j < |xs| && xs[j] == ys[0];
    assert i > 0 ==> leq(ys[0], ys[i]);
    assert j > 0 ==> leq(xs[0], xs[j]);
  }

  lemma SharedHeads<T>(xs: seq<T>, ys: seq<T>)
    requires multiset(xs) == multiset(ys)
    ensures |xs| == |ys|
    ensures xs != [] ==> xs[0] in ys && ys[0] in xs
  {
    SameElements(xs, ys);
    if xs != [] { assert xs[0] in xs && ys[0] in ys; }
  }

  lemma WithoutHead<T>(xs: seq<T>)
    requires xs != []
    ensures multiset(xs[1..]) == multiset(xs) - multiset{xs[0]}
  {
    assert xs == [xs[0]] + xs[1..];
  }

  lemma MatchingTails<T>(xs: seq<T>, ys: seq<T>)
    requires multiset(xs) == multiset(ys) && xs != [] && ys != [] && xs[0] == ys[0]
    ensures multiset(xs[1..]) == multiset(ys[1..])
  {
    WithoutHead(xs);
    WithoutHead(ys);
  }

  lemma SameFromTails<T>(xs: seq<T>, ys: seq<T>)
    requires xs != [] && ys != [] && xs[0] == ys[0] && xs[1..] == ys[1..]
    ensures xs == ys
  {
    assert xs == [xs[0]] + xs[1..] && ys == [ys[0]] + ys[1..];
  }

  lemma TailSorted<T>(leq: (T, T) -> bool, xs: seq<T>)
    requires xs != [] && SortedBy(leq, xs)
    ensures SortedBy(leq, xs[1..])
  {}

  lemma TailUntied<T(!new)>(leq: (T, T) -> bool, xs: seq<T>)
    requires xs != [] && NoTies(leq, xs)
    ensures NoTies(leq, xs[1..])
  {
    assert forall x :: x in xs[1..] ==> x in xs;
  }

  /** Two sorted arrangements of the same elements are the same sequence when nothing ties. */
  lemma {:induction false} SortedUnique<T(!new)>(leq: (T, T) -> bool, xs: seq<T>, ys: seq<T>)
    requires multiset(xs) == multiset(ys)
    requires NoTies(leq, xs) && SortedBy(leq, xs) && SortedBy(leq, ys)
    ensures xs == ys
  {
    hide SortedBy, NoTies;
    SharedHeads(xs, ys);
    if xs != [] {
      SortedHeads(leq, xs, ys);
      MatchingTails(xs, ys);
      TailUntied(leq, xs);
      TailSorted(leq, xs);
      TailSorted(leq, ys);
      SortedUnique(leq, xs[1..], ys[1..]);
      SameFromTails(xs, ys);
    }
  }

  /** Sorting forgets the order of its input when the comparator leaves no ties. */
  lemma SortForgetsOrder<T(!new)>(leq: (T, T) -> bool, xs: seq<T>, ys: seq<T>)
    requires multiset(xs) == multiset(ys)
    requires Orders(leq, xs) && NoTies(leq, xs)
    ensures Sort(leq, xs) == Sort(leq, ys)
  {
    SameElements(xs, ys);
    SortSorts(leq, xs);
    SortSorts(leq, ys);
    SameElements(xs, Sort(leq, xs));
    SortedUnique(leq, Sort(leq, xs), Sort(leq, ys));
  }

  function FirstOf<T>(xs: seq<T>, n: nat): seq<T> {
    if |xs| <= n then xs else xs[..n]
  }

  /** Cutting a sorted sequence keeps its front: nothing left out belongs before anything kept. */
  lemma CutKeepsBest<T>(leq: (T, T) -> bool, sorted: seq<T>, n: nat, kept: T, left: T)
    requires SortedBy(leq, sorted) && kept in FirstOf(sorted, n) && left in sorted && left !in FirstOf(sorted, n)
    ensures leq(kept, left) && |FirstOf(sorted, n)| == n
  {
    var cut := FirstOf(sorted, n);
    var i :| 0 <= i < |cut| && cut[i] == kept;
    var k :| 0 <= k < |sorted| && sorted[k] == left;
    assert forall m :: 0 <= m < |cut| ==> sorted[m] == cut[m];
  }

  // ---------- filtering ----------

  function Filter<T>(keep: T -> bool, xs: seq<T>): seq<T> {
    if xs == [] then [] else (if keep(xs[0]) then [xs[0]] else []) + Filter(keep, xs[1..])
  }

  lemma {:induction false} FilterCounts<T>(keep: T -> bool, xs: seq<T>, x: T)
    ensures multiset(Filter(keep, xs))[x] == if keep(x) then multiset(xs)[x] else 0
    ensures x in Filter(keep, xs) <==> x in xs && keep(x)
  {
    if xs != [] {
      FilterCounts(keep, xs[1..], x);
      assert xs == [xs[0]] + xs[1..];
    }
  }

  lemma FilterMembers<T>(keep: T -> bool, xs: seq<T>)
    ensures forall x :: x in Filter(keep, xs) <==> x in xs && keep(x)
  {
    forall x ensures x in Filter(keep, xs) <==> x in xs && keep(x) { FilterCounts(keep, xs, x); }
  }

  /** Filtering commutes with rearranging. */
  lemma FilterForgetsOrder<T(!new)>(keep: T -> bool, xs: seq<T>, ys: seq<T>)
    requires multiset(xs) == multiset(ys)
    ensures multiset(Filter(keep, xs)) == multiset(Filter(keep, ys))
  {
    var a, b := multiset(Filter(keep, xs)), multiset(Filter(keep, ys));
    forall x ensures a[x] == b[x] {
      FilterCounts(keep, xs, x);
      FilterCounts(keep, ys, x);
    }
    assert a == b;
  }

  /** Sequences without repeats stay so when filtered, and are told by their multisets. */
  lemma {:induction false} FilterDistinct<T>(keep: T -> bool, xs: seq<T>)
    requires Distinct(xs)
    ensures Distinct(Filter(keep, xs))
  {
    if xs != [] {
      assert Distinct(xs[1..]);
      FilterDistinct(keep, xs[1..]);
      FilterMembers(keep, xs[1..]);
      var rest := Filter(keep, xs[1..]);
      assert xs[0] !in rest by { assert xs[0] !in xs[1..]; }
      forall i, j | 0 <= i < j < |[xs[0]] + rest| ensures ([xs[0]] + rest)[i] != ([xs[0]] + rest)[j] {
        assert ([xs[0]] + rest)[j] == rest[j - 1];
      }
    }
  }

  lemma {:induction false} DistinctBag<T>(s: seq<T>)
    requires Distinct(s)
    ensures forall x :: multiset(s)[x] <= 1
  {
    if s != [] {
      var init, last := s[..|s| - 1], s[|s| - 1];
      DistinctBag(init);
      assert s == init + [last];
      assert last !in init;
    }
  }

  lemma Twice<T>(s: seq<T>, i: nat, j: nat)
    requires i < j < |s| && s[i] == s[j]
    ensures multiset(s)[s[j]] >= 2
  {
    assert s == s[..j] + [s[j]] + s[j + 1..];
    assert s[..j][i] == s[j];
  }

  lemma BagDistinct<T>(s: seq<T>)
    requires forall x :: multiset(s)[x] <= 1
    ensures Distinct(s)
  {
    forall i, j | 0 <= i < j < |s| ensures s[i] != s[j] {
      if s[i] == s[j] { Twice(s, i, j); }
    }
  }

  lemma SortDistinct<T>(leq: (T, T) -> bool, xs: seq<T>)
    requires Distinct(xs)
    ensures Distinct(Sort(leq, xs))
  {
    DistinctBag(xs);
    BagDistinct(Sort(leq, xs));
  }

  // ---------- stability ----------

  ghost function IfTied<T>(leq: (T, T) -> bool, k: T, x: T): seq<T> {
    if leq(x, k) && leq(k, x) then [x] else []
  }

  /** The elements of `xs` that tie with `k`, in the order they have there. */
  ghost function Tied<T>(leq: (T, T) -> bool, k: T, xs: seq<T>): seq<T> {
    if xs == [] then [] else IfTied(leq, k, xs[0]) + Tied(leq, k, xs[1..])
  }

  lemma {:induction false} TiedCons<T>(leq: (T, T) -> bool, k: T, x: T, xs: seq<T>)
    ensures Tied(leq, k, [x] + xs) == IfTied(leq, k, x) + Tied(leq, k, xs)
  {
    assert ([x] + xs)[1..] == xs;
  }

  lemma TiedSwap<T>(leq: (T, T) -> bool, k: T, x: T, y: T, rest: seq<T>)
    requires IfTied(leq, k, x) == [] || IfTied(leq, k, y) == []
    ensures IfTied(leq, k, y) + (IfTied(leq, k, x) + rest) == IfTied(leq, k, x) + (IfTied(leq, k, y) + rest)
  {}

  lemma {:induction false} InsertIsStable<T(!new)>(leq: (T, T) -> bool, all: seq<T>, x: T, xs: seq<T>, k: T)
    requires Orders(leq, all) && k in all && x in all && forall y :: y in xs ==> y in all
    ensures Tied(leq, k, Insert(leq, x, xs)) == IfTied(leq, k, x) + Tied(leq, k, xs)
  {
    hide Orders;
    if xs == [] || leq(x, xs[0]) {
      TiedCons(leq, k, x, xs);
    } else {
      var rest := xs[1..];
      assert xs[0] in all;
      InsertIsStable(leq, all, x, rest, k);
      TiedCons(leq, k, xs[0], Insert(leq, x, rest));
      PassedIsUntied(leq, all, x, xs[0], k);
      TiedSwap(leq, k, x, xs[0], Tied(leq, k, rest));
    }
  }

  /** An element passed over that ties with `k` shows that `x` does not. */
  lemma PassedIsUntied<T(!new)>(leq: (T, T) -> bool, all: seq<T>, x: T, y: T, k: T)
    requires Orders(leq, all) && k in all && x in all && y in all && !leq(x, y)
    ensures IfTied(leq, k, x) == [] || IfTied(leq, k, y) == []
  {}

  /** Sorting keeps elements that tie in their original order. */
  lemma {:induction false} SortIsStable<T(!new)>(leq: (T, T) -> bool, all: seq<T>, xs: seq<T>, k: T)
    requires Orders(leq, all) && k in all && forall y :: y in xs ==> y in all
    ensures Tied(leq, k, Sort(leq, xs)) == Tied(leq, k, xs)
  {
    hide Orders, Insert;
    if xs != [] {
      var rest := xs[1..];
      assert xs[0] in all;
      SortIsStable(leq, all, rest, k);
      SameElements(Sort(leq, rest), rest);
      InsertIsStable(leq, all, xs[0], Sort(leq, rest), k);
    }
  }

  // ---------- lexicographic comparison ----------

  predicate LexLeq<T(==)>(lt: (T, T) -> bool, a: seq<T>, b: seq<T>) {
    a == [] || (b != [] && (lt(a[0], b[0]) || (a[0] == b[0] && LexLeq(lt, a[1..], b[1..]))))
  }

  ghost predicate StrictOrder<T(!new)>(lt: (T, T) -> bool) {
    && (forall a, b :: lt(a, b) ==> !lt(b, a))
    && (forall a, b :: a != b ==> lt(a, b) || lt(b, a))
    && (forall a, b, c :: lt(a, b) && lt(b, c) ==> lt(a, c))
  }

  lemma {:induction false} LexTotal<T(!new)>(lt: (T, T) -> bool, a: seq<T>, b: seq<T>)
    requires StrictOrder(lt)
    ensures LexLeq(lt, a, b) || LexLeq(lt, b, a)
    ensures LexLeq(lt, a, b) && LexLeq(lt, b, a) ==> a == b
  {
    if a != [] && b != [] && a[0] == b[0] {
      LexTotal(lt, a[1..], b[1..]);
      assert a == [a[0]] + a[1..] && b == [b[0]] + b[1..];
    }
  }

  lemma {:induction false} LexTransitive<T(!new)>(lt: (T, T) -> bool, a: seq<T>, b: seq<T>, c: seq<T>)
    requires StrictOrder(lt) && LexLeq(lt, a, b) && LexLeq(lt, b, c)
    ensures LexLeq(lt, a, c)
  {
    if a != [] && a[0] == b[0] && b[0] == c[0] {
      LexTransitive(lt, a[1..], b[1..], c[1..]);
    }
  }

  /** A proper prefix comes strictly before every extension of it. */
  lemma {:induction false} PrefixFirst<T(!new)>(lt: (T, T) -> bool, a: seq<T>, b: seq<T>)
    requires StrictOrder(lt) && a < b
    ensures LexLeq(lt, a, b) && !LexLeq(lt, b, a)
  {
    if a != [] {
      PrefixFirst(lt, a[1..], b[1..]);
    }
  }

  predicate CharLess(a: char, b: char) { a < b }

  predicate StringLeq(a: string, b: string) { LexLeq(CharLess, a, b) }

  predicate StringLess(a: string, b: string) { a != b && StringLeq(a, b) }

  /** The strings agree before `k`, where `a` ends or has the smaller character. */
  ghost predicate FirstDifference(a: string, b: string, k: int) {
    && 0 <= k <= |a| && k < |b| && a[..k] == b[..k]
    && (k < |a| ==> a[k] < b[k])
  }

  lemma HeadsAgree(a: string, b: string, k: int)
    requires FirstDifference(a, b, k)
    ensures k > 0 ==> a != "" && b != "" && a[0] == b[0]
  {
    if k > 0 { assert a[..k][0] == b[..k][0]; }
  }

  /** One string is less than another as dictionaries have it, character by character. */
  lemma {:induction false} StringLessMeans(a: string, b: string)
    ensures StringLess(a, b) <==> exists k :: FirstDifference(a, b, k)
  {
    if a == "" || b == "" || a[0] != b[0] {
      if StringLess(a, b) { assert FirstDifference(a, b, 0); }
      if k :| FirstDifference(a, b, k) { HeadsAgree(a, b, k); }
    } else {
      StringLessMeans(a[1..], b[1..]);
      assert a == [a[0]] + a[1..] && b == [b[0]] + b[1..];
      if StringLess(a, b) {
        var k :| FirstDifference(a[1..], b[1..], k);
        assert a[..k + 1] == [a[0]] + a[1..][..k] && b[..k + 1] == [b[0]] + b[1..][..k];
        assert FirstDifference(a, b, k + 1);
      }
      if k :| FirstDifference(a, b, k) {
        assert k > 0;
        assert a[1..][..k - 1] == a[..k][1..] && b[1..][..k - 1] == b[..k][1..];
        assert FirstDifference(a[1..], b[1..], k - 1);
      }
    }
  }

  lemma StringOrder()
    ensures StrictOrder(StringLess)
    ensures forall xs: seq<string> :: Orders(StringLeq, xs) && NoTies(StringLeq, xs)
  {
    forall a, b ensures StringLeq(a, b) || StringLeq(b, a)
                ensures StringLeq(a, b) && StringLeq(b, a) ==> a == b {
      LexTotal(CharLess, a, b);
    }
    forall a, b, c | StringLeq(a, b) && StringLeq(b, c) ensures StringLeq(a, c) {
      LexTransitive(CharLess, a, b, c);
    }
  }

  /** Component lists, as Python compares two paths of one kind. */
  type Path = seq<string>

  predicate PathLeq(a: Path, b: Path) { LexLeq(StringLess, a, b) }

  lemma PathOrder(xs: seq<Path>)
    ensures Orders(PathLeq, xs) && NoTies(PathLeq, xs)
  {
    StringOrder();
    forall a, b ensures PathLeq(a, b) || PathLeq(b, a)
                ensures PathLeq(a, b) && PathLeq(b, a) ==> a == b {
      LexTotal(StringLess, a, b);
    }
    forall a, b, c | PathLeq(a, b) && PathLeq(b, c) ensures PathLeq(a, c) {
      LexTransitive(StringLess, a, b, c);
    }
  }
}
