/** Recency order of a sequence of accesses, and the bounded suffix of it a cache may keep. */
module Recency {
  import opened Ordering

  const LIMIT: nat := 8

  function Without<T(==)>(s: seq<T>, k: T): seq<T> {
    if s == [] then [] else if s[0] == k then Without(s[1..], k) else [s[0]] + Without(s[1..], k)
  }

  /** The distinct keys of `ks`, least recently accessed first. */
  function RecencyOrder<T(==)>(ks: seq<T>): seq<T> {
    if ks == [] then [] else Without(RecencyOrder(ks[..|ks| - 1]), ks[|ks| - 1]) + [ks[|ks| - 1]]
  }

  function Newest<T(==)>(s: seq<T>): seq<T> {
    if |s| <= LIMIT then s else s[|s| - LIMIT..]
  }

  function LastAt<T(==)>(ks: seq<T>, k: T): (i: nat)
    requires k in ks
    ensures i < |ks| && ks[i] == k && forall j :: i < j < |ks| ==> ks[j] != k
  {
    if ks[|ks| - 1] == k then |ks| - 1 else LastAt(ks[..|ks| - 1], k)
  }

  /** The keys accessed after the last access of `k`; none of them is `k`. */
  function AccessedSince<T(==)>(ks: seq<T>, k: T): set<T>
    requires k in ks
  {
    set i | LastAt(ks, k) < i < |ks| :: ks[i]
  }

  // ---------- facts about Without ----------

  lemma Reassociate<T>(a: seq<T>, b: seq<T>, c: seq<T>)
    ensures (a + b) + c == a + (b + c)
  {}

  lemma {:induction false} WithoutAppend<T>(s: seq<T>, t: seq<T>, k: T)
    ensures Without(s + t, k) == Without(s, k) + Without(t, k)
  {
    if s == [] {
      assert s + t == t;
    } else {
      var rest := s[1..];
      WithoutAppend(rest, t, k);
      assert (s + t)[0] == s[0] && (s + t)[1..] == rest + t;
      if s[0] != k { Reassociate([s[0]], Without(rest, k), Without(t, k)); }
    }
  }

  lemma {:induction false} WithoutMembers<T>(s: seq<T>, k: T)
    ensures forall x :: x in Without(s, k) <==> x in s && x != k
  {
    if s != [] {
      WithoutMembers(s[1..], k);
      assert s == [s[0]] + s[1..];
    }
  }

  lemma {:induction false} WithoutAbsent<T>(s: seq<T>, k: T)
    requires k !in s
    ensures Without(s, k) == s
  {
    if s != [] { WithoutAbsent(s[1..], k); }
  }

  lemma {:induction false} WithoutDistinct<T>(s: seq<T>, k: T)
    requires Distinct(s)
    ensures Distinct(Without(s, k))
    ensures |Without(s, k)| == if k in s then |s| - 1 else |s|
  {
    if s != [] {
      WithoutDistinct(s[1..], k);
      WithoutMembers(s[1..], k);
      assert s == [s[0]] + s[1..];
      if s[0] == k {
        WithoutAbsent(s[1..], k);
        assert k !in s[1..];
      } else {
        ConsDistinct(s[0], Without(s[1..], k));
      }
    }
  }

  lemma ConsDistinct<T>(x: T, s: seq<T>)
    requires Distinct(s) && x !in s
    ensures Distinct([x] + s)
  {
    forall i, j | 0 <= i < j < |[x] + s| ensures ([x] + s)[i] != ([x] + s)[j] {
      assert ([x] + s)[j] == s[j - 1];
    }
  }

  lemma {:induction false} RecencyOrderIsDistinct<T>(ks: seq<T>)
    ensures Distinct(RecencyOrder(ks))
    ensures forall x :: x in RecencyOrder(ks) <==> x in ks
  {
    if ks != [] {
      var init, k := ks[..|ks| - 1], ks[|ks| - 1];
      RecencyOrderIsDistinct(init);
      WithoutDistinct(RecencyOrder(init), k);
      WithoutMembers(RecencyOrder(init), k);
      assert ks == init + [k];
    }
  }

  // ---------- one access ----------

  function Older<T(==)>(s: seq<T>): seq<T> { s[..|s| - |Newest(s)|] }

  lemma NewestOfExtension<T>(p: seq<T>, m: seq<T>)
    requires |m| <= LIMIT && (|m| < LIMIT ==> p == [])
    ensures Newest(p + m) == m
  {
    if |m| < LIMIT { assert p + m == m; }
  }

  lemma SplitAtKept<T>(r: seq<T>, k: T)
    requires Distinct(r) && k in Newest(r)
    ensures r == Older(r) + Newest(r) && Distinct(Newest(r)) && k !in Older(r)
  {
    var p, l := Older(r), Newest(r);
    assert r == p + l;
    var j :| 0 <= j < |l| && l[j] == k;
    assert r[|p| + j] == k;
  }

  /** Accessing a kept key moves it to the end of what is kept. */
  lemma {:induction false} HitKeepsNewest<T>(r: seq<T>, k: T)
    requires Distinct(r) && k in Newest(r)
    ensures Newest(Without(r, k) + [k]) == Without(Newest(r), k) + [k]
  {
    hide Without;
    var p, l := Older(r), Newest(r);
    SplitAtKept(r, k);
    WithoutAbsent(p, k);
    WithoutAppend(p, l, k);
    WithoutDistinct(l, k);
    Reassociate(p, Without(l, k), [k]);
    NewestOfExtension(p, Without(l, k) + [k]);
  }

  /** Accessing a key not kept appends it, dropping the oldest kept key when that is one too many. */
  lemma {:induction false} MissKeepsNewest<T>(r: seq<T>, k: T)
    requires k !in Newest(r)
    ensures var grown := Newest(r) + [k];
            Newest(Without(r, k) + [k]) == if |grown| > LIMIT then grown[1..] else grown
  {
    hide Without;
    var p, l := Older(r), Newest(r);
    assert r == p + l;
    WithoutAbsent(l, k);
    WithoutAppend(p, l, k);
    if |l| == LIMIT {
      assert Without(r, k) + [k] == (Without(p, k) + [l[0]]) + (l[1..] + [k]);
      NewestOfExtension(Without(p, k) + [l[0]], l[1..] + [k]);
      assert (l + [k])[1..] == l[1..] + [k];
    } else {
      assert p == [];
      assert Without(r, k) + [k] == l + [k];
    }
  }

  // ---------- which keys are kept ----------

  function TailAfter<T(==)>(s: seq<T>, k: T): seq<T> {
    if s == [] then [] else if s[0] == k then s[1..] else TailAfter(s[1..], k)
  }

  lemma {:induction false} TailAt<T>(s: seq<T>, k: T) returns (i: nat)
    requires k in s
    ensures i < |s| && s[i] == k && TailAfter(s, k) == s[i + 1..]
  {
    if s[0] == k {
      i := 0;
    } else {
      var j := TailAt(s[1..], k);
      i := j + 1;
      assert s[1..][j + 1..] == s[i + 1..];
    }
  }

  lemma {:induction false} TailOfAccess<T>(s: seq<T>, x: T, k: T)
    requires k in s && x != k
    ensures TailAfter(Without(s, x) + [x], k) == Without(TailAfter(s, k), x) + [x]
  {
    if s[0] == k {
      assert Without(s, x) + [x] == [k] + (Without(s[1..], x) + [x]);
    } else {
      TailOfAccess(s[1..], x, k);
      if s[0] != x {
        assert (Without(s, x) + [x])[1..] == Without(s[1..], x) + [x];
      }
    }
  }

  lemma SinceGrows<T>(init: seq<T>, x: T, k: T)
    requires k in init && x != k
    ensures k in init + [x] && AccessedSince(init + [x], k) == AccessedSince(init, k) + {x}
  {
    var ks := init + [x];
    assert ks[..|ks| - 1] == init;
    var j := LastAt(init, k);
    assert LastAt(ks, k) == j;
    forall y ensures y in AccessedSince(ks, k) <==> y in AccessedSince(init, k) + {x} {
      if y in AccessedSince(init, k) {
        var i :| j < i < |init| && init[i] == y;
        assert ks[i] == y;
      }
      assert ks[|ks| - 1] == x;
    }
  }

  lemma {:induction false} TailIsAccessedSince<T>(ks: seq<T>, k: T)
    requires k in ks
    ensures Members(TailAfter(RecencyOrder(ks), k)) == AccessedSince(ks, k)
  {
    hide TailAfter, Without, AccessedSince;
    RecencyOrderIsDistinct(ks);
    var init, x := ks[..|ks| - 1], ks[|ks| - 1];
    assert ks == init + [x];
    if x == k {
      JustAccessed(init, k);
    } else {
      TailIsAccessedSince(init, k);
      RecencyOrderIsDistinct(init);
      TailOfAccess(RecencyOrder(init), x, k);
      var tail := TailAfter(RecencyOrder(init), k);
      WithoutMembers(tail, x);
      SinceGrows(init, x, k);
      assert TailAfter(RecencyOrder(ks), k) == Without(tail, x) + [x];
      assert Members(Without(tail, x) + [x]) == Members(tail) + {x};
    }
  }

  lemma JustAccessed<T>(init: seq<T>, k: T)
    ensures TailAfter(RecencyOrder(init + [k]), k) == [] && AccessedSince(init + [k], k) == {}
  {
    var before := Without(RecencyOrder(init), k);
    var r := RecencyOrder(init + [k]);
    assert (init + [k])[..|init|] == init;
    assert r == before + [k];
    WithoutMembers(RecencyOrder(init), k);
    var i := TailAt(r, k);
    assert i == |before| by {
      assert k !in before;
      assert forall j :: 0 <= j < |before| ==> r[j] == before[j];
    }
  }

  function Members<T(==)>(s: seq<T>): set<T> { set x | x in s }

  lemma {:induction false} DistinctCount<T>(s: seq<T>)
    requires Distinct(s)
    ensures |Members(s)| == |s|
  {
    if s != [] {
      var init, last := s[..|s| - 1], s[|s| - 1];
      DistinctCount(init);
      assert s == init + [last];
      assert last !in Members(init);
      assert Members(s) == Members(init) + {last};
    }
  }

  /** The kept keys are those accessed with fewer than eight distinct other keys accessed since. */
  lemma {:induction false} KeptIffRecent<T>(ks: seq<T>, k: T)
    ensures k in Newest(RecencyOrder(ks)) <==> k in ks && |AccessedSince(ks, k)| < LIMIT
  {
    var r := RecencyOrder(ks);
    RecencyOrderIsDistinct(ks);
    if k in ks {
      TailIsAccessedSince(ks, k);
      var i := TailAt(r, k);
      DistinctCount(r[i + 1..]);
      assert |AccessedSince(ks, k)| == |r| - i - 1;
      var l := Newest(r);
      if i >= |r| - |l| {
        assert l[i - (|r| - |l|)] == k;
      }
      assert forall j :: 0 <= j < |l| ==> l[j] == r[|r| - |l| + j];
    }
  }
}
