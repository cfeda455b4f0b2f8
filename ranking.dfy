/** Ranking: the stable sort by descending score and the truncation to the first top_n entries. */
module Ranking {
  import opened Records

  /** Scores never increase from left to right. */
  predicate SortedByScore(s: seq<Scored>) {
    forall i, j :: 0 <= i < j < |s| ==> s[i].similarity >= s[j].similarity
  }

  /** The entries of s whose score is v, in their order in s. */
  function WithScore(s: seq<Scored>, v: real): seq<Scored> {
    if s == [] then []
    else (if s[0].similarity == v then [s[0]] else []) + WithScore(s[1..], v)
  }

  /** Inserts x into the descending sequence t after every entry that scores at least as much. */
  function InsertByScore(t: seq<Scored>, x: Scored): seq<Scored> {
    if t == [] then [x]
    else if t[0].similarity < x.similarity then [x] + t
    else [t[0]] + InsertByScore(t[1..], x)
  }

  /** Python's stable s.sort(key=similarity, reverse=True), as a function of the list s. */
  function Descending(s: seq<Scored>): seq<Scored> {
    if s == [] then []
    else InsertByScore(Descending(s[..|s| - 1]), s[|s| - 1])
  }

  lemma {:induction false} WithScoreAppend(a: seq<Scored>, b: seq<Scored>, v: real)
    ensures WithScore(a + b, v) == WithScore(a, v) + WithScore(b, v)
  {
    if a == [] {
      assert a + b == b;
    } else {
      var c := if a[0].similarity == v then [a[0]] else [];
      assert (a + b)[0] == a[0];
      assert (a + b)[1..] == a[1..] + b;
      WithScoreAppend(a[1..], b, v);
      calc {
        WithScore(a + b, v);
        c + WithScore(a[1..] + b, v);
        c + (WithScore(a[1..], v) + WithScore(b, v));
        (c + WithScore(a[1..], v)) + WithScore(b, v);
      }
    }
  }

  lemma WithScoreCons(e: Scored, r: seq<Scored>, v: real)
    ensures WithScore([e] + r, v) == (if e.similarity == v then [e] else []) + WithScore(r, v)
  {
    assert ([e] + r)[1..] == r;
  }

  lemma {:induction false} WithScoreNone(t: seq<Scored>, v: real)
    requires forall k :: 0 <= k < |t| ==> t[k].similarity != v
    ensures WithScore(t, v) == []
  {
    if t != [] {
      WithScoreNone(t[1..], v);
    }
  }

  /** An entry is in the score class v exactly when it is in s and scores v. */
  lemma {:induction false} WithScoreMembers(s: seq<Scored>, v: real)
    ensures forall e :: e in WithScore(s, v) <==> e in s && e.similarity == v
  {
    if s != [] {
      WithScoreMembers(s[1..], v);
      assert s == [s[0]] + s[1..];
    }
  }

  /** The score class v of a prefix of s is a prefix of the score class v of s. */
  lemma {:induction false} WithScoreOfPrefix(s: seq<Scored>, k: nat, v: real)
    requires k <= |s|
    ensures WithScore(s[..k], v) <= WithScore(s, v)
  {
    if k > 0 {
      assert s[..k][1..] == s[1..][..k - 1];
      WithScoreOfPrefix(s[1..], k - 1, v);
    }
  }

  lemma {:induction false} InsertPermutes(t: seq<Scored>, x: Scored)
    ensures multiset(InsertByScore(t, x)) == multiset(t) + multiset{x}
  {
    if t != [] && t[0].similarity >= x.similarity {
      InsertPermutes(t[1..], x);
      assert t == [t[0]] + t[1..];
    }
  }

  lemma {:induction false} InsertKeepsSorted(t: seq<Scored>, x: Scored)
    requires SortedByScore(t)
    ensures SortedByScore(InsertByScore(t, x))
  {
    if t != [] && t[0].similarity >= x.similarity {
      var rest := InsertByScore(t[1..], x);
      InsertKeepsSorted(t[1..], x);
      InsertPermutes(t[1..], x);
      forall e | e in rest ensures e.similarity <= t[0].similarity {
        assert e in multiset(rest);
        if e != x {
          assert e in t[1..];
        }
      }
    }
  }

  /** Inserting x after every entry scoring at least as much puts x last in its score class. */
  lemma {:induction false} InsertIsStable(t: seq<Scored>, x: Scored, v: real)
    requires SortedByScore(t)
    ensures WithScore(InsertByScore(t, x), v) == WithScore(t, v) + (if x.similarity == v then [x] else [])
  {
    if t == [] {
      WithScoreCons(x, [], v);
    } else if t[0].similarity < x.similarity {
      WithScoreCons(x, t, v);
      if x.similarity == v {
        WithScoreNone(t, v);
      }
    } else {
      InsertIsStable(t[1..], x, v);
      WithScoreCons(t[0], InsertByScore(t[1..], x), v);
      WithScoreCons(t[0], t[1..], v);
      assert t == [t[0]] + t[1..];
    }
  }

  /** The result of the sort holds the same entries, as often as the input does. */
  lemma {:induction false} DescendingPermutes(s: seq<Scored>)
    ensures multiset(Descending(s)) == multiset(s)
    ensures |Descending(s)| == |s|
  {
    if s != [] {
      DescendingPermutes(s[..|s| - 1]);
      InsertPermutes(Descending(s[..|s| - 1]), s[|s| - 1]);
      assert s == s[..|s| - 1] + [s[|s| - 1]];
    }
    assert |multiset(Descending(s))| == |Descending(s)|;
  }

  /** The result of the sort is in descending score order. */
  lemma {:induction false} DescendingIsSorted(s: seq<Scored>)
    ensures SortedByScore(Descending(s))
  {
    if s != [] {
      DescendingIsSorted(s[..|s| - 1]);
      InsertKeepsSorted(Descending(s[..|s| - 1]), s[|s| - 1]);
    }
  }

  /** The sort is stable: entries of equal score keep their input order. */
  lemma {:induction false} DescendingIsStable(s: seq<Scored>, v: real)
    ensures WithScore(Descending(s), v) == WithScore(s, v)
  {
    if s != [] {
      var init, last := s[..|s| - 1], s[|s| - 1];
      var x := if last.similarity == v then [last] else [];
      DescendingIsSorted(init);
      assert s == init + [last];
      calc {
        WithScore(Descending(s), v);
        WithScore(InsertByScore(Descending(init), last), v);
        { InsertIsStable(Descending(init), last, v); }
        WithScore(Descending(init), v) + x;
        { DescendingIsStable(init, v); }
        WithScore(init, v) + x;
        { WithScoreCons(last, [], v); }
        WithScore(init, v) + WithScore([last], v);
        { WithScoreAppend(init, [last], v); }
        WithScore(s, v);
      }
    }
  }

  /** Two sequences that each start with a largest score and have the same score
      classes start with the same entry. */
  lemma SameClassesSameHead(x: seq<Scored>, y: seq<Scored>)
    requires x != [] && y != []
    requires forall k :: 0 <= k < |x| ==> x[k].similarity <= x[0].similarity
    requires forall k :: 0 <= k < |y| ==> y[k].similarity <= y[0].similarity
    requires forall v :: WithScore(x, v) == WithScore(y, v)
    ensures x[0] == y[0]
  {
    var m, n := x[0].similarity, y[0].similarity;
    var wx, wy := WithScore(x, m), WithScore(y, n);
    assert wx == [x[0]] + WithScore(x[1..], m);
    assert wy == [y[0]] + WithScore(y[1..], n);
    WithScoreMembers(y, m);
    assert x[0] in WithScore(y, m);
    WithScoreMembers(x, n);
    assert y[0] in WithScore(x, n);
    assert m == n;
    assert wx == wy;
    assert wx[0] == x[0] && wy[0] == y[0];
  }

  /** Removing the same head from both keeps the score classes of two sequences equal. */
  lemma SameClassesSameTail(x: seq<Scored>, y: seq<Scored>)
    requires x != [] && y != [] && x[0] == y[0]
    requires forall v :: WithScore(x, v) == WithScore(y, v)
    ensures forall v :: WithScore(x[1..], v) == WithScore(y[1..], v)
  {
    forall v ensures WithScore(x[1..], v) == WithScore(y[1..], v) {
      var c := if x[0].similarity == v then [x[0]] else [];
      assert WithScore(x, v) == c + WithScore(x[1..], v);
      assert WithScore(y, v) == c + WithScore(y[1..], v);
      assert WithScore(x[1..], v) == WithScore(x, v)[|c|..];
      assert WithScore(y[1..], v) == WithScore(y, v)[|c|..];
    }
  }

  /** Two descending sequences with the same score classes are equal. */
  lemma {:induction false} SameClassesSameSequence(x: seq<Scored>, y: seq<Scored>)
    requires SortedByScore(x) && SortedByScore(y)
    requires forall v :: WithScore(x, v) == WithScore(y, v)
    ensures x == y
    decreases |x|
  {
    if x == [] || y == [] {
      if x != [] {
        WithScoreMembers(x, x[0].similarity);
      }
      if y != [] {
        WithScoreMembers(y, y[0].similarity);
      }
    } else {
      SameClassesSameHead(x, y);
      SameClassesSameTail(x, y);
      SameClassesSameSequence(x[1..], y[1..]);
      assert x == [x[0]] + x[1..] && y == [y[0]] + y[1..];
    }
  }

  /** Any stable descending arrangement of s is the one Descending computes, so the model
      does not depend on the sorting algorithm. */
  lemma DescendingIsUnique(s: seq<Scored>, out: seq<Scored>)
    requires SortedByScore(out)
    requires forall v :: WithScore(out, v) == WithScore(s, v)
    ensures out == Descending(s)
  {
    DescendingIsSorted(s);
    forall v ensures WithScore(out, v) == WithScore(Descending(s), v) {
      DescendingIsStable(s, v);
    }
    SameClassesSameSequence(out, Descending(s));
  }

  /** Where the insertion loop stops, InsertByScore puts x. */
  lemma {:induction false} InsertAt(t: seq<Scored>, x: Scored, j: nat)
    requires j <= |t|
    requires forall m :: 0 <= m < j ==> t[m].similarity >= x.similarity
    requires j < |t| ==> t[j].similarity < x.similarity
    ensures InsertByScore(t, x) == t[..j] + [x] + t[j..]
  {
    if j > 0 {
      InsertAt(t[1..], x, j - 1);
      assert t[..j] == [t[0]] + t[1..][..j - 1];
      assert t[j..] == t[1..][j - 1..];
    }
  }

  /** Where the shifting loop stops: with x written at j and the entries of the
      descending t from j on moved one place right, r is InsertByScore(t, x). */
  lemma ShiftedIsInserted(t: seq<Scored>, x: Scored, j: nat, r: seq<Scored>)
    requires SortedByScore(t) && j <= |t| && |r| == |t| + 1
    requires forall m :: 0 <= m < j ==> r[m] == t[m]
    requires r[j] == x
    requires forall m :: j < m <= |t| ==> r[m] == t[m - 1]
    requires j > 0 ==> t[j - 1].similarity >= x.similarity
    requires forall m :: j <= m < |t| ==> t[m].similarity < x.similarity
    ensures r == InsertByScore(t, x)
  {
    assert forall m :: 0 <= m < j ==> t[m].similarity >= x.similarity by {
      if j > 0 {
        assert forall m :: 0 <= m < j ==> t[m].similarity >= t[j - 1].similarity;
      }
    }
    InsertAt(t, x, j);
    var u := t[..j] + [x] + t[j..];
    assert |u| == |r|;
    assert forall m :: 0 <= m < |r| ==> r[m] == u[m];
  }

  /** The inner loop of the insertion sort: moves a[i] left past every entry that scores
      less, into the descending prefix a[..i]. */
  method InsertIntoPrefix(a: array<Scored>, i: nat)
    requires i < a.Length && SortedByScore(a[..i])
    modifies a
    ensures a[..i + 1] == InsertByScore(old(a[..i]), old(a[i]))
    ensures forall m :: i < m < a.Length ==> a[m] == old(a[m])
  {
    ghost var t := a[..i];
    var key := a[i];
    var j := i;
    while j > 0 && a[j - 1].similarity < key.similarity
      invariant 0 <= j <= i
      invariant forall m :: 0 <= m < j ==> a[m] == t[m]
      invariant forall m :: j < m <= i ==> a[m] == t[m - 1]
      invariant forall m :: i < m < a.Length ==> a[m] == old(a[m])
      invariant forall m :: j <= m < i ==> t[m].similarity < key.similarity
    {
      a[j] := a[j - 1];
      j := j - 1;
    }
    a[j] := key;
    ShiftedIsInserted(t, key, j, a[..i + 1]);
  }

  /** results.sort(key=similarity, reverse=True): an in-place stable insertion sort. */
  method SortDescending(a: array<Scored>)
    modifies a
    ensures a[..] == Descending(old(a[..]))
  {
    ghost var s := a[..];
    var i := 0;
    while i < a.Length
      invariant 0 <= i <= a.Length
      invariant a[..i] == Descending(s[..i])
      invariant forall m :: i <= m < a.Length ==> a[m] == s[m]
    {
      DescendingIsSorted(s[..i]);
      InsertIntoPrefix(a, i);
      assert s[..i + 1][..i] == s[..i];
      i := i + 1;
    }
    assert a[..] == a[..a.Length];
    assert s[..a.Length] == s;
  }

  function Min(x: int, y: int): int {
    if x <= y then x else y
  }

  /** Python's slice s[:n]: the first n entries, or all but the last -n when n is negative. */
  function Slice<T(==)>(s: seq<T>, n: int): (r: seq<T>)
    ensures r <= s
    ensures n >= 0 ==> |r| == Min(n, |s|)
    ensures n < 0 ==> |r| == (if |s| + n > 0 then |s| + n else 0)
  {
    if n >= 0 then (if n < |s| then s[..n] else s)
    else if |s| + n > 0 then s[..|s| + n]
    else []
  }

  /** The ranked list: the scored products sorted by descending score, cut to top_n. */
  function Rank(scored: seq<Scored>, topN: int): seq<Scored> {
    Slice(Descending(scored), topN)
  }

  /** The ranked list is a prefix of a descending rearrangement of the scored products, keeps
      each score class in input order, and has min(top_n, |scored|) entries for top_n >= 0. */
  lemma RankProperties(scored: seq<Scored>, topN: int)
    ensures var out := Rank(scored, topN);
      && out <= Descending(scored)
      && multiset(Descending(scored)) == multiset(scored)
      && SortedByScore(Descending(scored))
      && SortedByScore(out)
      && multiset(out) <= multiset(scored)
      && (forall v :: WithScore(out, v) <= WithScore(scored, v))
      && (topN >= 0 ==> |out| == Min(topN, |scored|))
      && (topN < 0 ==> |out| == (if |scored| + topN > 0 then |scored| + topN else 0))
  {
    var sorted := Descending(scored);
    var out := Rank(scored, topN);
    DescendingPermutes(scored);
    DescendingIsSorted(scored);
    assert sorted == out + sorted[|out|..];
    assert multiset(sorted) == multiset(out) + multiset(sorted[|out|..]);
    forall v ensures WithScore(out, v) <= WithScore(scored, v) {
      DescendingIsStable(scored, v);
      WithScoreOfPrefix(sorted, |out|, v);
    }
  }

  /** In a descending sequence, every entry after position n scores no more than any entry before it. */
  lemma SortedSuffixNoBetter(sorted: seq<Scored>, n: nat)
    requires SortedByScore(sorted) && n <= |sorted|
    ensures forall x, k :: x in multiset(sorted[n..]) && 0 <= k < n ==> x.similarity <= sorted[k].similarity
  {
    var rest := sorted[n..];
    forall x: Scored, k | x in multiset(rest) && 0 <= k < n
      ensures x.similarity <= sorted[k].similarity
    {
      assert x in rest;
      var j :| 0 <= j < |rest| && rest[j] == x;
      assert sorted[n + j] == x;
    }
  }

  /** Every scored entry the cut to top_n leaves out scores no more than any entry kept. */
  lemma RankKeepsBest(scored: seq<Scored>, topN: int)
    ensures var out := Rank(scored, topN);
      forall x, k :: x in multiset(scored) - multiset(out) && 0 <= k < |out| ==>
        x.similarity <= out[k].similarity
  {
    var sorted := Descending(scored);
    var out := Rank(scored, topN);
    var rest := sorted[|out|..];
    assert multiset(scored) - multiset(out) == multiset(rest) by {
      DescendingPermutes(scored);
      assert sorted == out + rest;
    }
    DescendingIsSorted(scored);
    SortedSuffixNoBetter(sorted, |out|);
    assert forall k :: 0 <= k < |out| ==> sorted[k] == out[k];
  }
}
