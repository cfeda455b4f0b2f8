/** Lexical similarity of two texts: the share of whitespace-separated tokens they have in common. */
module Similarity {
  import opened Records

  /** The characters Python's str.split() treats as whitespace. */
  predicate IsWhitespace(c: char) {
    || ('\t' <= c <= '\r')
    || ('\U{1C}' <= c <= ' ')
    || c == '\U{85}' || c == '\U{A0}' || c == '\U{1680}'
    || ('\U{2000}' <= c <= '\U{200A}')
    || c == '\U{2028}' || c == '\U{2029}' || c == '\U{202F}' || c == '\U{205F}'
    || c == '\U{3000}'
  }

  /** A text made of whitespace only (the empty text included). */
  predicate IsBlank(s: string) {
    forall i :: 0 <= i < |s| ==> IsWhitespace(s[i])
  }

  /** The length of the run of non-whitespace characters that starts s. */
  function WordLength(s: string): (n: nat)
    ensures n <= |s|
    ensures forall i :: 0 <= i < n ==> !IsWhitespace(s[i])
    ensures n < |s| ==> IsWhitespace(s[n])
  {
    if s == [] || IsWhitespace(s[0]) then 0 else 1 + WordLength(s[1..])
  }

  /** The list s.split() returns: the maximal runs of non-whitespace characters, in order. */
  function Words(s: string): seq<string>
    decreases |s|
  {
    if s == [] then []
    else if IsWhitespace(s[0]) then Words(s[1..])
    else
      var n := WordLength(s);
      [s[..n]] + Words(s[n..])
  }

  /** The set set(s.split()). */
  function Tokens(s: string): set<string> {
    set w | w in Words(s)
  }

  /** The text " ".join(ws). */
  function Join(ws: seq<string>): string {
    if ws == [] then ""
    else if |ws| == 1 then ws[0]
    else Join(ws[..|ws| - 1]) + " " + ws[|ws| - 1]
  }

  /** Every word is non-empty and holds no whitespace. */
  lemma {:induction false} WordsAreWords(s: string)
    ensures forall w :: w in Words(s) ==> w != [] && forall i :: 0 <= i < |w| ==> !IsWhitespace(w[i])
    decreases |s|
  {
    if s == [] {
    } else if IsWhitespace(s[0]) {
      WordsAreWords(s[1..]);
    } else {
      var n := WordLength(s);
      WordsAreWords(s[n..]);
    }
  }

  /** A text has no words exactly when it is blank. */
  lemma {:induction false} NoWordsIffBlank(s: string)
    ensures Words(s) == [] <==> IsBlank(s)
    decreases |s|
  {
    if s == [] {
    } else if IsWhitespace(s[0]) {
      NoWordsIffBlank(s[1..]);
      assert IsBlank(s) <==> IsBlank(s[1..]) by {
        if IsBlank(s[1..]) {
          forall i | 0 <= i < |s| ensures IsWhitespace(s[i]) {
            if i > 0 { assert s[i] == s[1..][i - 1]; }
          }
        }
      }
    } else {
      assert !IsBlank(s);
    }
  }

  /** A text has no tokens exactly when it is blank. */
  lemma NoTokensIffBlank(s: string)
    ensures Tokens(s) == {} <==> IsBlank(s)
  {
    NoWordsIffBlank(s);
    if Words(s) != [] {
      assert Words(s)[0] in Tokens(s);
    }
  }

  /** A text without whitespace that is not empty is a single word. */
  lemma SingleWord(s: string)
    requires s != [] && forall i :: 0 <= i < |s| ==> !IsWhitespace(s[i])
    ensures Words(s) == [s]
  {
    var n := WordLength(s);
    assert n == |s|;
    assert s[..n] == s;
    assert s[n..] == [];
  }

  lemma {:induction false} WordLengthBeforeSpace(a: string, b: string)
    ensures WordLength(a + " " + b) == WordLength(a)
    decreases |a|
  {
    if a == [] {
      assert (a + " " + b)[0] == ' ';
    } else if IsWhitespace(a[0]) {
      assert (a + " " + b)[0] == a[0];
    } else {
      assert (a + " " + b)[1..] == a[1..] + " " + b;
      WordLengthBeforeSpace(a[1..], b);
    }
  }

  /** Splitting two texts joined by a space gives the words of the first, then those of the second. */
  lemma {:induction false} WordsAroundSpace(a: string, b: string)
    ensures Words(a + " " + b) == Words(a) + Words(b)
    decreases |a|
  {
    var s := a + " " + b;
    if a == [] {
      assert s == [' '] + b;
      assert s[1..] == b;
    } else if IsWhitespace(a[0]) {
      assert s[0] == a[0];
      assert s[1..] == a[1..] + " " + b;
      WordsAroundSpace(a[1..], b);
    } else {
      var n := WordLength(a);
      WordLengthBeforeSpace(a, b);
      assert s[0] == a[0];
      assert s[..n] == a[..n];
      assert s[n..] == a[n..] + " " + b;
      WordsAroundSpace(a[n..], b);
      calc {
        Words(s);
        [a[..n]] + Words(a[n..] + " " + b);
        [a[..n]] + (Words(a[n..]) + Words(b));
        ([a[..n]] + Words(a[n..])) + Words(b);
      }
    }
  }

  lemma TokensAroundSpace(a: string, b: string)
    ensures Tokens(a + " " + b) == Tokens(a) + Tokens(b)
  {
    WordsAroundSpace(a, b);
    var wa, wb := Words(a), Words(b);
    forall t ensures t in wa + wb <==> t in wa || t in wb {
    }
  }

  /** The tokens of " ".join(ws) are exactly the tokens of its parts. */
  lemma {:induction false} TokensOfJoin(ws: seq<string>)
    ensures forall t :: t in Tokens(Join(ws)) <==> exists k :: 0 <= k < |ws| && t in Tokens(ws[k])
  {
    if |ws| <= 1 {
    } else {
      var init, last := ws[..|ws| - 1], ws[|ws| - 1];
      TokensOfJoin(init);
      TokensAroundSpace(Join(init), last);
      assert Tokens(Join(ws)) == Tokens(Join(init)) + Tokens(last);
      forall t | t in Tokens(Join(ws)) ensures exists k :: 0 <= k < |ws| && t in Tokens(ws[k]) {
        if t in Tokens(Join(init)) {
          var k :| 0 <= k < |init| && t in Tokens(init[k]);
          assert ws[k] == init[k];
        } else {
          assert t in Tokens(ws[|ws| - 1]);
        }
      }
      forall t, k | 0 <= k < |ws| && t in Tokens(ws[k]) ensures t in Tokens(Join(ws)) {
        if k < |init| {
          assert init[k] == ws[k];
        }
      }
    }
  }

  /** " ".join(ws) is blank exactly when every part is. */
  lemma JoinIsBlank(ws: seq<string>)
    ensures IsBlank(Join(ws)) <==> forall k :: 0 <= k < |ws| ==> IsBlank(ws[k])
  {
    TokensOfJoin(ws);
    NoTokensIffBlank(Join(ws));
    forall k | 0 <= k < |ws| {
      NoTokensIffBlank(ws[k]);
    }
    if !IsBlank(Join(ws)) {
      var t :| t in Tokens(Join(ws));
    }
  }

  /** " ".join(ws) of non-empty parts is empty exactly when there are no parts. */
  lemma {:induction false} JoinIsEmpty(ws: seq<string>)
    requires forall k :: 0 <= k < |ws| ==> ws[k] != ""
    ensures Join(ws) == "" <==> ws == []
  {
  }

  /** A ratio of a count to a non-zero count no smaller than it lies in [0, 1]. */
  lemma RatioInUnitRange(x: nat, d: nat)
    requires 0 < d && x <= d
    ensures 0.0 <= x as real / d as real <= 1.0
  {
    var q := x as real / d as real;
    assert q * d as real == x as real;
  }

  lemma RatioOfEqual(n: nat)
    requires n > 0
    ensures n as real / n as real == 1.0
  {
  }

  /** The common part of two sets is no larger than either. */
  lemma IntersectionNoLarger<T>(a: set<T>, b: set<T>)
    ensures |a * b| <= |a| && |a * b| <= |b|
  {
    assert a == (a * b) + (a - b);
    assert (a * b) * (a - b) == {};
    assert b == (a * b) + (b - a);
    assert (a * b) * (b - a) == {};
  }

  function Max(x: nat, y: nat): nat {
    if x >= y then x else y
  }

  /** text_similarity(a, b): 0 when either text is empty, otherwise the number of
      common tokens divided by the size of the larger token set. When both texts
      are non-empty but blank that divisor is 0 and the source divides by zero. */
  function Similarity(a: string, b: string): (r: Result<real>)
    ensures a == "" || b == "" ==> r == Success(0.0)
    ensures r.Failure? <==> a != "" && b != "" && IsBlank(a) && IsBlank(b)
    ensures r.Failure? ==> r.error == DivisionByZero
    ensures r.Success? ==> 0.0 <= r.value <= 1.0
  {
    if a == "" || b == "" then Success(0.0)
    else
      var s1, s2 := Tokens(a), Tokens(b);
      var d := Max(|s1|, |s2|);
      NoTokensIffBlank(a);
      NoTokensIffBlank(b);
      if d == 0 then Failure(DivisionByZero)
      else
        IntersectionNoLarger(s1, s2);
        RatioInUnitRange(|s1 * s2|, d);
        Success(|s1 * s2| as real / d as real)
  }

  /** A subset as large as its superset is the whole superset. */
  lemma SubsetOfSameSize<T>(a: set<T>, b: set<T>)
    requires a <= b && |a| == |b|
    ensures a == b
  {
    assert b == a + (b - a);
    assert a * (b - a) == {};
    assert |b - a| == 0;
  }

  /** The similarity does not depend on the order of its arguments. */
  lemma SimilaritySymmetric(a: string, b: string)
    ensures Similarity(a, b) == Similarity(b, a)
  {
    assert Tokens(a) * Tokens(b) == Tokens(b) * Tokens(a);
  }

  /** A text with at least one token is fully similar to itself. */
  lemma SimilarityOfSelf(a: string)
    requires !IsBlank(a)
    ensures Similarity(a, a) == Success(1.0)
  {
    NoTokensIffBlank(a);
    var n := |Tokens(a)|;
    assert Tokens(a) * Tokens(a) == Tokens(a);
    assert Max(n, n) == n && n > 0;
    RatioOfEqual(n);
  }

  /** The similarity is 1 exactly when both texts have the same, non-empty token set. */
  lemma SimilarityIsOneIffSameTokens(a: string, b: string)
    ensures Similarity(a, b) == Success(1.0) <==> a != "" && b != "" && Tokens(a) != {} && Tokens(a) == Tokens(b)
  {
    if Similarity(a, b) == Success(1.0) {
      var s1, s2 := Tokens(a), Tokens(b);
      var d := Max(|s1|, |s2|);
      assert a != "" && b != "" && d > 0;
      var x := |s1 * s2|;
      assert x as real / d as real == 1.0;
      assert x == d by {
        assert x as real == (x as real / d as real) * d as real;
      }
      IntersectionNoLarger(s1, s2);
      SubsetOfSameSize(s1 * s2, s1);
      SubsetOfSameSize(s1 * s2, s2);
    }
    if a != "" && b != "" && Tokens(a) != {} && Tokens(a) == Tokens(b) {
      var n := |Tokens(a)|;
      assert Tokens(a) * Tokens(b) == Tokens(a);
      assert Max(n, n) == n && n > 0;
      RatioOfEqual(n);
    }
  }

  lemma RatioIsZeroIff(x: nat, d: nat)
    requires d > 0
    ensures x as real / d as real == 0.0 <==> x == 0
  {
    assert x as real == (x as real / d as real) * d as real;
  }

  /** The similarity is 0 exactly when a text is empty, or the two texts share no token
      and are not both blank. */
  lemma SimilarityIsZeroIffDisjoint(a: string, b: string)
    ensures Similarity(a, b) == Success(0.0) <==>
              a == "" || b == "" || (!(IsBlank(a) && IsBlank(b)) && Tokens(a) !! Tokens(b))
  {
    NoTokensIffBlank(a);
    NoTokensIffBlank(b);
    if a != "" && b != "" && !(IsBlank(a) && IsBlank(b)) {
      var s1, s2 := Tokens(a), Tokens(b);
      var d := Max(|s1|, |s2|);
      var x := |s1 * s2|;
      assert d > 0;
      assert Similarity(a, b) == Success(x as real / d as real);
      RatioIsZeroIff(x, d);
      assert x == 0 <==> s1 !! s2 by {
        if x == 0 {
          assert s1 * s2 == {};
          forall e | e in s1 ensures e !in s2 {
            assert e !in s1 * s2;
          }
        }
        if s1 !! s2 {
          assert s1 * s2 == {};
        }
      }
    }
  }

  /** Three distinct words joined by spaces have exactly those three tokens. */
  lemma ThreeWordTokens(u: string, v: string, w: string)
    requires Words(u) == [u] && Words(v) == [v] && Words(w) == [w]
    ensures Tokens(u + " " + v + " " + w) == {u, v, w}
  {
    WordsAroundSpace(v, w);
    WordsAroundSpace(u, v + " " + w);
    assert u + " " + v + " " + w == u + " " + (v + " " + w);
  }

  lemma SimilarityTwoOfThree(a: string, b: string)
    requires a != "" && b != ""
    requires |Tokens(a)| == 3 && |Tokens(b)| == 3 && |Tokens(a) * Tokens(b)| == 2
    ensures Similarity(a, b) == Success(2.0 / 3.0)
  {
    var x, d := |Tokens(a) * Tokens(b)|, Max(|Tokens(a)|, |Tokens(b)|);
    assert Similarity(a, b) == Success(x as real / d as real);
  }

  /** Two texts of three distinct words each that share their first two words have
      similarity 2/3 ("red shirt formal" against "red shirt casual", say). */
  lemma SimilarityOfTwoSharedWords(u: string, v: string, w1: string, w2: string)
    requires Words(u) == [u] && Words(v) == [v] && Words(w1) == [w1] && Words(w2) == [w2]
    requires u != v && u != w1 && u != w2 && v != w1 && v != w2 && w1 != w2
    ensures Similarity(u + " " + v + " " + w1, u + " " + v + " " + w2) == Success(2.0 / 3.0)
  {
    ThreeWordTokens(u, v, w1);
    ThreeWordTokens(u, v, w2);
    var s1: set<string> := {u, v, w1};
    var s2: set<string> := {u, v, w2};
    assert s1 * s2 == {u, v};
    assert |s1| == 3 && |s2| == 3 && |s1 * s2| == 2;
    SimilarityTwoOfThree(u + " " + v + " " + w1, u + " " + v + " " + w2);
  }
}
