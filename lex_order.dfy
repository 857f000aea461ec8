/**
 * The lexicographic order of a sorted set whose members all carry the same score.
 * Characters compare by code point, which is also the order of their UTF-8 bytes;
 * a proper prefix sorts before every extension of it. Dafny's own `<` on sequences
 * means "proper prefix", so the order is defined here.
 */
module LexOrder {

  /** Strict lexicographic order on strings. */
  predicate LexLess(a: string, b: string)
    decreases |a|
  {
    if |b| == 0 then false
    else if |a| == 0 then true
    else if a[0] != b[0] then a[0] < b[0]
    else LexLess(a[1..], b[1..])
  }

  /** Java's `String.startsWith`. */
  predicate StartsWith(s: string, prefix: string) {
    |prefix| <= |s| && s[..|prefix|] == prefix
  }

  /** Membership of the half-open lexicographic range [lo, hi). */
  predicate InLexRange(t: string, lo: string, hi: string) {
    !LexLess(t, lo) && LexLess(t, hi)
  }

  predicate StrictlyAscending(r: seq<string>) {
    forall i, j :: 0 <= i < j < |r| ==> LexLess(r[i], r[j])
  }

  predicate IsLeast(m: string, s: set<string>) {
    m in s && forall y :: y in s ==> !LexLess(y, m)
  }

  lemma {:induction false} LexLessIrreflexive(a: string)
    ensures !LexLess(a, a)
  {
    if |a| > 0 {
      LexLessIrreflexive(a[1..]);
    }
  }

  lemma {:induction false} LexLessTransitive(a: string, b: string, c: string)
    requires LexLess(a, b) && LexLess(b, c)
    ensures LexLess(a, c)
  {
    if |a| > 0 && a[0] == b[0] && b[0] == c[0] {
      LexLessTransitive(a[1..], b[1..], c[1..]);
    }
  }

  lemma {:induction false} LexLessTotal(a: string, b: string)
    ensures a == b || LexLess(a, b) || LexLess(b, a)
  {
    if |a| > 0 && |b| > 0 && a[0] == b[0] {
      LexLessTotal(a[1..], b[1..]);
      assert a == [a[0]] + a[1..] && b == [b[0]] + b[1..];
    }
  }

  lemma LexLessAsymmetric(a: string, b: string)
    requires LexLess(a, b)
    ensures !LexLess(b, a)
  {
    if LexLess(b, a) {
      LexLessTransitive(a, b, a);
      LexLessIrreflexive(a);
    }
  }

  /** A common prefix does not change the order. */
  lemma {:induction false} LexLessCommonPrefix(p: string, a: string, b: string)
    requires LexLess(a, b)
    ensures LexLess(p + a, p + b)
  {
    if p == [] {
      assert p + a == a && p + b == b;
    } else {
      LexLessCommonPrefix(p[1..], a, b);
      assert (p + a)[0] == p[0] == (p + b)[0];
      assert (p + a)[1..] == p[1..] + a && (p + b)[1..] == p[1..] + b;
    }
  }

  /** A string never sorts below one of its prefixes. */
  lemma {:induction false} PrefixNotBelow(t: string, p: string)
    requires StartsWith(t, p)
    ensures !LexLess(t, p)
  {
    if p != [] {
      assert t[1..][..|p| - 1] == t[..|p|][1..];
      PrefixNotBelow(t[1..], p[1..]);
    }
  }

  /** Past a shared first character, starting with p is starting with p's tail. */
  lemma StartsWithTail(s: string, p: string)
    requires s != [] && p != [] && s[0] == p[0]
    ensures StartsWith(s, p) <==> StartsWith(s[1..], p[1..])
  {
    if |p| <= |s| {
      assert s[..|p|] == [s[0]] + s[1..][..|p| - 1];
      assert p == [p[0]] + p[1..];
    }
  }

  /**
   * Among the strings at or above p, those starting with p come first: each sorts
   * below every string at or above p that does not start with p.
   */
  lemma {:induction false} PrefixedBeforeOthers(t: string, u: string, p: string)
    requires StartsWith(t, p) && !StartsWith(u, p) && !LexLess(u, p)
    ensures LexLess(t, u)
  {
    if p != [] && u != [] {
      assert t[0] == p[0];
      if u[0] == p[0] {
        StartsWithTail(t, p);
        StartsWithTail(u, p);
        PrefixedBeforeOthers(t[1..], u[1..], p[1..]);
      }
    }
  }

  /**
   * The range [p, p + [d]) holds exactly the strings that start with p and whose
   * next character, if any, sorts before d.
   */
  lemma {:induction false} SentinelRange(t: string, p: string, d: char)
    ensures InLexRange(t, p, p + [d]) <==> StartsWith(t, p) && (|t| == |p| || t[|p|] < d)
    decreases |p|
  {
    if |p| == 0 {
      assert StartsWith(t, p);
      if |t| > 0 && t[0] == d {
        assert !LexLess(t[1..], []);
      }
    } else if |t| == 0 {
      assert LexLess(t, p);
    } else if t[0] != p[0] {
      assert (p + [d])[0] == p[0];
      assert |t| < |p| || t[..|p|][0] != p[0];
    } else {
      SentinelRange(t[1..], p[1..], d);
      assert (p + [d])[1..] == p[1..] + [d];
      assert StartsWith(t, p) <==> StartsWith(t[1..], p[1..]) by {
        if StartsWith(t[1..], p[1..]) {
          assert t[..|p|] == [t[0]] + t[1..][..|p| - 1];
          assert p == [p[0]] + p[1..];
        }
      }
    }
  }

  /** Every finite non-empty set of strings has a least member. */
  lemma {:induction false} LeastExists(s: set<string>)
    requires s != {}
    ensures exists m :: IsLeast(m, s)
    decreases |s|
  {
    var x :| x in s;
    if s - {x} == {} {
      assert s == {x};
      LexLessIrreflexive(x);
      assert IsLeast(x, s);
    } else {
      LeastExists(s - {x});
      var m :| IsLeast(m, s - {x});
      if LexLess(x, m) {
        forall y | y in s
          ensures !LexLess(y, x)
        {
          if y == x {
            LexLessIrreflexive(x);
          } else if LexLess(y, x) {
            LexLessTransitive(y, x, m);
          }
        }
        assert IsLeast(x, s);
      } else {
        assert IsLeast(m, s);
      }
    }
  }

  /** The least member sorts strictly before every other member. */
  lemma LeastBelowOthers(m: string, s: set<string>)
    requires IsLeast(m, s)
    ensures forall y :: y in s && y != m ==> LexLess(m, y)
  {
    forall y | y in s && y != m
      ensures LexLess(m, y)
    {
      LexLessTotal(m, y);
    }
  }

  /** The members of a finite set, strictly ascending: the order a lexicographic range query returns them in. */
  ghost function Ascending(s: set<string>): (r: seq<string>)
    ensures StrictlyAscending(r)
    ensures |r| == |s|
    ensures forall t :: t in r <==> t in s
    decreases |s|
  {
    if s == {} then []
    else
      LeastExists(s);
      var m :| IsLeast(m, s);
      var rest := Ascending(s - {m});
      LeastBelowOthers(m, s);
      ConsAscending(m, rest);
      [m] + rest
  }

  lemma ConsAscending(m: string, rest: seq<string>)
    requires StrictlyAscending(rest)
    requires forall t :: t in rest ==> LexLess(m, t)
    ensures StrictlyAscending([m] + rest)
  {
    var r := [m] + rest;
    forall i, j | 0 <= i < j < |r|
      ensures LexLess(r[i], r[j])
    {
      if i > 0 {
        assert r[i] == rest[i - 1] && r[j] == rest[j - 1];
      } else {
        assert r[j] in rest;
      }
    }
  }

  /** Two ascending runs, the first wholly below the second, ascend together. */
  lemma ConcatAscending(a: seq<string>, b: seq<string>)
    requires StrictlyAscending(a) && StrictlyAscending(b)
    requires forall x, y :: x in a && y in b ==> LexLess(x, y)
    ensures StrictlyAscending(a + b)
  {
    var r := a + b;
    forall i, j | 0 <= i < j < |r|
      ensures LexLess(r[i], r[j])
    {
      if j < |a| {
        assert r[i] == a[i] && r[j] == a[j];
      } else if i >= |a| {
        assert r[i] == b[i - |a|] && r[j] == b[j - |a|];
      } else {
        assert r[i] in a && r[j] in b;
      }
    }
  }

  /** Ascending starts with the least member and continues with the rest of the set. */
  lemma AscendingHead(s: set<string>)
    requires s != {}
    ensures |Ascending(s)| > 0
    ensures IsLeast(Ascending(s)[0], s)
    ensures Ascending(s)[1..] == Ascending(s - {Ascending(s)[0]})
  {
  }

  /** A strictly ascending enumeration of a set is the one Ascending gives. */
  lemma {:induction false} AscendingUnique(r: seq<string>, s: set<string>)
    requires StrictlyAscending(r)
    requires forall t :: t in r <==> t in s
    ensures r == Ascending(s)
    decreases |r|
  {
    if r == [] {
      assert s == {};
    } else {
      assert r[0] in s;
      var a := Ascending(s);
      AscendingHead(s);
      HeadIsLeast(r, s);
      LeastUnique(r[0], a[0], s);
      TailEnumerates(r, s);
      AscendingUnique(r[1..], s - {r[0]});
      SameHeadSameTail(r, a);
    }
  }

  lemma SameHeadSameTail(r: seq<string>, a: seq<string>)
    requires |r| > 0 && |a| > 0
    requires r[0] == a[0] && r[1..] == a[1..]
    ensures r == a
  {
    assert r == [r[0]] + r[1..] && a == [a[0]] + a[1..];
  }

  lemma HeadIsLeast(r: seq<string>, s: set<string>)
    requires StrictlyAscending(r) && |r| > 0
    requires forall t :: t in r <==> t in s
    ensures IsLeast(r[0], s)
  {
    forall y | y in s
      ensures !LexLess(y, r[0])
    {
      var k :| 0 <= k < |r| && r[k] == y;
      if k > 0 {
        LexLessAsymmetric(r[0], r[k]);
      } else {
        LexLessIrreflexive(y);
      }
    }
  }

  lemma LeastUnique(a: string, b: string, s: set<string>)
    requires IsLeast(a, s) && IsLeast(b, s)
    ensures a == b
  {
    LexLessTotal(a, b);
  }

  lemma TailEnumerates(r: seq<string>, s: set<string>)
    requires StrictlyAscending(r) && |r| > 0
    requires forall t :: t in r <==> t in s
    ensures StrictlyAscending(r[1..])
    ensures forall t :: t in r[1..] <==> t in s - {r[0]}
  {
    forall t
      ensures t in r[1..] <==> t in s - {r[0]}
    {
      if t in r[1..] {
        var k :| 1 <= k < |r| && r[k] == t;
        LexLessIrreflexive(t);
      }
      if t in s - {r[0]} {
        assert t in r;
      }
    }
  }
}
