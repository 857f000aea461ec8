/**
 * The recruitment-title search index: a sorted set whose members all have score 0, so
 * that it is ordered by the titles alone, and a prefix search emulated with a
 * lexicographic range query [prefix, prefix + U+FFFF).
 */
module SearchCacheStore {
  import opened Seqs
  import opened LexOrder

  /** SEARCH_DELIMITER, appended to the prefix to form the exclusive upper bound. */
  const SearchDelimiter: char := '\U{FFFF}'

  /** The stored titles in the range [lo, hi). */
  function InRange(titles: set<string>, lo: string, hi: string): set<string> {
    set t | t in titles && InLexRange(t, lo, hi)
  }

  /**
   * The titles a prefix search can find: those starting with the prefix whose next
   * character, if any, sorts before the delimiter.
   */
  ghost function Searchable(titles: set<string>, prefix: string): set<string> {
    set t | t in titles && StartsWith(t, prefix) && (|t| == |prefix| || t[|prefix|] < SearchDelimiter)
  }

  /** What a prefix search answers: the first `limit` searchable titles in ascending order. */
  ghost function PrefixSearch(titles: set<string>, prefix: string, limit: nat): seq<string> {
    Take(Ascending(Searchable(titles, prefix)), limit)
  }

  /** `filter(title -> title.startsWith(prefix))` over the fetched candidates. */
  function FilterByPrefix(ts: seq<string>, prefix: string): (r: seq<string>)
    ensures |r| <= |ts|
    ensures forall t :: t in r ==> t in ts && StartsWith(t, prefix)
  {
    if ts == [] then []
    else FilterByPrefix(ts[..|ts| - 1], prefix) + if StartsWith(ts[|ts| - 1], prefix) then [ts[|ts| - 1]] else []
  }

  /** The filter removes nothing from candidates that all start with the prefix. */
  lemma {:induction false} FilterByPrefixKeepsAll(ts: seq<string>, prefix: string)
    requires forall t :: t in ts ==> StartsWith(t, prefix)
    ensures FilterByPrefix(ts, prefix) == ts
  {
    if ts != [] {
      var init, last := ts[..|ts| - 1], ts[|ts| - 1];
      assert ts == init + [last];
      forall t | t in init
        ensures StartsWith(t, prefix)
      {
        assert t in ts;
      }
      FilterByPrefixKeepsAll(init, prefix);
      assert last in ts;
    }
  }

  /** Every candidate that starts with the prefix is kept. */
  lemma {:induction false} FilterByPrefixComplete(ts: seq<string>, prefix: string)
    ensures forall t :: t in ts && StartsWith(t, prefix) ==> t in FilterByPrefix(ts, prefix)
  {
    if ts != [] {
      var init, last := ts[..|ts| - 1], ts[|ts| - 1];
      assert ts == init + [last];
      FilterByPrefixComplete(init, prefix);
      forall t | t in ts && StartsWith(t, prefix)
        ensures t in FilterByPrefix(ts, prefix)
      {
        if t != last {
          assert t in init;
        }
      }
    }
  }

  /** Filtering a concatenation filters each part. */
  lemma {:induction false} FilterByPrefixAppend(a: seq<string>, b: seq<string>, prefix: string)
    ensures FilterByPrefix(a + b, prefix) == FilterByPrefix(a, prefix) + FilterByPrefix(b, prefix)
  {
    if b == [] {
      assert a + b == a;
    } else {
      var init, last := b[..|b| - 1], b[|b| - 1];
      var kept := if StartsWith(last, prefix) then [last] else [];
      FilterByPrefixAppend(a, init, prefix);
      assert (a + b)[..|a + b| - 1] == a + init;
      assert (a + b)[|a + b| - 1] == last;
      assert FilterByPrefix(a + b, prefix) == FilterByPrefix(a + init, prefix) + kept;
      assert FilterByPrefix(b, prefix) == FilterByPrefix(init, prefix) + kept;
      assert (FilterByPrefix(a, prefix) + FilterByPrefix(init, prefix)) + kept
          == FilterByPrefix(a, prefix) + (FilterByPrefix(init, prefix) + kept);
    }
  }

  /** Candidates none of which starts with the prefix are all dropped. */
  lemma FilterByPrefixDropsAll(ts: seq<string>, prefix: string)
    requires forall t :: t in ts ==> !StartsWith(t, prefix)
    ensures FilterByPrefix(ts, prefix) == []
  {
  }

  /** The range [prefix, prefix + delimiter) holds exactly the searchable titles. */
  lemma RangeOfPrefixIsSearchable(titles: set<string>, prefix: string)
    ensures InRange(titles, prefix, prefix + [SearchDelimiter]) == Searchable(titles, prefix)
  {
    forall t | t in titles {
      SentinelRange(t, prefix, SearchDelimiter);
    }
  }

  /** Removing the least member of a set removes the head of its ascending enumeration. */
  lemma AscendingStep(s: set<string>, m: string)
    requires IsLeast(m, s)
    ensures Ascending(s) == [m] + Ascending(s - {m})
  {
    AscendingHead(s);
    LeastBelowOthers(Ascending(s)[0], s);
  }

  /** One step of the range query: moving the least remaining member to the output. */
  lemma RangeStep(r: seq<string>, rest: set<string>, m: string, all: seq<string>)
    requires IsLeast(m, rest)
    requires r + Ascending(rest) == all
    ensures (r + [m]) + Ascending(rest - {m}) == all
  {
    AscendingStep(rest, m);
    var tail := Ascending(rest - {m});
    assert (r + [m]) + tail == r + ([m] + tail);
  }

  /** The range query stops when the members run out or `count` of them are taken. */
  lemma RangeExit(r: seq<string>, rest: set<string>, all: seq<string>, count: nat)
    requires r + Ascending(rest) == all
    requires |r| <= count
    requires rest == {} || |r| == count
    ensures r == Take(all, count)
  {
    if rest == {} {
      assert r == all;
    } else {
      assert r == all[..count];
    }
  }

  /**
   * Over fetched candidates of the range query, the filter and the cut to `limit`
   * give the prefix search.
   */
  lemma CandidatesFilterToSearch(titles: set<string>, prefix: string, limit: nat, candidates: seq<string>)
    requires candidates == Take(Ascending(InRange(titles, prefix, prefix + [SearchDelimiter])), limit * 2)
    ensures Take(FilterByPrefix(candidates, prefix), limit) == PrefixSearch(titles, prefix, limit)
  {
    RangeOfPrefixIsSearchable(titles, prefix);
    var all := Ascending(Searchable(titles, prefix));
    assert forall t :: t in candidates ==> t in all;
    FilterByPrefixKeepsAll(candidates, prefix);
    TakeTake(all, limit * 2, limit);
  }

  /**
   * The answer holds min(limit, k) titles, k the number of searchable titles; it is
   * strictly ascending and made of stored titles that start with the prefix.
   */
  lemma PrefixSearchSound(titles: set<string>, prefix: string, limit: nat)
    ensures |PrefixSearch(titles, prefix, limit)| == if |Searchable(titles, prefix)| <= limit then |Searchable(titles, prefix)| else limit
    ensures |PrefixSearch(titles, prefix, limit)| <= limit
    ensures StrictlyAscending(PrefixSearch(titles, prefix, limit))
    ensures forall t :: t in PrefixSearch(titles, prefix, limit) ==> t in titles && StartsWith(t, prefix)
  {
    var all := Ascending(Searchable(titles, prefix));
    var r := PrefixSearch(titles, prefix, limit);
    forall i, j | 0 <= i < j < |r|
      ensures LexLess(r[i], r[j])
    {
      assert r[i] == all[i] && r[j] == all[j];
    }
    forall t | t in r
      ensures t in titles && StartsWith(t, prefix)
    {
      assert t in all;
    }
  }

  /**
   * The answer holds min(limit, k) titles, k the number of searchable titles, and a
   * searchable title is left out only when `limit` titles sorting before it are returned.
   */
  lemma PrefixSearchComplete(titles: set<string>, prefix: string, limit: nat, t: string)
    requires t in Searchable(titles, prefix)
    ensures |PrefixSearch(titles, prefix, limit)| == if |Searchable(titles, prefix)| <= limit then |Searchable(titles, prefix)| else limit
    ensures t !in PrefixSearch(titles, prefix, limit) ==>
              |PrefixSearch(titles, prefix, limit)| == limit &&
              forall u :: u in PrefixSearch(titles, prefix, limit) ==> LexLess(u, t)
  {
    var all := Ascending(Searchable(titles, prefix));
    var r := PrefixSearch(titles, prefix, limit);
    if t !in r {
      var k :| 0 <= k < |all| && all[k] == t;
      assert |r| == limit;
      forall u | u in r
        ensures LexLess(u, t)
      {
        var i :| 0 <= i < |r| && r[i] == u;
        assert i < k;
      }
    }
  }

  /**
   * With an empty prefix the answer is the first `limit` stored titles, leaving out
   * those whose first character sorts at or after the delimiter.
   */
  lemma EmptyPrefixSearch(titles: set<string>, limit: nat)
    ensures PrefixSearch(titles, [], limit) ==
            Take(Ascending(set t | t in titles && (t == [] || t[0] < SearchDelimiter)), limit)
  {
    assert Searchable(titles, []) == set t | t in titles && (t == [] || t[0] < SearchDelimiter);
  }

  /** The stored titles at or above lo: the range [lo, +) of the store. */
  function AtLeast(titles: set<string>, lo: string): set<string> {
    set t | t in titles && !LexLess(t, lo)
  }

  /** The titles a prefix search is meant to find: every stored title starting with the prefix. */
  ghost function Prefixed(titles: set<string>, prefix: string): set<string> {
    set t | t in titles && StartsWith(t, prefix)
  }

  /** The intended answer: the first `limit` titles starting with the prefix, ascending. */
  ghost function IntendedPrefixSearch(titles: set<string>, prefix: string, limit: nat): seq<string> {
    Take(Ascending(Prefixed(titles, prefix)), limit)
  }

  /**
   * With the delimiter U+FFFF, a title whose character right after the prefix lies
   * above U+FFFF (here U+1F981) starts with the prefix yet is never found.
   */
  lemma DelimiterMissesAstralTitle()
    ensures StartsWith("Club" + ['\U{1F981}'], "Club")
    ensures PrefixSearch({"Club" + ['\U{1F981}']}, "Club", 10) == []
    ensures IntendedPrefixSearch({"Club" + ['\U{1F981}']}, "Club", 10) == ["Club" + ['\U{1F981}']]
  {
    var t := "Club" + ['\U{1F981}'];
    assert t[..4] == "Club";
    assert t[4] == '\U{1F981}';
    assert Searchable({t}, "Club") == {};
    assert Prefixed({t}, "Club") == {t};
    var r := Ascending({t});
    assert |r| == 1 && r[0] in r;
  }

  /** Among the titles at or above the prefix, the prefixed ones come first in ascending order. */
  lemma AscendingFromPrefix(titles: set<string>, prefix: string)
    ensures Ascending(AtLeast(titles, prefix)) ==
            Ascending(Prefixed(titles, prefix)) + Ascending(AtLeast(titles, prefix) - Prefixed(titles, prefix))
  {
    var above, first := AtLeast(titles, prefix), Prefixed(titles, prefix);
    var a, b := Ascending(first), Ascending(above - first);
    forall x, y | x in a && y in b
      ensures LexLess(x, y)
    {
      PrefixedBeforeOthers(x, y, prefix);
    }
    ConcatAscending(a, b);
    forall t | t in first
      ensures t in above
    {
      PrefixNotBelow(t, prefix);
    }
    assert forall t :: t in a + b <==> t in above;
    AscendingUnique(a + b, above);
  }

  /**
   * Over candidates from the upward-open range [prefix, +), the filter and the cut to
   * `limit` give the intended search, whatever lies above the prefixed titles.
   */
  lemma UnboundedCandidatesFilterToSearch(titles: set<string>, prefix: string, limit: nat, candidates: seq<string>)
    requires candidates == Take(Ascending(AtLeast(titles, prefix)), limit * 2)
    ensures Take(FilterByPrefix(candidates, prefix), limit) == IntendedPrefixSearch(titles, prefix, limit)
  {
    AscendingFromPrefix(titles, prefix);
    var a := Ascending(Prefixed(titles, prefix));
    var b := Ascending(AtLeast(titles, prefix) - Prefixed(titles, prefix));
    forall t | t in b
      ensures !StartsWith(t, prefix)
    {
    }
    FilterPrefixedRun(a, b, prefix, limit * 2, limit);
  }

  /**
   * A run of prefixed strings followed by strings without the prefix: cutting to m,
   * filtering and cutting to n <= m keeps the first n of the run.
   */
  lemma FilterPrefixedRun(a: seq<string>, b: seq<string>, prefix: string, m: nat, n: nat)
    requires forall t :: t in a ==> StartsWith(t, prefix)
    requires forall t :: t in b ==> !StartsWith(t, prefix)
    requires n <= m
    ensures Take(FilterByPrefix(Take(a + b, m), prefix), n) == Take(a, n)
  {
    var c := Take(a + b, m);
    if m <= |a| {
      assert c == Take(a, m);
      FilterByPrefixKeepsAll(c, prefix);
      TakeTake(a, m, n);
    } else {
      var rest := c[|a|..];
      assert c == a + rest;
      forall t | t in rest
        ensures !StartsWith(t, prefix)
      {
        assert t in b;
      }
      FilterByPrefixAppend(a, rest, prefix);
      FilterByPrefixKeepsAll(a, prefix);
      FilterByPrefixDropsAll(rest, prefix);
      assert a + [] == a;
    }
  }

  /** The intended search misses a prefixed title only when `limit` titles were returned. */
  lemma IntendedPrefixSearchComplete(titles: set<string>, prefix: string, limit: nat, t: string)
    requires t in titles && StartsWith(t, prefix)
    ensures t !in IntendedPrefixSearch(titles, prefix, limit) ==> |IntendedPrefixSearch(titles, prefix, limit)| == limit
  {
    assert t in Prefixed(titles, prefix);
  }

  /** The sample titles "Backend Club", "Back Office" and "Design Club". */
  const SampleTitles: set<string> := {"Backend Club", "Back Office", "Design Club"}

  lemma SampleTitlesAscending()
    ensures StrictlyAscending(["Back Office", "Backend Club", "Design Club"])
  {
    BackOfficeBeforeBackendClub();
    assert LexLess("Backend Club", "Design Club");
    assert LexLess("Back Office", "Design Club");
  }

  /** " Office" and "end Club" differ at their first character, after the shared "Back". */
  lemma BackOfficeBeforeBackendClub()
    ensures LexLess("Back Office", "Backend Club")
  {
    assert "Back Office" == "Back" + " Office" && "Backend Club" == "Back" + "end Club";
    LexLessCommonPrefix("Back", " Office", "end Club");
  }

  /** Searching "Back" finds "Back Office" then "Backend Club". */
  lemma SearchBackExample()
    ensures PrefixSearch(SampleTitles, "Back", 10) == ["Back Office", "Backend Club"]
  {
    SampleTitlesAscending();
    var sorted: seq<string> := ["Back Office", "Backend Club"];
    assert StrictlyAscending(sorted);
    assert "Design Club"[..4][0] != "Back"[0];
    assert StartsWith("Back Office", "Back") && StartsWith("Backend Club", "Back");
    assert Searchable(SampleTitles, "Back") == {"Back Office", "Backend Club"};
    AscendingUnique(sorted, Searchable(SampleTitles, "Back"));
  }

  /** Searching "Zzz" finds nothing. */
  lemma SearchZzzExample()
    ensures PrefixSearch(SampleTitles, "Zzz", 10) == []
  {
    assert "Design Club"[..3][0] != "Zzz"[0];
    assert "Backend Club"[..3][0] != "Zzz"[0] && "Back Office"[..3][0] != "Zzz"[0];
    assert Searchable(SampleTitles, "Zzz") == {};
    AscendingUnique([], Searchable(SampleTitles, "Zzz"));
  }

  lemma SampleTitlesSorted()
    ensures Ascending(SampleTitles) == ["Back Office", "Backend Club", "Design Club"]
  {
    SampleTitlesAscending();
    var all: seq<string> := ["Back Office", "Backend Club", "Design Club"];
    assert forall t :: t in all <==> t in SampleTitles;
    AscendingUnique(all, SampleTitles);
  }

  /**
   * Selects the least remaining member `count` times (or until none is left):
   * the first `count` members of `s` in ascending order.
   */
  method TakeAscending(s: set<string>, count: nat) returns (r: seq<string>)
    ensures r == Take(Ascending(s), count)
    ensures |r| <= count
  {
    var rest := s;
    ghost var all := Ascending(s);
    r := [];
    while rest != {} && |r| < count
      invariant |r| <= count
      invariant r + Ascending(rest) == all
      decreases |rest|
    {
      LeastExists(rest);
      var m :| IsLeast(m, rest);
      RangeStep(r, rest, m, all);
      r := r + [m];
      rest := rest - {m};
    }
    RangeExit(r, rest, all, count);
  }

  /** The empty prefix with limit 2 gives the first two titles. */
  lemma SearchEmptyPrefixExample()
    ensures PrefixSearch(SampleTitles, "", 2) == ["Back Office", "Backend Club"]
  {
    SampleTitlesAllSearchable();
    SampleTitlesSorted();
  }

  lemma SampleTitlesAllSearchable()
    ensures Searchable(SampleTitles, "") == SampleTitles
  {
    forall t | t in SampleTitles
      ensures StartsWith(t, "") && (|t| == 0 || t[0] < SearchDelimiter)
    {
      assert t[0] == 'B' || t[0] == 'D';
    }
    SearchableAll(SampleTitles, "");
  }

  lemma SearchableAll(titles: set<string>, prefix: string)
    requires forall t :: t in titles ==> StartsWith(t, prefix) && (|t| == |prefix| || t[|prefix|] < SearchDelimiter)
    ensures Searchable(titles, prefix) == titles
  {
  }

  class RecruitmentSearchCacheStore {
    /** The members of the sorted set under ZSET_KEY. */
    var titles: set<string>

    constructor ()
      ensures titles == {}
    {
      titles := {};
    }

    /** Adds the title at score 0; a title already present is not added twice. */
    method SaveRecruitmentTitle(title: string)
      modifies this
      ensures titles == old(titles) + {title}
    {
      titles := titles + {title};
    }

    /**
     * The store's range query: the members in [lo, hi), ascending, at most `count`
     * of them.
     */
    method RangeByLex(lo: string, hi: string, count: nat) returns (r: seq<string>)
      ensures r == Take(Ascending(InRange(titles, lo, hi)), count)
      ensures |r| <= count
    {
      r := TakeAscending(InRange(titles, lo, hi), count);
    }

    /**
     * The titles starting with `prefix`: at most `2 * limit` candidates are fetched
     * from the range query, re-filtered by `startsWith` and cut to `limit`.
     */
    method FindRecruitmentTitlesByPrefix(prefix: string, limit: nat) returns (r: seq<string>)
      ensures r == PrefixSearch(titles, prefix, limit)
      ensures |r| <= limit
      ensures StrictlyAscending(r)
      ensures forall t :: t in r ==> t in titles && StartsWith(t, prefix)
    {
      var rangeStart := prefix;
      var rangeEnd := prefix + [SearchDelimiter];
      var allMatches := RangeByLex(rangeStart, rangeEnd, limit * 2);
      r := Take(FilterByPrefix(allMatches, prefix), limit);
      CandidatesFilterToSearch(titles, prefix, limit, allMatches);
      PrefixSearchSound(titles, prefix, limit);
    }

    /**
     * The search with the range opened upwards, [prefix, +): the prefixed titles are the
     * first members of that range, so no title is lost to the delimiter.
     */
    method FindRecruitmentTitlesByPrefixUnbounded(prefix: string, limit: nat) returns (r: seq<string>)
      ensures r == IntendedPrefixSearch(titles, prefix, limit)
    {
      var allMatches := TakeAscending(AtLeast(titles, prefix), limit * 2);
      r := Take(FilterByPrefix(allMatches, prefix), limit);
      UnboundedCandidatesFilterToSearch(titles, prefix, limit, allMatches);
    }
  }
}
