/**
 * The grouped query behind `getVoteCountByCountry`:
 *   SELECT country, COUNT(country) AS votes FROM votes
 *   GROUP BY country ORDER BY COUNT(country) DESC LIMIT n
 * as a pure function of the table's country column.  SQL leaves the order of
 * groups with equal counts open.  `VoteCountByCountry` keeps them in the
 * order in which their countries first appear, which is one admissible
 * answer; the independent `IsTopCounts` states what every SQL engine
 * guarantees, and the services are specified against `IsTopCounts` only.
 */
module Ranking {
  import opened Collections

  datatype CountRow = CountRow(country: string, votes: int)

  /** Number of rows whose country is `c` (`COUNT(country)` of the group of `c`). */
  function CountOf(col: seq<string>, c: string): (n: nat)
    ensures n <= |col|
    ensures n > 0 <==> c in col
  {
    if col == [] then 0
    else
      assert col == col[..|col| - 1] + [col[|col| - 1]];
      CountOf(col[..|col| - 1], c) + (if col[|col| - 1] == c then 1 else 0)
  }

  /** The groups of `GROUP BY country`: each country of the column once. */
  function Groups(col: seq<string>): (cs: seq<string>)
    ensures Distinct(cs)
    ensures forall c :: c in cs <==> c in col
    ensures |cs| <= |col|
  {
    if col == [] then []
    else
      var init := col[..|col| - 1];
      var last := col[|col| - 1];
      assert col == init + [last];
      var cs := Groups(init);
      if last in cs then cs else cs + [last]
  }

  /** One `{country, votes}` row per group. */
  function GroupCounts(col: seq<string>): (g: seq<CountRow>)
  {
    var cs := Groups(col);
    seq(|cs|, i requires 0 <= i < |cs| => CountRow(cs[i], CountOf(col, cs[i])))
  }

  function CountriesOf(s: seq<CountRow>): (cs: seq<string>)
    ensures |cs| == |s|
    ensures forall i :: 0 <= i < |s| ==> cs[i] == s[i].country
  {
    seq(|s|, i requires 0 <= i < |s| => s[i].country)
  }

  predicate NonIncreasing(s: seq<CountRow>)
  {
    forall i, j :: 0 <= i < j < |s| ==> s[i].votes >= s[j].votes
  }

  predicate DistinctCountries(s: seq<CountRow>)
  {
    forall i, j :: 0 <= i < j < |s| ==> s[i].country != s[j].country
  }

  /** Places `x` after every row with at least as many votes. */
  function Insert(x: CountRow, s: seq<CountRow>): (r: seq<CountRow>)
    ensures |r| == |s| + 1
    ensures multiset(r) == multiset(s) + multiset{x}
  {
    if s == [] then [x]
    else if x.votes >= s[0].votes then [x] + s
    else
      assert s == [s[0]] + s[1..];
      [s[0]] + Insert(x, s[1..])
  }

  lemma {:induction false} InsertKeepsOrder(x: CountRow, s: seq<CountRow>)
    requires NonIncreasing(s)
    ensures NonIncreasing(Insert(x, s))
  {
    if s != [] && x.votes < s[0].votes {
      assert s == [s[0]] + s[1..];
      var t := Insert(x, s[1..]);
      InsertKeepsOrder(x, s[1..]);
      forall j | 0 <= j < |t| ensures s[0].votes >= t[j].votes {
        assert t[j] in multiset(t);
        if t[j] != x {
          assert t[j] in s[1..];
        }
      }
    }
  }

  lemma {:induction false} InsertKeepsCountriesDistinct(x: CountRow, s: seq<CountRow>)
    requires forall y :: y in s ==> y.country != x.country
    requires DistinctCountries(s)
    ensures DistinctCountries(Insert(x, s))
  {
    if s != [] && x.votes < s[0].votes {
      assert s == [s[0]] + s[1..];
      var t := Insert(x, s[1..]);
      InsertKeepsCountriesDistinct(x, s[1..]);
      forall y | y in t ensures y.country != s[0].country {
        assert y in multiset(t);
      }
    }
  }

  /** Putting the head of a list with distinct countries back into a permutation of its tail keeps them distinct. */
  lemma HeadThenSortedDistinct(s: seq<CountRow>, t: seq<CountRow>)
    requires s != [] && DistinctCountries(s)
    requires multiset(t) == multiset(s[1..]) && DistinctCountries(t)
    ensures DistinctCountries(Insert(s[0], t))
  {
    forall y | y in t ensures y.country != s[0].country {
      assert y in multiset(s[1..]);
      var j :| 0 <= j < |s[1..]| && s[1..][j] == y;
      assert s[j + 1] == y;
    }
    InsertKeepsCountriesDistinct(s[0], t);
  }

  /** `ORDER BY votes DESC` of a list of groups. */
  function SortByVotes(s: seq<CountRow>): (r: seq<CountRow>)
    ensures |r| == |s|
    ensures multiset(r) == multiset(s)
    ensures NonIncreasing(r)
    ensures DistinctCountries(s) ==> DistinctCountries(r)
  {
    if s == [] then []
    else
      assert s == [s[0]] + s[1..];
      var t := SortByVotes(s[1..]);
      assert DistinctCountries(s) ==> DistinctCountries(Insert(s[0], t)) by {
        if DistinctCountries(s) {
          HeadThenSortedDistinct(s, t);
        }
      }
      InsertKeepsOrder(s[0], t);
      Insert(s[0], t)
  }

  /** SQL `LIMIT n`. */
  function Take<T>(s: seq<T>, n: nat): (r: seq<T>)
  {
    if n < |s| then s[..n] else s
  }

  function Min(a: int, b: int): int { if a <= b then a else b }

  /** The result of `getVoteCountByCountry(limit)` for a table whose country column is `col`. */
  function VoteCountByCountry(col: seq<string>, limit: nat): (r: seq<CountRow>)
  {
    Take(SortByVotes(GroupCounts(col)), limit)
  }

  /**
   * What the grouped query promises: at most `limit` rows, as many as there are
   * countries otherwise; each country once, with its exact count; counts
   * non-increasing; and no country left out has more votes than one kept.
   */
  ghost predicate IsTopCounts(col: seq<string>, limit: nat, r: seq<CountRow>)
  {
    && |r| == Min(limit, |Groups(col)|)
    && DistinctCountries(r)
    && (forall i :: 0 <= i < |r| ==> r[i].country in col && r[i].votes == CountOf(col, r[i].country))
    && (forall i :: 0 <= i < |r| ==> r[i].votes >= 1)
    && NonIncreasing(r)
    && (forall c, i :: c in col && c !in CountriesOf(r) && 0 <= i < |r| ==> CountOf(col, c) <= r[i].votes)
  }

  /** Every ranked row is a group of the column with its exact count. */
  lemma RankedRowsAreGroups(col: seq<string>, y: CountRow)
    requires y in SortByVotes(GroupCounts(col))
    ensures y.country in col && y.votes == CountOf(col, y.country)
  {
    var g := GroupCounts(col);
    assert y in multiset(SortByVotes(g));
    assert y in g;
  }

  /** A country of the column that is missing from a prefix of the ranking ranks below all of it. */
  lemma LeftOutRanksLower(col: seq<string>, limit: nat, c: string)
    requires c in col && c !in CountriesOf(VoteCountByCountry(col, limit))
    ensures forall i :: 0 <= i < |VoteCountByCountry(col, limit)| ==>
              CountOf(col, c) <= VoteCountByCountry(col, limit)[i].votes
  {
    var cs := Groups(col);
    var g := GroupCounts(col);
    var s := SortByVotes(g);
    var r := Take(s, limit);
    assert r == VoteCountByCountry(col, limit);
    var k :| 0 <= k < |cs| && cs[k] == c;
    assert g[k] == CountRow(c, CountOf(col, c));
    assert g[k] in multiset(s);
    var j :| 0 <= j < |s| && s[j] == g[k];
    assert |r| <= |s| && forall i :: 0 <= i < |r| ==> r[i] == s[i];
    assert j >= |r| by {
      assert forall i :: 0 <= i < |r| ==> CountriesOf(r)[i] != c;
    }
    forall i | 0 <= i < |r| ensures CountOf(col, c) <= r[i].votes {
      assert s[i].votes >= s[j].votes;
    }
  }

  lemma VoteCountByCountryIsTopCounts(col: seq<string>, limit: nat)
    ensures IsTopCounts(col, limit, VoteCountByCountry(col, limit))
  {
    var g := GroupCounts(col);
    assert DistinctCountries(g);
    var s := SortByVotes(g);
    var r := Take(s, limit);
    assert DistinctCountries(r);
    assert NonIncreasing(r);
    forall i | 0 <= i < |r| ensures r[i].country in col && r[i].votes == CountOf(col, r[i].country) {
      assert r[i] == s[i];
      RankedRowsAreGroups(col, s[i]);
    }
    forall c | c in col && c !in CountriesOf(r)
      ensures forall i :: 0 <= i < |r| ==> CountOf(col, c) <= r[i].votes
    {
      LeftOutRanksLower(col, limit, c);
    }
  }

  /** With no votes there is nothing to rank. */
  lemma EmptyTableHasNoCounts(limit: nat)
    ensures VoteCountByCountry([], limit) == []
  {
  }

  /** Sum of the `votes` column of a list of groups. */
  function SumVotes(s: seq<CountRow>): int
  {
    if s == [] then 0 else s[0].votes + SumVotes(s[1..])
  }

  /** Sum of the counts of the given countries. */
  function SumCounts(col: seq<string>, cs: seq<string>): int
  {
    if cs == [] then 0 else SumCounts(col, cs[..|cs| - 1]) + CountOf(col, cs[|cs| - 1])
  }

  lemma {:induction false} SumCountsOfExtendedColumn(col: seq<string>, v: string, cs: seq<string>)
    requires Distinct(cs)
    ensures SumCounts(col + [v], cs) == SumCounts(col, cs) + (if v in cs then 1 else 0)
  {
    if cs != [] {
      var init := cs[..|cs| - 1];
      assert cs == init + [cs[|cs| - 1]];
      assert (col + [v])[..|col|] == col;
      SumCountsOfExtendedColumn(col, v, init);
    }
  }

  lemma {:induction false} SumCountsOfGroups(col: seq<string>)
    ensures SumCounts(col, Groups(col)) == |col|
  {
    if col != [] {
      var init := col[..|col| - 1];
      var last := col[|col| - 1];
      assert col == init + [last];
      var cs := Groups(init);
      SumCountsOfGroups(init);
      SumCountsOfExtendedColumn(init, last, cs);
      if last !in cs {
        assert (cs + [last])[..|cs|] == cs;
        assert CountOf(init, last) == 0;
      }
    }
  }

  lemma {:induction false} SumVotesOfCounts(col: seq<string>, cs: seq<string>)
    ensures SumVotes(seq(|cs|, i requires 0 <= i < |cs| => CountRow(cs[i], CountOf(col, cs[i])))) == SumCounts(col, cs)
  {
    var rows := seq(|cs|, i requires 0 <= i < |cs| => CountRow(cs[i], CountOf(col, cs[i])));
    if cs != [] {
      var init := cs[..|cs| - 1];
      var front := seq(|init|, i requires 0 <= i < |init| => CountRow(init[i], CountOf(col, init[i])));
      assert rows == front + [rows[|rows| - 1]];
      SumVotesOfCounts(col, init);
      SumVotesAppend(front, rows[|rows| - 1]);
    }
  }

  lemma {:induction false} SumVotesAppend(s: seq<CountRow>, x: CountRow)
    ensures SumVotes(s + [x]) == SumVotes(s) + x.votes
  {
    if s != [] {
      assert (s + [x])[1..] == s[1..] + [x];
      SumVotesAppend(s[1..], x);
    }
  }

  lemma {:induction false} SumVotesInsert(x: CountRow, s: seq<CountRow>)
    ensures SumVotes(Insert(x, s)) == x.votes + SumVotes(s)
  {
    if s != [] && x.votes < s[0].votes {
      SumVotesInsert(x, s[1..]);
    }
  }

  lemma {:induction false} SumVotesSorted(s: seq<CountRow>)
    ensures SumVotes(SortByVotes(s)) == SumVotes(s)
  {
    if s != [] {
      SumVotesSorted(s[1..]);
      SumVotesInsert(s[0], SortByVotes(s[1..]));
    }
  }

  /**
   * When the limit keeps every group, the counts add up to the number of
   * rows: `getVoteCountByCountry` and `getTotalVotes` agree.
   */
  lemma CountsAddUpToTotal(col: seq<string>, limit: nat)
    requires limit >= |Groups(col)|
    ensures SumVotes(VoteCountByCountry(col, limit)) == |col|
  {
    SumVotesSorted(GroupCounts(col));
    SumVotesOfCounts(col, Groups(col));
    SumCountsOfGroups(col);
  }
}
