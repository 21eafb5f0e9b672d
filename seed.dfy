/**
 * The development seed: a fixed list of 24 votes over ten countries,
 * inserted in one bulk statement (without the model validators) into an
 * empty table, a clear that truncates the table, and a reset doing both.
 * Progress logging is left out; a storage failure is not modelled here
 * (the scripts only log and rethrow it).
 */
module Seed {
  import opened Text
  import opened Collections
  import opened Ranking
  import opened VoteModel

  const SeedDomain: string := "@example.com"

  /** Every seed address is at `example.com`. */
  function Mail(local: string): (e: string)
    ensures EndsWith(e, SeedDomain)
  {
    assert (local + SeedDomain)[|local|..] == SeedDomain;
    local + SeedDomain
  }

  const SeedVotes: seq<Ballot> := [
    Ballot("John Smith", Mail("john.smith"), "US"),
    Ballot("Sarah Johnson", Mail("sarah.johnson"), "US"),
    Ballot("Michael Brown", Mail("michael.brown"), "US"),
    Ballot("Emily Davis", Mail("emily.davis"), "US"),
    Ballot("David Wilson", Mail("david.wilson"), "US"),
    Ballot("Hans Mueller", Mail("hans.mueller"), "DE"),
    Ballot("Anna Schmidt", Mail("anna.schmidt"), "DE"),
    Ballot("Peter Weber", Mail("peter.weber"), "DE"),
    Ballot("Maria Fischer", Mail("maria.fischer"), "DE"),
    Ballot("Pierre Dubois", Mail("pierre.dubois"), "FR"),
    Ballot("Marie Martin", Mail("marie.martin"), "FR"),
    Ballot("Jean Bernard", Mail("jean.bernard"), "FR"),
    Ballot("Yuki Tanaka", Mail("yuki.tanaka"), "JP"),
    Ballot("Hiroshi Sato", Mail("hiroshi.sato"), "JP"),
    Ballot("Sakura Yamamoto", Mail("sakura.yamamoto"), "JP"),
    Ballot("Carlos Silva", Mail("carlos.silva"), "BR"),
    Ballot("Ana Santos", Mail("ana.santos"), "BR"),
    Ballot("James Taylor", Mail("james.taylor"), "GB"),
    Ballot("Emma Thompson", Mail("emma.thompson"), "GB"),
    Ballot("Pablo Garcia", Mail("pablo.garcia"), "ES"),
    Ballot("Isabella Rodriguez", Mail("isabella.rodriguez"), "ES"),
    Ballot("Sophie Tremblay", Mail("sophie.tremblay"), "CA"),
    Ballot("Marco Rossi", Mail("marco.rossi"), "IT"),
    Ballot("Olivia Mitchell", Mail("olivia.mitchell"), "AU")
  ]

  function BallotCountries(bs: seq<Ballot>): (cs: seq<string>)
    ensures |cs| == |bs|
    ensures forall i :: 0 <= i < |bs| ==> cs[i] == bs[i].country
  {
    seq(|bs|, i requires 0 <= i < |bs| => bs[i].country)
  }

  function Repeat(x: string, n: nat): (r: seq<string>)
    ensures |r| == n && forall i :: 0 <= i < n ==> r[i] == x
  {
    seq(n, _ => x)
  }

  lemma {:induction false} CountOfAppend(a: seq<string>, b: seq<string>, c: string)
    ensures CountOf(a + b, c) == CountOf(a, c) + CountOf(b, c)
  {
    if b == [] {
      assert a + b == a;
    } else {
      assert (a + b)[..|a + b| - 1] == a + b[..|b| - 1];
      CountOfAppend(a, b[..|b| - 1], c);
    }
  }

  lemma {:induction false} CountOfRepeat(x: string, n: nat, c: string)
    ensures CountOf(Repeat(x, n), c) == if x == c then n else 0
  {
    if n > 0 {
      assert Repeat(x, n)[..n - 1] == Repeat(x, n - 1);
      CountOfRepeat(x, n - 1, c);
    }
  }

  /** The seed's country column, vote by vote. */
  const SeedColumn: seq<string> := ["US", "US", "US", "US", "US", "DE", "DE", "DE", "DE", "FR", "FR", "FR",
                                     "JP", "JP", "JP", "BR", "BR", "GB", "GB", "ES", "ES", "CA", "IT", "AU"]
  lemma SeedColumnIs()
    ensures BallotCountries(SeedVotes) == SeedColumn
  {
  }
  /** The seed's country column: runs of 5, 4, 3, 3, 2, 2, 2, 1, 1 and 1 votes. */
  lemma SeedCountries()
    ensures var col := BallotCountries(SeedVotes);
            && |col| == 24
            && col[0..5] == Repeat("US", 5) && col[5..9] == Repeat("DE", 4) && col[9..12] == Repeat("FR", 3)
            && col[12..15] == Repeat("JP", 3) && col[15..17] == Repeat("BR", 2) && col[17..19] == Repeat("GB", 2)
            && col[19..21] == Repeat("ES", 2) && col[21..22] == Repeat("CA", 1) && col[22..23] == Repeat("IT", 1)
            && col[23..24] == Repeat("AU", 1)
  {
    SeedColumnIs();
  }

  /** The seed's vote count of any country code. */
  function SeedCount(c: string): nat
  {
    if c == "US" then 5 else if c == "DE" then 4 else if c == "FR" || c == "JP" then 3
    else if c == "BR" || c == "GB" || c == "ES" then 2 else if c == "CA" || c == "IT" || c == "AU" then 1
    else 0
  }

  /** Counting a prefix `col[..k]` splits at any `j <= k`. */
  lemma CountOfSplit(col: seq<string>, j: nat, k: nat, c: string)
    requires j <= k <= |col|
    ensures CountOf(col[..k], c) == CountOf(col[..j], c) + CountOf(col[j..k], c)
  {
    assert col[..k] == col[..j] + col[j..k];
    CountOfAppend(col[..j], col[j..k], c);
  }

  /** Adds the run `col[j..k]` of `n` copies of `x` to the count of the prefix `col[..j]`. */
  lemma CountRun(col: seq<string>, j: nat, k: nat, x: string, c: string)
    requires j <= k <= |col| && col[j..k] == Repeat(x, k - j)
    ensures CountOf(col[..k], c) == CountOf(col[..j], c) + (if x == c then k - j else 0)
  {
    CountOfSplit(col, j, k, c);
    CountOfRepeat(x, k - j, c);
  }

  /** Any column made of the seed's ten runs has the seed's counts. */
  lemma RunsCount(col: seq<string>, c: string)
    requires |col| == 24
    requires col[0..5] == Repeat("US", 5) && col[5..9] == Repeat("DE", 4) && col[9..12] == Repeat("FR", 3)
    requires col[12..15] == Repeat("JP", 3) && col[15..17] == Repeat("BR", 2) && col[17..19] == Repeat("GB", 2)
    requires col[19..21] == Repeat("ES", 2) && col[21..22] == Repeat("CA", 1) && col[22..23] == Repeat("IT", 1)
    requires col[23..24] == Repeat("AU", 1)
    ensures CountOf(col, c) == SeedCount(c)
  {
    assert col[..0] == [];
    CountRun(col, 0, 5, "US", c);
    CountRun(col, 5, 9, "DE", c);
    CountRun(col, 9, 12, "FR", c);
    CountRun(col, 12, 15, "JP", c);
    CountRun(col, 15, 17, "BR", c);
    CountRun(col, 17, 19, "GB", c);
    CountRun(col, 19, 21, "ES", c);
    CountRun(col, 21, 22, "CA", c);
    CountRun(col, 22, 23, "IT", c);
    CountRun(col, 23, 24, "AU", c);
    assert col[..24] == col;
  }

  lemma SeedCountOf(c: string)
    ensures CountOf(BallotCountries(SeedVotes), c) == SeedCount(c)
  {
    SeedCountries();
    RunsCount(BallotCountries(SeedVotes), c);
  }

  /** 24 votes, with the per-country counts the seed script announces, over exactly ten countries. */
  lemma SeedCounts()
    ensures |SeedVotes| == 24
    ensures var col := BallotCountries(SeedVotes);
            && (forall c :: CountOf(col, c) == SeedCount(c))
            && (forall c :: c in col <==> c in SeedCountryCodes)
  {
    var col := BallotCountries(SeedVotes);
    forall c ensures CountOf(col, c) == SeedCount(c) && (c in col <==> c in SeedCountryCodes) {
      SeedCountOf(c);
      SeedCountPositive(c);
    }
  }

  lemma SeedCountPositive(c: string)
    ensures c in SeedCountryCodes <==> SeedCount(c) > 0
  {
  }

  const SeedCountryCodes: seq<string> := ["US", "DE", "FR", "JP", "BR", "GB", "ES", "CA", "IT", "AU"]

  /** The local parts of the seed emails, in seed order. */
  const SeedLocalParts: seq<string> := [
    "john.smith",
    "sarah.johnson",
    "michael.brown",
    "emily.davis",
    "david.wilson",
    "hans.mueller",
    "anna.schmidt",
    "peter.weber",
    "maria.fischer",
    "pierre.dubois",
    "marie.martin",
    "jean.bernard",
    "yuki.tanaka",
    "hiroshi.sato",
    "sakura.yamamoto",
    "carlos.silva",
    "ana.santos",
    "james.taylor",
    "emma.thompson",
    "pablo.garcia",
    "isabella.rodriguez",
    "sophie.tremblay",
    "marco.rossi",
    "olivia.mitchell"
  ]

  lemma SeedEmailColumn()
    ensures BallotEmails(SeedVotes) == seq(|SeedLocalParts|, i requires 0 <= i < |SeedLocalParts| => Mail(SeedLocalParts[i]))
  {
  }

  lemma SeedLocalPartsDistinct()
    ensures Distinct(SeedLocalParts)
  {
    forall i, j | 0 <= i < j < |SeedLocalParts| ensures SeedLocalParts[i] != SeedLocalParts[j] {
      assert LocalPartKey(SeedLocalParts[i]) != LocalPartKey(SeedLocalParts[j]);
    }
  }

  /** Length and first two characters: already different for any two seed local parts. */
  function LocalPartKey(s: string): (int, char, char)
  {
    if |s| < 2 then (|s|, ' ', ' ') else (|s|, s[0], s[1])
  }

  lemma MailInjective(x: string, y: string)
    requires Mail(x) == Mail(y)
    ensures x == y
  {
    assert x == Mail(x)[..|x|] && y == Mail(y)[..|y|];
  }

  /** The seed emails are pairwise different and all end in `@example.com`. */
  lemma SeedEmails()
    ensures Distinct(BallotEmails(SeedVotes))
    ensures forall i :: 0 <= i < |SeedVotes| ==> EndsWith(SeedVotes[i].email, SeedDomain)
  {
    SeedEmailColumn();
    SeedLocalPartsDistinct();
    var es := BallotEmails(SeedVotes);
    forall i, j | 0 <= i < j < |es| ensures es[i] != es[j] {
      if es[i] == es[j] {
        MailInjective(SeedLocalParts[i], SeedLocalParts[j]);
      }
    }
    forall i | 0 <= i < |SeedVotes| ensures EndsWith(SeedVotes[i].email, SeedDomain) {
      assert SeedVotes[i].email == es[i] == Mail(SeedLocalParts[i]);
    }
  }

  /**
   * `seedDatabase()`: a table that already has votes is left alone;
   * an empty one receives the 24 seed votes, in order.
   */
  method SeedDatabase(table: VoteTable, isEmail: string -> bool, now: int) returns (seeded: bool)
    requires table.Valid()
    modifies table
    ensures table.Valid()
    ensures seeded <==> old(table.rows) == []
    ensures !seeded ==> table.rows == old(table.rows) && table.nextId == old(table.nextId)
    ensures seeded ==> table.rows == NewRows(SeedVotes, old(table.nextId), now)
  {
    var existing := table.Count();
    if existing > 0 {
      return false;
    }
    SeedEmails();
    var ok := table.BulkInsert(SeedVotes, false, isEmail, now);
    assert ok;
    seeded := true;
  }

  /** `clearDatabase()`. */
  method ClearDatabase(table: VoteTable)
    requires table.Valid()
    modifies table
    ensures table.Valid() && table.rows == [] && table.nextId == old(table.nextId)
  {
    table.Truncate();
  }

  /** `resetDatabase()`: whatever was there, the table ends up holding exactly the seed votes. */
  method ResetDatabase(table: VoteTable, isEmail: string -> bool, now: int)
    requires table.Valid()
    modifies table
    ensures table.Valid()
    ensures table.rows == NewRows(SeedVotes, old(table.nextId), now)
  {
    ClearDatabase(table);
    var _ := SeedDatabase(table, isEmail, now);
  }

  /** Seeding twice is seeding once: the second call finds the table non-empty. */
  method SeedTwice(table: VoteTable, isEmail: string -> bool, now: int) returns (first: bool, second: bool)
    requires table.Valid() && table.rows == []
    modifies table
    ensures first && !second
    ensures table.Valid() && table.rows == NewRows(SeedVotes, old(table.nextId), now)
  {
    first := SeedDatabase(table, isEmail, now);
    assert |table.rows| == 24;
    second := SeedDatabase(table, isEmail, now);
  }

  /** After a reset, the column the ranking reads is the seed's countries, in order. */
  lemma SeededColumn(first: nat, now: int)
    ensures CountryColumn(NewRows(SeedVotes, first, now)) == BallotCountries(SeedVotes)
  {
  }

  /**
   * After a reset the ranking starts with the United States (5 votes) and
   * Germany (4 votes), lists all ten countries, and the counts add up to 24.
   */
  lemma SeededRanking(first: nat, now: int)
    ensures var r := VoteCountByCountry(CountryColumn(NewRows(SeedVotes, first, now)), 10);
            && |r| == 10
            && r[0] == CountRow("US", 5) && r[1] == CountRow("DE", 4)
            && SumVotes(r) == 24
  {
    SeededColumn(first, now);
    SeedCounts();
    RankingOfSeedCounts(CountryColumn(NewRows(SeedVotes, first, now)));
  }

  lemma RankingOfSeedCounts(col: seq<string>)
    requires |col| == 24
    requires forall c :: CountOf(col, c) == SeedCount(c)
    requires forall c :: c in col <==> c in SeedCountryCodes
    ensures var r := VoteCountByCountry(col, 10);
            && |r| == 10
            && r[0] == CountRow("US", 5) && r[1] == CountRow("DE", 4)
            && SumVotes(r) == 24
  {
    SeedGroupsCount(col);
    VoteCountByCountryIsTopCounts(col, 10);
    CountsAddUpToTotal(col, 10);
    var r := VoteCountByCountry(col, 10);
    FirstIsUnitedStates(col, r);
    SecondIsGermany(col, r);
  }

  lemma SeedGroupsCount(col: seq<string>)
    requires forall c :: c in col <==> c in SeedCountryCodes
    ensures |Groups(col)| == 10
  {
    assert Distinct(SeedCountryCodes);
    DistinctSameMembersSameLength(Groups(col), SeedCountryCodes);
  }

  lemma FirstIsUnitedStates(col: seq<string>, r: seq<CountRow>)
    requires forall c :: CountOf(col, c) == SeedCount(c)
    requires IsTopCounts(col, 10, r) && |r| >= 2
    ensures r[0] == CountRow("US", 5)
  {
    assert CountOf(col, "US") == 5;
    assert r[0].votes >= 5 by {
      if "US" in CountriesOf(r) {
        var k :| 0 <= k < |r| && CountriesOf(r)[k] == "US";
        assert r[k].votes == 5;
      } else {
        assert CountOf(col, "US") <= r[0].votes;
      }
    }
    assert r[0].votes == CountOf(col, r[0].country) == SeedCount(r[0].country);
    SeedCountLeaders(r[0].country);
  }

  lemma SecondIsGermany(col: seq<string>, r: seq<CountRow>)
    requires forall c :: CountOf(col, c) == SeedCount(c)
    requires IsTopCounts(col, 10, r) && |r| >= 2
    requires r[0] == CountRow("US", 5)
    ensures r[1] == CountRow("DE", 4)
  {
    assert CountOf(col, "DE") == 4;
    assert r[1].votes >= 4 by {
      if "DE" in CountriesOf(r) {
        var k :| 0 <= k < |r| && CountriesOf(r)[k] == "DE";
        assert r[k].votes == 4;
        assert k != 0;
      } else {
        assert CountOf(col, "DE") <= r[1].votes;
      }
    }
    assert r[1].country != r[0].country;
    assert r[1].votes == CountOf(col, r[1].country) == SeedCount(r[1].country);
    SeedCountLeaders(r[1].country);
  }

  lemma SeedCountLeaders(c: string)
    ensures SeedCount(c) >= 5 ==> c == "US"
    ensures SeedCount(c) >= 4 ==> c == "US" || c == "DE"
  {
  }

  /** Two duplicate-free lists with the same members have the same length. */
  lemma DistinctSameMembersSameLength(a: seq<string>, b: seq<string>)
    requires Distinct(a) && Distinct(b)
    requires forall x :: x in a <==> x in b
    ensures |a| == |b|
  {
    var m := map x | x in b :: 0;
    DistinctKeysCount(a, m);
    DistinctKeysCount(b, m);
  }
}
