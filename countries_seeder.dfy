/**
 * The countries seeder: `rollout` builds one to three mock votes per country
 * of the REST Countries list, numbering them with a running index that gives
 * each vote its own mock email, and bulk-inserts them with the model
 * validators on; `rollback` deletes every vote whose email matches
 * `'%@example.com'`; `stats` counts the seeded and the other votes.
 *
 * The country list (the network call) is a parameter, `None` when the call
 * fails; the random per-country vote counts are the parameter `numVotes`.
 */
module CountriesSeeder {
  import opened Wrappers
  import opened Text
  import opened Collections
  import opened Ranking
  import opened VoteModel
  import opened Seed

  /** The fields of a REST Countries record the seeder asks for. */
  datatype ApiCountry = ApiCountry(cca2: string, cca3: string, common: string)

  // ---------------------------------------------------------------------------
  // The rollback pattern

  /**
   * `email LIKE '%@example.com'`: SQLite's LIKE ignores ASCII case, and the
   * pattern has no `_` wildcard, so it is a case-insensitive suffix test.
   */
  predicate IsSeededEmail(e: string)
  {
    EndsWith(Lower(e), SeedDomain)
  }

  /** An address ending in the lower-case domain matches the pattern. */
  lemma EndsWithDomainIsSeeded(e: string)
    requires EndsWith(e, SeedDomain)
    ensures IsSeededEmail(e)
  {
    var k := |e| - |SeedDomain|;
    LowerOfLowerText(SeedDomain);
    assert Lower(e)[k..] == Lower(e[k..]);
  }

  // ---------------------------------------------------------------------------
  // Mock data

  function MockLocalPart(countryCode: string, index: nat): string
  {
    "vote-" + Lower(countryCode) + "-" + NatToString(index)
  }

  /** `generateMockEmail(countryCode, index)`. */
  function MockEmail(countryCode: string, index: nat): (e: string)
    ensures EndsWith(e, SeedDomain)
    ensures IsSeededEmail(e)
  {
    var e := Mail(MockLocalPart(countryCode, index));
    EndsWithDomainIsSeeded(e);
    e
  }

  /** An address ending in the seed domain is not blank. */
  lemma SeededMailNotBlank(e: string)
    requires EndsWith(e, SeedDomain)
    ensures !Blank(e)
  {
    assert e[|e| - 1] == SeedDomain[|SeedDomain| - 1];
  }

  /** In `u + [c] + s` with no `c` in `s`, position `|u|` holds the last `c`. */
  lemma LastSeparatorAt(u: string, s: string, c: char)
    requires Avoids(s, c)
    ensures (u + [c] + s)[|u|] == c
    ensures forall i :: |u| < i < |u + [c] + s| ==> (u + [c] + s)[i] != c
  {
    var w := u + [c] + s;
    forall i | |u| < i < |w| ensures w[i] != c {
      assert w[i] == s[i - |u| - 1];
    }
  }

  /** In `u + [c] + s` with no `c` in `u`, position `|u|` holds the first `c`. */
  lemma FirstSeparatorAt(u: string, s: string, c: char)
    requires Avoids(u, c)
    ensures (u + [c] + s)[|u|] == c
    ensures forall i :: 0 <= i < |u| ==> (u + [c] + s)[i] != c
  {
    var w := u + [c] + s;
    forall i | 0 <= i < |u| ensures w[i] != c {
      assert w[i] == u[i];
    }
  }

  /** What follows the last separator `c` is the same on both sides. */
  lemma AfterLastSeparator(u: string, s: string, u': string, s': string, c: char)
    requires Avoids(s, c) && Avoids(s', c)
    requires u + [c] + s == u' + [c] + s'
    ensures s == s'
  {
    var w := u + [c] + s;
    LastSeparatorAt(u, s, c);
    LastSeparatorAt(u', s', c);
    assert |u| == |u'|;
    assert s == w[|u| + 1..] == s';
  }

  /** What precedes the first separator `c` is the same on both sides, and so is the rest. */
  lemma BeforeFirstSeparator(u: string, s: string, u': string, s': string, c: char)
    requires Avoids(u, c) && Avoids(u', c)
    requires u + [c] + s == u' + [c] + s'
    ensures u == u' && s == s'
  {
    var w := u + [c] + s;
    FirstSeparatorAt(u, s, c);
    FirstSeparatorAt(u', s', c);
    assert |u| == |u'|;
    assert u == w[..|u|] == u';
    assert s == w[|u| + 1..] == s';
  }

  /**
   * Whatever the country codes, two mock emails are equal only for equal
   * indices: the digits after the last hyphen are the index.
   */
  lemma MockEmailIndexInjective(a: string, i: nat, b: string, j: nat)
    requires MockEmail(a, i) == MockEmail(b, j)
    ensures i == j
  {
    MailInjective(MockLocalPart(a, i), MockLocalPart(b, j));
    AfterLastSeparator("vote-" + Lower(a), NatToString(i), "vote-" + Lower(b), NatToString(j), '-');
    NatToStringInjective(i, j);
  }

  const FirstNames: seq<string> := ["John", "Jane", "Maria", "Carlos", "Anna", "Pierre", "Yuki", "Ahmed", "Sofia", "Hans"]
  const LastNames: seq<string> := ["Smith", "Garcia", "Silva", "Mueller", "Tanaka", "Kim", "Johnson", "Brown", "Lee", "Wang"]

  /** `generateMockName(countryName, index)`: "First Last (countryName)". */
  function MockName(countryName: string, index: nat): string
  {
    FirstNames[index % |FirstNames|] + " " + LastNames[(index / |FirstNames|) % |LastNames|] + " (" + countryName + ")"
  }

  /** A mock name ends with the country's name in parentheses, so it is never blank. */
  lemma MockNameShape(countryName: string, index: nat)
    ensures EndsWith(MockName(countryName, index), " (" + countryName + ")")
    ensures !Blank(MockName(countryName, index))
  {
    var full := FirstNames[index % |FirstNames|] + " " + LastNames[(index / |FirstNames|) % |LastNames|];
    var tail := " (" + countryName + ")";
    assert MockName(countryName, index) == full + tail;
    assert (full + tail)[|full|..] == tail;
    assert (full + tail)[|full + tail| - 1] == ')';
  }

  lemma TwoDigits(i: nat)
    ensures i % 100 == 10 * ((i / 10) % 10) + i % 10
  {
    var q := i / 10;
    assert i == 100 * (q / 10) + (10 * (q % 10) + i % 10);
    RemainderOfHundred(i, q / 10, 10 * (q % 10) + i % 10);
  }

  lemma RemainderOfHundred(i: int, q: int, r: int)
    requires 0 <= r < 100 && i == 100 * q + r
    ensures i % 100 == r
  {
  }

  lemma FirstNamesAvoidSpace(k: nat)
    requires k < |FirstNames|
    ensures Avoids(FirstNames[k], ' ')
  {
  }

  /** Equal names for one country come from the same first and last name. */
  lemma MockNameDigits(countryName: string, i: nat, j: nat)
    requires MockName(countryName, i) == MockName(countryName, j)
    ensures i % 10 == j % 10 && (i / 10) % 10 == (j / 10) % 10
  {
    var a, b := i % 10, (i / 10) % 10;
    var a', b' := j % 10, (j / 10) % 10;
    var tail := " (" + countryName + ")";
    var x := FirstNames[a] + " " + LastNames[b];
    var y := FirstNames[a'] + " " + LastNames[b'];
    assert MockName(countryName, i) == x + tail;
    assert MockName(countryName, j) == y + tail;
    SameSuffix(x, y, tail);
    FullNameParts(a, b, a', b');
  }

  lemma SameSuffix(x: string, y: string, tail: string)
    requires x + tail == y + tail
    ensures x == y
  {
    assert x == (x + tail)[..|x + tail| - |tail|];
    assert y == (y + tail)[..|y + tail| - |tail|];
  }

  /** A generated first-and-last name gives both of its parts back. */
  lemma FullNameParts(a: nat, b: nat, a': nat, b': nat)
    requires a < 10 && b < 10 && a' < 10 && b' < 10
    requires FirstNames[a] + " " + LastNames[b] == FirstNames[a'] + " " + LastNames[b']
    ensures a == a' && b == b'
  {
    FirstNamesAvoidSpace(a);
    FirstNamesAvoidSpace(a');
    BeforeFirstSeparator(FirstNames[a], LastNames[b], FirstNames[a'], LastNames[b'], ' ');
    assert Distinct(FirstNames);
    assert Distinct(LastNames);
  }

  /**
   * For one country, mock names repeat exactly every hundred indices: the
   * first name cycles with the last digit of the index, the last name with
   * the digit before it.
   */
  lemma MockNameIff(countryName: string, i: nat, j: nat)
    ensures MockName(countryName, i) == MockName(countryName, j) <==> i % 100 == j % 100
  {
    TwoDigits(i);
    TwoDigits(j);
    if MockName(countryName, i) == MockName(countryName, j) {
      MockNameDigits(countryName, i, j);
    } else if i % 100 == j % 100 {
      DigitsOfTwo(i, j);
    }
  }

  lemma DigitsOfTwo(i: nat, j: nat)
    requires i % 100 == j % 100
    ensures i % 10 == j % 10 && (i / 10) % 10 == (j / 10) % 10
  {
    TwoDigits(i);
    TwoDigits(j);
  }

  // ---------------------------------------------------------------------------
  // The rollout loop

  /** The votes for one country: `n` of them, numbered from `start`. */
  function Block(c: ApiCountry, n: nat, start: nat): (bs: seq<Ballot>)
    ensures |bs| == n
  {
    seq(n, i requires 0 <= i < n => Ballot(MockName(c.common, start + i), MockEmail(c.cca2, start + i), c.cca2))
  }

  /** The number of votes planned for the countries with these vote counts. */
  function Total(numVotes: seq<nat>): nat
  {
    if numVotes == [] then 0 else Total(numVotes[..|numVotes| - 1]) + numVotes[|numVotes| - 1]
  }

  /** `votesToCreate` after the loop has gone over `countries`. */
  function Planned(countries: seq<ApiCountry>, numVotes: seq<nat>): (bs: seq<Ballot>)
    requires |numVotes| == |countries|
    ensures |bs| == Total(numVotes)
  {
    if countries == [] then []
    else
      var n := |countries| - 1;
      Planned(countries[..n], numVotes[..n]) + Block(countries[n], numVotes[n], Total(numVotes[..n]))
  }

  /** The construction loop of `rollout`, with `numVotes[k]` standing for the k-th random draw. */
  method BuildVotes(countries: seq<ApiCountry>, numVotes: seq<nat>) returns (votesToCreate: seq<Ballot>)
    requires |numVotes| == |countries|
    ensures votesToCreate == Planned(countries, numVotes)
  {
    votesToCreate := [];
    var emailIndex := 0;
    var k := 0;
    while k < |countries|
      invariant 0 <= k <= |countries|
      invariant votesToCreate == Planned(countries[..k], numVotes[..k])
      invariant emailIndex == Total(numVotes[..k])
    {
      var country := countries[k];
      var start := emailIndex;
      var i := 0;
      while i < numVotes[k]
        invariant 0 <= i <= numVotes[k]
        invariant emailIndex == start + i
        invariant votesToCreate == Planned(countries[..k], numVotes[..k]) + Block(country, i, start)
      {
        var vote := Ballot(MockName(country.common, emailIndex), MockEmail(country.cca2, emailIndex), country.cca2);
        BlockGrows(country, i, start);
        votesToCreate := votesToCreate + [vote];
        emailIndex := emailIndex + 1;
        i := i + 1;
      }
      PlannedGrows(countries, numVotes, k);
      k := k + 1;
    }
    assert countries[..k] == countries && numVotes[..k] == numVotes;
  }

  lemma BlockGrows(c: ApiCountry, i: nat, start: nat)
    ensures Block(c, i, start) + [Ballot(MockName(c.common, start + i), MockEmail(c.cca2, start + i), c.cca2)]
            == Block(c, i + 1, start)
  {
  }

  lemma PlannedGrows(countries: seq<ApiCountry>, numVotes: seq<nat>, k: nat)
    requires |numVotes| == |countries| && k < |countries|
    ensures Planned(countries[..k + 1], numVotes[..k + 1])
            == Planned(countries[..k], numVotes[..k]) + Block(countries[k], numVotes[k], Total(numVotes[..k]))
    ensures Total(numVotes[..k + 1]) == Total(numVotes[..k]) + numVotes[k]
  {
    assert countries[..k + 1][..k] == countries[..k];
    assert numVotes[..k + 1][..k] == numVotes[..k];
  }

  /** The running index: the vote at position `p` carries index `p`, for its country. */
  lemma {:induction false} PlannedAt(countries: seq<ApiCountry>, numVotes: seq<nat>, p: nat)
    requires |numVotes| == |countries|
    requires p < |Planned(countries, numVotes)|
    ensures exists k :: 0 <= k < |countries| &&
              Planned(countries, numVotes)[p] ==
                Ballot(MockName(countries[k].common, p), MockEmail(countries[k].cca2, p), countries[k].cca2)
  {
    var n := |countries| - 1;
    var init := Planned(countries[..n], numVotes[..n]);
    if p < |init| {
      PlannedAt(countries[..n], numVotes[..n], p);
      var k :| 0 <= k < n && init[p] ==
        Ballot(MockName(countries[..n][k].common, p), MockEmail(countries[..n][k].cca2, p), countries[..n][k].cca2);
      assert countries[..n][k] == countries[k];
    } else {
      assert Planned(countries, numVotes)[p] == Block(countries[n], numVotes[n], |init|)[p - |init|];
    }
  }

  /** The converse: each country's `numVotes[k]` votes sit one after another, from the count before it. */
  lemma {:induction false} BlockInPlanned(countries: seq<ApiCountry>, numVotes: seq<nat>, k: nat, i: nat)
    requires |numVotes| == |countries|
    requires k < |countries| && i < numVotes[k]
    ensures Total(numVotes[..k]) + i < |Planned(countries, numVotes)|
    ensures var p := Total(numVotes[..k]) + i;
            Planned(countries, numVotes)[p] ==
              Ballot(MockName(countries[k].common, p), MockEmail(countries[k].cca2, p), countries[k].cca2)
  {
    var n := |countries| - 1;
    var init := Planned(countries[..n], numVotes[..n]);
    var last := Block(countries[n], numVotes[n], Total(numVotes[..n]));
    assert Planned(countries, numVotes) == init + last;
    var p := Total(numVotes[..k]) + i;
    if k < n {
      BlockInPlanned(countries[..n], numVotes[..n], k, i);
      assert numVotes[..n][..k] == numVotes[..k];
      assert countries[..n][k] == countries[k];
      assert (init + last)[p] == init[p];
    } else {
      assert numVotes[..k] == numVotes[..n];
      assert (init + last)[p] == last[i];
    }
  }

  /** The running index makes every mock email different, as the unique index requires. */
  lemma PlannedEmailsDistinct(countries: seq<ApiCountry>, numVotes: seq<nat>)
    requires |numVotes| == |countries|
    ensures Distinct(BallotEmails(Planned(countries, numVotes)))
  {
    var bs := Planned(countries, numVotes);
    var es := BallotEmails(bs);
    forall p, q | 0 <= p < q < |es| ensures es[p] != es[q] {
      PlannedAt(countries, numVotes, p);
      PlannedAt(countries, numVotes, q);
      var k :| 0 <= k < |countries| && bs[p] ==
        Ballot(MockName(countries[k].common, p), MockEmail(countries[k].cca2, p), countries[k].cca2);
      var l :| 0 <= l < |countries| && bs[q] ==
        Ballot(MockName(countries[l].common, q), MockEmail(countries[l].cca2, q), countries[l].cca2);
      if es[p] == es[q] {
        MockEmailIndexInjective(countries[k].cca2, p, countries[l].cca2, q);
      }
    }
  }

  /** Every planned vote matches the rollback pattern. */
  lemma PlannedAreSeeded(countries: seq<ApiCountry>, numVotes: seq<nat>)
    requires |numVotes| == |countries|
    ensures forall b :: b in Planned(countries, numVotes) ==> IsSeededEmail(b.email)
  {
    var bs := Planned(countries, numVotes);
    forall b | b in bs ensures IsSeededEmail(b.email) {
      var p :| 0 <= p < |bs| && bs[p] == b;
      PlannedAt(countries, numVotes, p);
    }
  }

  /** With one to three votes per country, there are between one and three times as many votes as countries. */
  lemma {:induction false} TotalBounds(numVotes: seq<nat>)
    requires forall k :: 0 <= k < |numVotes| ==> 1 <= numVotes[k] <= 3
    ensures |numVotes| <= Total(numVotes) <= 3 * |numVotes|
  {
    if numVotes != [] {
      TotalBounds(numVotes[..|numVotes| - 1]);
    }
  }

  // ---------------------------------------------------------------------------
  // rollout, rollback, stats

  datatype RolloutOutcome =
    | FetchFailed        // fetchAllCountries threw
    | InsertFailed       // bulkCreate threw (a validator or the unique index)
    | Created(count: nat)

  /** When `Vote.bulkCreate(bs, { validate: true })` goes through on a table holding `rows`. */
  predicate BulkAccepted(bs: seq<Ballot>, rows: seq<Vote>, isEmail: string -> bool)
  {
    && (forall i :: 0 <= i < |bs| ==> PassesModelValidation(bs[i], isEmail))
    && Distinct(BallotEmails(bs))
    && (forall i :: 0 <= i < |bs| ==> bs[i].email !in Emails(rows))
  }

  /** `rollout()`, given the country list (or the failed fetch) and the random vote counts. */
  method Rollout(table: VoteTable, fetched: Option<seq<ApiCountry>>, numVotes: seq<nat>,
                 isEmail: string -> bool, now: int) returns (outcome: RolloutOutcome)
    requires table.Valid()
    requires fetched.Some? ==> |numVotes| == |fetched.value|
    modifies table
    ensures table.Valid()
    ensures fetched.None? ==> outcome == FetchFailed
    ensures fetched.Some? ==>
              var votes := Planned(fetched.value, numVotes);
              && (outcome.Created? <==> BulkAccepted(votes, old(table.rows), isEmail))
              && (outcome.Created? ==> outcome.count == Total(numVotes) &&
                                       table.rows == old(table.rows) + NewRows(votes, old(table.nextId), now))
              && (!outcome.Created? ==> outcome == InsertFailed)
    ensures !outcome.Created? ==> table.rows == old(table.rows) && table.nextId == old(table.nextId)
  {
    if fetched.None? {
      return FetchFailed;
    }
    var votesToCreate := BuildVotes(fetched.value, numVotes);
    var ok := table.BulkInsert(votesToCreate, true, isEmail, now);
    if ok {
      outcome := Created(|votesToCreate|);
    } else {
      outcome := InsertFailed;
    }
  }

  /** `rollback()`: deletes exactly the votes matching the pattern, keeping the others in order. */
  method Rollback(table: VoteTable) returns (deletedCount: nat)
    requires table.Valid()
    modifies table
    ensures table.Valid() && table.nextId == old(table.nextId)
    ensures table.rows == WithoutMatching(old(table.rows), IsSeededEmail)
    ensures deletedCount == CountMatching(old(table.rows), IsSeededEmail)
  {
    deletedCount := table.DestroyByEmail(IsSeededEmail);
  }

  datatype SeederStats = SeederStats(totalVotes: nat, seededVotes: nat, realVotes: int)

  /** `stats()`: the real votes are the rows the rollback would keep, so never negative. */
  function Stats(table: VoteTable): (s: SeederStats)
    reads table
    ensures s.totalVotes == |table.rows|
    ensures s.realVotes == |WithoutMatching(table.rows, IsSeededEmail)|
    ensures s.seededVotes + s.realVotes == s.totalVotes
  {
    var totalVotes := table.Count();
    var seededVotes := CountMatching(table.rows, IsSeededEmail);
    SeederStats(totalVotes, seededVotes, totalVotes - seededVotes)
  }

  // ---------------------------------------------------------------------------
  // Rollout and rollback together

  lemma {:induction false} WithoutMatchingAppend(a: seq<Vote>, b: seq<Vote>, matches: string -> bool)
    ensures WithoutMatching(a + b, matches) == WithoutMatching(a, matches) + WithoutMatching(b, matches)
  {
    if a != [] {
      assert (a + b)[0] == a[0];
      assert (a + b)[1..] == a[1..] + b;
      WithoutMatchingAppend(a[1..], b, matches);
      var head := if matches(a[0].email) then [] else [a[0]];
      WithoutMatchingCons(a + b, matches);
      WithoutMatchingCons(a, matches);
      var x, y := WithoutMatching(a[1..], matches), WithoutMatching(b, matches);
      assert head + (x + y) == (head + x) + y;
    } else {
      assert a + b == b;
    }
  }

  lemma WithoutMatchingCons(rows: seq<Vote>, matches: string -> bool)
    requires rows != []
    ensures WithoutMatching(rows, matches) ==
            (if matches(rows[0].email) then [] else [rows[0]]) + WithoutMatching(rows[1..], matches)
  {
  }

  lemma {:induction false} AllMatchingGone(rows: seq<Vote>, matches: string -> bool)
    requires forall i :: 0 <= i < |rows| ==> matches(rows[i].email)
    ensures WithoutMatching(rows, matches) == []
  {
    if rows != [] {
      AllMatchingGone(rows[1..], matches);
    }
  }

  /** A rollback after a successful rollout leaves what a rollback alone would have left. */
  lemma RollbackUndoesRollout(rows: seq<Vote>, countries: seq<ApiCountry>, numVotes: seq<nat>, first: nat, now: int)
    requires |numVotes| == |countries|
    ensures WithoutMatching(rows + NewRows(Planned(countries, numVotes), first, now), IsSeededEmail) ==
            WithoutMatching(rows, IsSeededEmail)
  {
    var bs := Planned(countries, numVotes);
    var added := NewRows(bs, first, now);
    PlannedAreSeeded(countries, numVotes);
    forall i | 0 <= i < |added| ensures IsSeededEmail(added[i].email) {
      assert bs[i] in bs;
    }
    AllMatchingGone(added, IsSeededEmail);
    WithoutMatchingAppend(rows, added, IsSeededEmail);
    assert WithoutMatching(rows, IsSeededEmail) + [] == WithoutMatching(rows, IsSeededEmail);
  }

  /** The development seed's emails also match the pattern: a rollback after a reset empties the table. */
  lemma RollbackRemovesDevelopmentSeed(first: nat, now: int)
    ensures WithoutMatching(NewRows(SeedVotes, first, now), IsSeededEmail) == []
  {
    var added := NewRows(SeedVotes, first, now);
    SeedEmails();
    forall i | 0 <= i < |added| ensures IsSeededEmail(added[i].email) {
      EndsWithDomainIsSeeded(SeedVotes[i].email);
    }
    AllMatchingGone(added, IsSeededEmail);
  }

  /** After a rollback, `stats` counts no seeded vote and as many real votes as before. */
  lemma {:induction false} StatsAfterRollback(rows: seq<Vote>)
    ensures CountMatching(WithoutMatching(rows, IsSeededEmail), IsSeededEmail) == 0
    ensures |WithoutMatching(WithoutMatching(rows, IsSeededEmail), IsSeededEmail)| == |WithoutMatching(rows, IsSeededEmail)|
  {
    if rows != [] {
      StatsAfterRollback(rows[1..]);
    }
  }

  /** A second rollout over the same countries collides with the first on the unique email index. */
  lemma RolloutTwiceCollides(rows: seq<Vote>, countries: seq<ApiCountry>, numVotes: seq<nat>,
                             first: nat, now: int, isEmail: string -> bool)
    requires |numVotes| == |countries|
    requires Planned(countries, numVotes) != []
    ensures !BulkAccepted(Planned(countries, numVotes), rows + NewRows(Planned(countries, numVotes), first, now), isEmail)
  {
    var bs := Planned(countries, numVotes);
    var all := rows + NewRows(bs, first, now);
    assert all[|rows|].email == bs[0].email;
    assert Emails(all)[|rows|] == bs[0].email;
  }

  /**
   * On a table holding no matching email, the rollout goes in when the codes
   * have two or three characters and the email check accepts the mock emails.
   */
  lemma RolloutAcceptedWhenNoSeededRows(rows: seq<Vote>, countries: seq<ApiCountry>, numVotes: seq<nat>,
                                        isEmail: string -> bool)
    requires |numVotes| == |countries|
    requires forall i :: 0 <= i < |rows| ==> !IsSeededEmail(rows[i].email)
    requires forall k :: 0 <= k < |countries| ==> 2 <= |countries[k].cca2| <= 3 && !Blank(countries[k].cca2)
    requires forall k, p: nat :: 0 <= k < |countries| ==> isEmail(MockEmail(countries[k].cca2, p))
    ensures BulkAccepted(Planned(countries, numVotes), rows, isEmail)
  {
    var bs := Planned(countries, numVotes);
    PlannedEmailsDistinct(countries, numVotes);
    PlannedAreSeeded(countries, numVotes);
    forall i | 0 <= i < |bs| ensures PassesModelValidation(bs[i], isEmail) && bs[i].email !in Emails(rows) {
      PlannedAt(countries, numVotes, i);
      var k :| 0 <= k < |countries| && bs[i] ==
        Ballot(MockName(countries[k].common, i), MockEmail(countries[k].cca2, i), countries[k].cca2);
      MockNameShape(countries[k].common, i);
      SeededMailNotBlank(bs[i].email);
      assert bs[i] in bs;
      forall j | 0 <= j < |rows| ensures Emails(rows)[j] != bs[i].email {
        assert Emails(rows)[j] == rows[j].email;
      }
    }
  }

  /**
   * The converse for the codes: a country given at least one vote whose
   * `cca2` is only whitespace fails `notEmpty`, and the whole rollout insert
   * is refused.
   */
  lemma BlankCodeRejectsRollout(rows: seq<Vote>, countries: seq<ApiCountry>, numVotes: seq<nat>,
                                isEmail: string -> bool, k: nat)
    requires |numVotes| == |countries|
    requires k < |countries| && 1 <= numVotes[k] && Blank(countries[k].cca2)
    ensures !BulkAccepted(Planned(countries, numVotes), rows, isEmail)
  {
    BlockInPlanned(countries, numVotes, k, 0);
    var p := Total(numVotes[..k]);
    assert Planned(countries, numVotes)[p].country == countries[k].cca2;
  }
}
