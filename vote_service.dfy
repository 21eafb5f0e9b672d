/**
 * `VoteService`: create a vote (duplicate pre-check, normalised insert,
 * unique-index conflict reported as the same 409), the grouped per-country
 * counts, the total count and the bulk delete.  `storageUp` is false when
 * the database fails the call; every such failure becomes an `AppError`
 * with status 500.
 */
module VoteService {
  import opened Wrappers
  import opened Text
  import opened Ranking
  import opened VoteModel

  /** `AppError(message, statusCode)` of the error handler. */
  datatype AppError = AppError(message: string, statusCode: int)

  const DuplicateEmail := AppError("This email has already been used to vote", 409)
  const CreateVoteFailed := AppError("Failed to create vote", 500)
  const VoteCountsFailed := AppError("Failed to get vote counts", 500)
  const TotalVotesFailed := AppError("Failed to get total votes", 500)
  const DeleteVotesFailed := AppError("Failed to delete votes", 500)

  /** The row `createVote` asks the model to insert: name as given, email lower-cased, country upper-cased. */
  function Normalized(data: Ballot): (b: Ballot)
  {
    Ballot(data.name, Lower(data.email), Upper(data.country))
  }

  /**
   * `createVote`.  The pre-check looks the email up exactly as given; the
   * insert stores it lower-cased, so a case variant of a stored email slips
   * past the pre-check and is caught by the unique index instead, with the
   * same 409.  Every other failure is a 500.
   */
  method CreateVote(table: VoteTable, data: Ballot, isEmail: string -> bool, now: int, storageUp: bool)
    returns (r: Result<Vote, AppError>)
    requires table.Valid()
    modifies table
    ensures table.Valid()
    ensures r == Failure(DuplicateEmail) <==>
              storageUp &&
              (data.email in Emails(old(table.rows)) ||
               (PassesModelValidation(Normalized(data), isEmail) && Lower(data.email) in Emails(old(table.rows))))
    ensures r.Success? <==>
              storageUp && data.email !in Emails(old(table.rows)) &&
              PassesModelValidation(Normalized(data), isEmail) && Lower(data.email) !in Emails(old(table.rows))
    ensures r.Failure? ==> r.error == DuplicateEmail || r.error == CreateVoteFailed
    ensures r.Success? ==>
              && r.value == Vote(old(table.nextId), data.name, Lower(data.email), Upper(data.country), now)
              && r.value.id !in Ids(old(table.rows))
              && table.rows == old(table.rows) + [r.value]
    ensures r.Failure? ==> table.rows == old(table.rows)
  {
    if !storageUp {
      return Failure(CreateVoteFailed);
    }
    var existing := table.FindByEmail(data.email);
    if existing.Some? {
      return Failure(DuplicateEmail);
    }
    var outcome := table.Insert(Normalized(data), isEmail, now);
    match outcome
    case Inserted(v) => r := Success(v);
    case UniqueViolation => r := Failure(DuplicateEmail);
    case ValidationFailed => r := Failure(CreateVoteFailed);
  }

  /** `getVoteCountByCountry(limit)` over the table's rows. */
  function GetVoteCountByCountry(rows: seq<Vote>, limit: nat, storageUp: bool): (r: Result<seq<CountRow>, AppError>)
    ensures r.Failure? <==> !storageUp
    ensures r.Failure? ==> r.error == VoteCountsFailed
    ensures r.Success? ==> IsTopCounts(CountryColumn(rows), limit, r.value)
  {
    if storageUp then
      VoteCountByCountryIsTopCounts(CountryColumn(rows), limit);
      Success(VoteCountByCountry(CountryColumn(rows), limit))
    else Failure(VoteCountsFailed)
  }

  /** `getTotalVotes()`. */
  function GetTotalVotes(rows: seq<Vote>, storageUp: bool): (r: Result<nat, AppError>)
    ensures r.Failure? <==> !storageUp
    ensures r.Failure? ==> r.error == TotalVotesFailed
    ensures r.Success? ==> r.value == |rows|
  {
    if storageUp then Success(|rows|) else Failure(TotalVotesFailed)
  }

  /** The total and the unlimited per-country counts agree. */
  lemma TotalEqualsSumOfCounts(rows: seq<Vote>, limit: nat)
    requires limit >= |rows|
    ensures GetVoteCountByCountry(rows, limit, true).Success?
    ensures GetTotalVotes(rows, true).Success?
    ensures SumVotes(GetVoteCountByCountry(rows, limit, true).value) == GetTotalVotes(rows, true).value
  {
    CountsAddUpToTotal(CountryColumn(rows), limit);
  }

  /** `deleteAllVotes()`. */
  method DeleteAllVotes(table: VoteTable, storageUp: bool) returns (r: Result<(), AppError>)
    requires table.Valid()
    modifies table
    ensures table.Valid()
    ensures r.Failure? <==> !storageUp
    ensures r.Failure? ==> r.error == DeleteVotesFailed && table.rows == old(table.rows)
    ensures r.Success? ==> table.rows == []
  {
    if !storageUp {
      return Failure(DeleteVotesFailed);
    }
    table.Truncate();
    r := Success(());
  }

  /**
   * The duplicate-email test: a second vote with the same email, after a
   * first one succeeded, is refused with 409 and leaves one row.
   */
  method DuplicateEmailScenario(table: VoteTable, isEmail: string -> bool, now: int)
    returns (first: Result<Vote, AppError>, second: Result<Vote, AppError>)
    requires table.Valid() && table.rows == []
    requires isEmail("john@example.com")
    modifies table
    ensures first.Success? && first.value.email == "john@example.com" && first.value.country == "US"
    ensures second == Failure(DuplicateEmail)
    ensures |table.rows| == 1
  {
    LowerOfLowerText("john@example.com");
    assert !Blank("John Doe") && !Blank("john@example.com") && !Blank("US") by {
      assert "John Doe"[0] == 'J' && "john@example.com"[0] == 'j' && "US"[0] == 'U';
    }
    first := CreateVote(table, Ballot("John Doe", "john@example.com", "US"), isEmail, now, true);
    assert Emails(table.rows)[0] == "john@example.com";
    second := CreateVote(table, Ballot("Jane Smith", "john@example.com", "CA"), isEmail, now, true);
  }

  /**
   * A case variant of a stored email passes the exact-match pre-check and
   * is refused by the unique index on the lower-cased email, with the same 409.
   */
  method CaseVariantScenario(table: VoteTable, isEmail: string -> bool, now: int)
    returns (first: Result<Vote, AppError>, second: Result<Vote, AppError>)
    requires table.Valid() && table.rows == []
    requires isEmail("ana@x.com")
    modifies table
    ensures first.Success? && first.value == Vote(old(table.nextId), "Ana", "ana@x.com", "BR", now)
    ensures second == Failure(DuplicateEmail)
    ensures table.rows == [first.value]
  {
    assert Lower("ANA@x.com") == "ana@x.com";
    assert Upper("br") == "BR";
    assert !Blank("Ana") && !Blank("ana@x.com") && !Blank("BR") by {
      assert "Ana"[0] == 'A' && "ana@x.com"[0] == 'a' && "BR"[0] == 'B';
    }
    first := CreateVote(table, Ballot("Ana", "ANA@x.com", "br"), isEmail, now, true);
    assert Emails(table.rows) == ["ana@x.com"];
    assert "ANA@x.com" != "ana@x.com";
    second := CreateVote(table, Ballot("Ana", "ANA@x.com", "br"), isEmail, now, true);
  }
}
